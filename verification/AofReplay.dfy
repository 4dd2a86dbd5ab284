/**
  What replaying a log does to the dataset (project/network/redis/redis-3.2/src/aof.c):
  each command runs against the database chosen by the last SELECT before it.
*/
module AofReplay {
  import opened CInt
  import opened Decimal
  import opened AofFormat

  /** A command, the database it works on and when it is executed. */
  datatype Op = Op(db: int, command: Command, now: int)

  /** A command of a log and when it is executed. */
  datatype Stamped = Stamped(command: Command, now: int)

  function Plain(log: seq<Stamped>): seq<Command> {
    seq(|log|, i requires 0 <= i < |log| => log[i].command)
  }

  function Stamp(cs: seq<Command>, now: int): seq<Stamped> {
    seq(|cs|, i requires 0 <= i < |cs| => Stamped(cs[i], now))
  }

  function StampEach(cs: seq<Command>, ts: seq<int>): seq<Stamped>
    requires |ts| == |cs|
  {
    seq(|cs|, i requires 0 <= i < |cs| => Stamped(cs[i], ts[i]))
  }

  function Lower(s: string): string {
    seq(|s|, i requires 0 <= i < |s| => if 'A' <= s[i] <= 'Z' then s[i] - 'A' + 'a' else s[i])
  }

  predicate IsSelect(c: Command) {
    |c| == 2 && Lower(c[0]) == "select"
  }

  function Select(db: nat): Command {
    ["SELECT", Show(db)]
  }

  function DbFor(db: int, c: Command): int {
    if IsSelect(c) then Read(c[1]) else db
  }

  /** The database that is selected after a log has been replayed, when it was db before. */
  function DbAfter(db: int, log: seq<Stamped>): int
    decreases |log|
  {
    if log == [] then db else DbAfter(DbFor(db, log[0].command), log[1..])
  }

  /** The commands a log runs, each with its database. */
  function Replay(db: int, log: seq<Stamped>): seq<Op>
    decreases |log|
  {
    if log == [] then []
    else
      var c := log[0].command;
      (if IsSelect(c) then [] else [Op(db, c, log[0].now)]) + Replay(DbFor(db, c), log[1..])
  }

  lemma {:induction false} ReplayAppend(db: int, a: seq<Stamped>, b: seq<Stamped>)
    ensures Replay(db, a + b) == Replay(db, a) + Replay(DbAfter(db, a), b)
    ensures DbAfter(db, a + b) == DbAfter(DbAfter(db, a), b)
    decreases |a|
  {
    if a == [] {
      assert a + b == b;
    } else {
      assert (a + b)[1..] == a[1..] + b;
      ReplayAppend(DbFor(db, a[0].command), a[1..], b);
    }
  }

  /** A log that begins with a SELECT does the same wherever it is put. */
  predicate Anchored(log: seq<Stamped>) {
    log == [] || IsSelect(log[0].command)
  }

  lemma AnchoredAnywhere(db: int, db': int, log: seq<Stamped>)
    requires Anchored(log)
    ensures Replay(db, log) == Replay(db', log) && (log != [] ==> DbAfter(db, log) == DbAfter(db', log))
  {
  }

  lemma SelectIsSelect(db: nat)
    requires db <= INT_MAX
    ensures IsSelect(Select(db)) && Read(Select(db)[1]) == db && Writable(Select(db))
  {
    assert Lower("SELECT") == "select";
    ShowIsShort(db);
    ReadShow(db, "");
    assert Show(db) + "" == Show(db);
  }

  /** SELECT is recognised in any letter case: it only moves to another database. */
  lemma SelectInAnyCase(name: string, x: string, before: int, now: int)
    requires |name| == 6 && forall i :: 0 <= i < 6 ==> name[i] == "select"[i] || name[i] == "SELECT"[i]
    ensures Replay(before, [Stamped([name, x], now)]) == [] && DbAfter(before, [Stamped([name, x], now)]) == Read(x)
  {
    var c := [name, x];
    assert Lower(name) == "select";
    ReplayOne(before, Stamped(c, now));
  }

  // --- translation ---------------------------------------------------------------------------

  predicate Named(c: Command, name: string) {
    |c| > 0 && Lower(c[0]) == name
  }

  predicate IsExpire(c: Command) {
    Named(c, "expire") || Named(c, "pexpire") || Named(c, "expireat")
  }

  predicate IsSetex(c: Command) {
    Named(c, "setex") || Named(c, "psetex")
  }

  predicate InSeconds(c: Command) {
    Named(c, "expire") || Named(c, "setex") || Named(c, "expireat")
  }

  predicate FromNow(c: Command) {
    Named(c, "expire") || Named(c, "pexpire") || IsSetex(c)
  }

  /** The arguments that these commands have when they are executed */
  predicate HasArguments(c: Command) {
    (IsExpire(c) ==> |c| >= 3) && (IsSetex(c) ==> |c| >= 4)
  }

  /** Lines 506-518: when a key expires, in milliseconds, for a command that is executed at `now` */
  function When(c: Command, now: int): (when: int)
    requires |c| >= 3
    ensures 0 - LONG_MAX - 1 <= when <= LONG_MAX
  {
    var t := Strtol(c[2]);
    var ms := if InSeconds(c) then Int64(t * 1000) else t;
    if FromNow(c) then Int64(ms + now) else ms
  }

  function ExpireAt(c: Command, now: int): Command
    requires |c| >= 3
  {
    ["PEXPIREAT", c[1], ShowInt(When(c, now))]
  }

  /** What is logged for a command that is executed at `now`: lines 545-562 */
  function Logged(c: Command, now: int): seq<Command>
    requires HasArguments(c)
  {
    if IsExpire(c) then [ExpireAt(c, now)]
    else if IsSetex(c) then [["SET", c[1], c[3]], ExpireAt(c, now)]
    else [c]
  }

  lemma LogNames()
    ensures Lower("PEXPIREAT") == "pexpireat" && Lower("SET") == "set"
  {
  }

  lemma NotTranslated(c: Command, now: int)
    requires c != [] && (Lower(c[0]) == "pexpireat" || Lower(c[0]) == "set")
    ensures HasArguments(c) && Logged(c, now) == [c] && !IsSelect(c)
  {
  }

  /** The log does not depend on when it is read: what is logged would be logged again as it is, at any time. */
  lemma LoggedIsFixed(c: Command, now: int, i: nat, later: int)
    requires HasArguments(c) && i < |Logged(c, now)|
    ensures HasArguments(Logged(c, now)[i]) && Logged(Logged(c, now)[i], later) == [Logged(c, now)[i]]
  {
    LogNames();
    if IsExpire(c) || IsSetex(c) {
      NotTranslated(Logged(c, now)[i], later);
    }
  }

  lemma TimeIsShort(when: int)
    requires 0 - LONG_MAX - 1 <= when <= LONG_MAX
    ensures |ShowInt(when)| <= 22
  {
    if when == 0 - LONG_MAX - 1 {
      ShowIsShort(LONG_MAX / 10);
      assert (LONG_MAX + 1) / 10 == LONG_MAX / 10;
      assert |Show(LONG_MAX + 1)| == |Show((LONG_MAX + 1) / 10)| + 1;
    } else {
      ShowIsShort(if when < 0 then -when else when);
    }
  }

  predicate NoSelects(cs: seq<Command>) {
    forall i :: 0 <= i < |cs| ==> !IsSelect(cs[i])
  }

  predicate AllWritable(cs: seq<Command>) {
    forall i :: 0 <= i < |cs| ==> Writable(cs[i])
  }

  lemma LoggedIsWritable(c: Command, now: int)
    requires HasArguments(c) && Writable(c) && !IsSelect(c)
    ensures AllWritable(Logged(c, now)) && NoSelects(Logged(c, now))
  {
    LogNames();
    if IsExpire(c) || IsSetex(c) {
      TimeIsShort(When(c, now));
    }
  }

  // --- entries -------------------------------------------------------------------------------

  /** What feedAppendOnlyFile puts into the log for commands on database db. */
  function Entry(selected: int, db: nat, cs: seq<Command>): seq<Command> {
    if db != selected then [Select(db)] + cs else cs
  }

  function Ops(db: int, log: seq<Stamped>): seq<Op> {
    seq(|log|, i requires 0 <= i < |log| => Op(db, log[i].command, log[i].now))
  }

  lemma {:induction false} ReplayPlain(db: int, log: seq<Stamped>)
    requires NoSelects(Plain(log))
    ensures Replay(db, log) == Ops(db, log) && DbAfter(db, log) == db
    decreases |log|
  {
    if log != [] {
      var c := log[0].command;
      assert c == Plain(log)[0] && Plain(log[1..]) == Plain(log)[1..];
      ReplayPlain(db, log[1..]);
      assert Ops(db, log) == [Op(db, c, log[0].now)] + Ops(db, log[1..]);
    }
  }

  lemma ReplayEntry(selected: int, before: int, db: nat, cs: seq<Command>, now: int)
    requires db <= INT_MAX && NoSelects(cs) && (selected == db ==> before == db)
    ensures Replay(before, Stamp(Entry(selected, db, cs), now)) == Ops(db, Stamp(cs, now))
    ensures DbAfter(before, Stamp(Entry(selected, db, cs), now)) == db
  {
    var log := Stamp(cs, now);
    assert Plain(log) == cs;
    ReplayPlain(db, log);
    if db != selected {
      var first := Stamped(Select(db), now);
      SelectIsSelect(db);
      ReplayOne(before, first);
      ReplayAppend(before, [first], log);
      assert Stamp(Entry(selected, db, cs), now) == [first] + log;
    }
  }

  lemma ReplayOne(db: int, e: Stamped)
    ensures Replay(db, [e]) == if IsSelect(e.command) then [] else [Op(db, e.command, e.now)]
    ensures DbAfter(db, [e]) == DbFor(db, e.command)
  {
    assert [e][1..] == [];
  }

  lemma {:induction false} EncodeAppend(a: seq<Command>, b: seq<Command>)
    ensures EncodeAll(a + b) == EncodeAll(a) + EncodeAll(b)
  {
    EncodeSplit(a + b, |a|);
    assert (a + b)[..|a|] == a && (a + b)[|a|..] == b;
  }

  lemma EncodeEntry(selected: int, db: nat, cs: seq<Command>)
    ensures EncodeAll(Entry(selected, db, cs)) == (if db != selected then Encode(Select(db)) else "") + EncodeAll(cs)
  {
    if db != selected {
      EncodeOne(Select(db));
      EncodeAppend([Select(db)], cs);
    }
  }

  lemma EncodeOne(c: Command)
    ensures EncodeAll([c]) == Encode(c)
  {
    assert [c][1..] == [] && Encode(c) + "" == Encode(c);
  }

  lemma TwoArguments(x: string, y: string)
    ensures Encode([x, y]) == Head('*', 2) + (Bulk(x) + (Bulk(y) + ""))
  {
    var c := [x, y];
    assert c[1..] == [y] && c[1..][1..] == [];
    assert Bulks([y]) == Bulk(y) + "";
  }

  lemma SelectHeads()
    ensures Head('*', 2) == "*2\r\n" && Bulk("SELECT") == "$6\r\nSELECT\r\n"
  {
    assert Show(2) == "2" && Show(6) == "6";
    assert Head('$', 6) == "$6\r\n";
  }

  lemma Flat(a: string, b: string, c: string, d: string, e: string, f: string, abc: string)
    requires a + b + c == abc
    ensures a + (b + ((c + d + e) + f + e + "")) == abc + d + e + f + e
  {
  }

  lemma SelectPrefix()
    ensures "*2\r\n" + "$6\r\nSELECT\r\n" + ['$'] == "*2\r\n$6\r\nSELECT\r\n$"
  {
  }

  /** The text of a SELECT, as it is printed at line 541. */
  lemma SelectText(x: string)
    ensures Encode(["SELECT", x]) == "*2\r\n$6\r\nSELECT\r\n$" + Show(|x|) + "\r\n" + x + "\r\n"
  {
    var command, select := Head('*', 2), Bulk("SELECT");
    TwoArguments("SELECT", x);
    SelectHeads();
    SelectPrefix();
    Flat(command, select, ['$'], Show(|x|), "\r\n", x, "*2\r\n$6\r\nSELECT\r\n$");
  }
}
