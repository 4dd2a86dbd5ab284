/**
  What the commands that set an expiry do to the dataset, each by its own name
  (project/network/redis/redis-3.2/src/db.c:943-1010 and t_string.c:59-161), and that the log of a
  command, replayed at any time, does what the command did when it was executed
  (project/network/redis/redis-3.2/src/aof.c:500-562).

  All other commands are a parameter: any function of dataset, database and command.  Integer
  overflow wraps around.
*/
module AofDataset {
  import opened CInt
  import opened Options
  import opened Decimal
  import opened AofFormat
  import opened AofReplay

  type Thing(==, !new)   // lists, sets, hashes and sorted sets

  datatype Value = Text(text: string) | Other(thing: Thing)

  /** A value and when it expires, in milliseconds */
  datatype Item = Item(value: Value, expiry: Option<int>)

  type Keyspace = map<string, Item>

  type Dataset = map<int, Keyspace>

  type Others = (Dataset, int, Command) -> Dataset

  const NEW: Dataset := map[]

  function Keys(d: Dataset, db: int): Keyspace {
    if db in d then d[db] else map[]
  }

  // setKey and setExpire
  function Store(d: Dataset, db: int, key: string, item: Item): Dataset {
    d[db := Keys(d, db)[key := item]]
  }

  // setExpire on a key that is there
  function Touch(d: Dataset, db: int, key: string, when: int): Dataset {
    if key in Keys(d, db) then Store(d, db, key, Keys(d, db)[key].(expiry := Some(when))) else d
  }

  // dbDelete for each key
  function Remove(d: Dataset, db: int, keys: seq<string>): Dataset {
    if db in d then d[db := d[db] - (set k | k in keys)] else d
  }

  // --- SET -----------------------------------------------------------------------------------

  /** The flags of SET; an expiry is an argument and whether it is in seconds. */
  datatype Flags = Flags(nx: bool, xx: bool, expiry: Option<(string, bool)>)

  // The loop of setCommand; None is a syntax error
  function ParseFlags(args: seq<string>, f: Flags): Option<Flags>
    decreases |args|
  {
    if args == [] then Some(f)
    else if Lower(args[0]) == "nx" && !f.xx then ParseFlags(args[1..], f.(nx := true))
    else if Lower(args[0]) == "xx" && !f.nx then ParseFlags(args[1..], f.(xx := true))
    else if Lower(args[0]) == "ex" && !(f.expiry.Some? && !f.expiry.value.1) && |args| > 1 then
      ParseFlags(args[2..], f.(expiry := Some((args[1], true))))
    else if Lower(args[0]) == "px" && !(f.expiry.Some? && f.expiry.value.1) && |args| > 1 then
      ParseFlags(args[2..], f.(expiry := Some((args[1], false))))
    else None
  }

  const NO_FLAGS: Flags := Flags(false, false, None)

  function FlagsOf(c: Command): Option<Flags>
    requires |c| >= 3
  {
    ParseFlags(c[3..], NO_FLAGS)
  }

  /** What string2ll accepts */
  predicate Integer(s: string) {
    ShowInt(Strtol(s)) == s
  }

  predicate ValidTime(s: string) {
    Integer(s) && Strtol(s) > 0
  }

  // The reasons of setGenericCommand to leave the key alone
  predicate SetRefused(d: Dataset, db: int, key: string, f: Flags) {
    || (f.expiry.Some? && !ValidTime(f.expiry.value.0))
    || (f.nx && key in Keys(d, db)) || (f.xx && key !in Keys(d, db))
  }

  function SetExpiry(f: Flags, now: int): Option<int> {
    match f.expiry
    case None => None
    case Some((amount, true)) => Some(Int64(now + Int64(Strtol(amount) * 1000)))
    case Some((amount, false)) => Some(Int64(now + Strtol(amount)))
  }

  // --- executing a command ------------------------------------------------------------------------

  datatype Kind = Expire | Pexpire | Expireat | Pexpireat | Setex | Psetex | Set | Del | Rest

  function KindNamed(name: string): Kind {
    if name == "expire" then Expire
    else if name == "pexpire" then Pexpire
    else if name == "expireat" then Expireat
    else if name == "pexpireat" then Pexpireat
    else if name == "setex" then Setex
    else if name == "psetex" then Psetex
    else if name == "set" then Set
    else if name == "del" then Del
    else Rest
  }

  // The least number of arguments, the name included
  function Arity(k: Kind): nat {
    match k
    case Rest => 0
    case Del => 2
    case Setex => 4
    case Psetex => 4
    case _ => 3
  }

  function KindOf(c: Command): (k: Kind)
    ensures |c| >= Arity(k)
  {
    if c == [] then Rest
    else
      var k := KindNamed(Lower(c[0]));
      if |c| >= Arity(k) then k else Rest
  }

  predicate Touches(k: Kind) {
    k.Expire? || k.Pexpire? || k.Expireat? || k.Pexpireat?
  }

  predicate Stores(k: Kind) {
    k.Setex? || k.Psetex?
  }

  /** When the key will expire, in milliseconds */
  function Moment(k: Kind, t: int, now: int): int {
    match k
    case Expire => Int64(Int64(t * 1000) + now)
    case Pexpire => Int64(t + now)
    case Expireat => Int64(t * 1000)
    case Pexpireat => t
    case Setex => Int64(now + Int64(t * 1000))
    case Psetex => Int64(now + t)
    case _ => t
  }

  /** Does the command end without a change, so that it is not passed on either? */
  predicate Refused(d: Dataset, db: int, c: Command) {
    var k := KindOf(c);
    if Touches(k) then !Integer(c[2]) || c[1] !in Keys(d, db)
    else if Stores(k) then !ValidTime(c[2])
    else k.Set? && (FlagsOf(c).None? || SetRefused(d, db, c[1], FlagsOf(c).value))
  }

  /** What a command does when it is executed at `now` while a log is loaded */
  function Execute(others: Others, d: Dataset, db: int, c: Command, now: int): Dataset {
    var k := KindOf(c);
    if Refused(d, db, c) then d
    else if Touches(k) then Touch(d, db, c[1], Moment(k, Strtol(c[2]), now))
    else if Stores(k) then Store(d, db, c[1], Item(Text(c[3]), Some(Moment(k, Strtol(c[2]), now))))
    else if k.Set? then Store(d, db, c[1], Item(Text(c[2]), SetExpiry(FlagsOf(c).value, now)))
    else if k.Del? then Remove(d, db, c[1..])
    else others(d, db, c)
  }

  function Eval(others: Others, d: Dataset, ops: seq<Op>): Dataset
    decreases |ops|
  {
    if ops == [] then d else Eval(others, Execute(others, d, ops[0].db, ops[0].command, ops[0].now), ops[1..])
  }

  lemma {:induction false} EvalAppend(others: Others, d: Dataset, a: seq<Op>, b: seq<Op>)
    ensures Eval(others, d, a + b) == Eval(others, Eval(others, d, a), b)
    decreases |a|
  {
    if a == [] {
      assert a + b == b;
    } else {
      assert (a + b)[1..] == a[1..] + b;
      EvalAppend(others, Execute(others, d, a[0].db, a[0].command, a[0].now), a[1..], b);
    }
  }

  lemma EvalOne(others: Others, d: Dataset, op: Op)
    ensures Eval(others, d, [op]) == Execute(others, d, op.db, op.command, op.now)
  {
    assert [op][1..] == [];
  }

  // --- a command of a client ------------------------------------------------------------------------

  /** A command of a client; `check` is the clock when the expiry is compared with it. */
  datatype Call = Call(db: int, command: Command, now: int, check: int)

  /** An expiry in the past: the key is deleted at once. */
  predicate IsPast(d: Dataset, call: Call) {
    var c := call.command;
    var k := KindOf(c);
    Touches(k) && !Refused(d, call.db, c) && Moment(k, Strtol(c[2]), call.now) <= call.check
  }

  /** What the call leaves, on a server that is neither loading nor a slave */
  function Serve(others: Others, d: Dataset, call: Call): Dataset {
    if IsPast(d, call) then Remove(d, call.db, [call.command[1]])
    else Execute(others, d, call.db, call.command, call.now)
  }

  /** What is passed on to the log for a call */
  function PassedOn(d: Dataset, call: Call): Option<Command> {
    if IsPast(d, call) then Some(["DEL", call.command[1]])
    else if Refused(d, call.db, call.command) then None
    else Some(call.command)
  }

  /** The arguments of a command that is passed on */
  predicate Accepted(c: Command) {
    var k := KindOf(c);
    HasArguments(c) && (Touches(k) ==> Integer(c[2])) && (Stores(k) ==> ValidTime(c[2]))
  }

  lemma DelIsDel(key: string)
    ensures KindOf(["DEL", key]) == Del && HasArguments(["DEL", key])
  {
    assert Lower("DEL") == "del";
  }

  /** What is passed on does what the call did, and a call that is not passed on did nothing. */
  lemma PassedOnIsServed(others: Others, d: Dataset, call: Call)
    requires HasArguments(call.command)
    ensures match PassedOn(d, call)
      case None => Serve(others, d, call) == d
      case Some(p) => Accepted(p) && Execute(others, d, call.db, p, call.now) == Serve(others, d, call)
  {
    if IsPast(d, call) {
      var key := call.command[1];
      DelIsDel(key);
      assert ["DEL", key][1..] == [key];
    }
  }

  /** A series of calls, and the operations that are passed on */
  function ServeAll(others: Others, d: Dataset, calls: seq<Call>): Dataset
    decreases |calls|
  {
    if calls == [] then d else ServeAll(others, Serve(others, d, calls[0]), calls[1..])
  }

  function AllPassedOn(others: Others, d: Dataset, calls: seq<Call>): seq<Op>
    decreases |calls|
  {
    if calls == [] then []
    else
      (match PassedOn(d, calls[0])
       case None => []
       case Some(p) => [Op(calls[0].db, p, calls[0].now)])
      + AllPassedOn(others, Serve(others, d, calls[0]), calls[1..])
  }

  /** The operations passed on lead to the dataset that the calls left. */
  lemma {:induction false} PassedOnIsEnough(others: Others, d: Dataset, calls: seq<Call>)
    requires forall i :: 0 <= i < |calls| ==> HasArguments(calls[i].command)
    ensures Eval(others, d, AllPassedOn(others, d, calls)) == ServeAll(others, d, calls)
    decreases |calls|
  {
    if calls != [] {
      var d1 := Serve(others, d, calls[0]);
      var rest := AllPassedOn(others, d1, calls[1..]);
      PassedOnIsServed(others, d, calls[0]);
      PassedOnIsEnough(others, d1, calls[1..]);
      match PassedOn(d, calls[0])
      case None =>
        assert [] + rest == rest;
      case Some(p) =>
        var op := Op(calls[0].db, p, calls[0].now);
        EvalOne(others, d, op);
        EvalAppend(others, d, [op], rest);
    }
  }

  /** A command that sets an expiry in the past deletes its key and nothing else. */
  lemma PastIsGone(others: Others, d: Dataset, call: Call)
    requires IsPast(d, call)
    ensures var d', db, key := Serve(others, d, call), call.db, call.command[1];
      && key in Keys(d, db) && d'.Keys == d.Keys && Keys(d', db) == Keys(d, db) - {key}
      && forall db' :: db' != db ==> Keys(d', db') == Keys(d, db')
  {
    var key := call.command[1];
    assert (set k | k in [key]) == {key};
  }

  /** One that sets it in the future sets it for the key that is there, and for a missing key does nothing. */
  lemma FutureIsSet(others: Others, d: Dataset, call: Call)
    requires Touches(KindOf(call.command)) && Integer(call.command[2]) && !IsPast(d, call)
    ensures var d', db, key := Serve(others, d, call), call.db, call.command[1];
      var when := Moment(KindOf(call.command), Strtol(call.command[2]), call.now);
      if key in Keys(d, db)
      then when > call.check && Keys(d', db) == Keys(d, db)[key := Item(Keys(d, db)[key].value, Some(when))]
      else d' == d
  {
  }

  lemma SetExecutes(others: Others, d: Dataset, db: int, c: Command, f: Flags, now: int)
    requires |c| >= 3 && Lower(c[0]) == "set" && FlagsOf(c) == Some(f)
    ensures Execute(others, d, db, c, now) ==
      if SetRefused(d, db, c[1], f) then d else Store(d, db, c[1], Item(Text(c[2]), SetExpiry(f, now)))
  {
    assert KindOf(c) == Set;
  }

  lemma OneFlag(option: string)
    requires Lower(option) == "nx" || Lower(option) == "xx"
    ensures ParseFlags([option], NO_FLAGS) == Some(Flags(Lower(option) == "nx", Lower(option) == "xx", None))
  {
    assert [option][1..] == [];
  }

  lemma TwoFlags(option: string, time: string)
    requires Lower(option) == "ex" || Lower(option) == "px"
    ensures ParseFlags([option, time], NO_FLAGS) == Some(Flags(false, false, Some((time, Lower(option) == "ex"))))
  {
    assert [option, time][2..] == [];
  }

  /** SET with one option, in any letter case: NX needs a missing key, XX one that is there. */
  lemma SetIf(others: Others, d: Dataset, db: int, name: string, key: string, value: string, option: string, now: int)
    requires Lower(name) == "set" && (Lower(option) == "nx" || Lower(option) == "xx")
    ensures Execute(others, d, db, [name, key, value, option], now) ==
      if (Lower(option) == "nx") == (key in Keys(d, db)) then d else Store(d, db, key, Item(Text(value), None))
  {
    var c := [name, key, value, option];
    assert c[3..] == [option];
    OneFlag(option);
    SetExecutes(others, d, db, c, Flags(Lower(option) == "nx", Lower(option) == "xx", None), now);
  }

  /** SET with a time to live: EX counts in seconds and PX in milliseconds. */
  lemma SetFor(others: Others, d: Dataset, db: int, c: Command, t: int, now: int)
    requires |c| == 5 && Lower(c[0]) == "set" && (Lower(c[3]) == "ex" || Lower(c[3]) == "px") && t == Strtol(c[4])
    ensures Execute(others, d, db, c, now) ==
      if ShowInt(t) != c[4] || t <= 0 then d
      else Store(d, db, c[1], Item(Text(c[2]), Some(Later(t, Lower(c[3]) == "ex", now))))
  {
    assert c[3..] == [c[3], c[4]];
    TwoFlags(c[3], c[4]);
    var f := Flags(false, false, Some((c[4], Lower(c[3]) == "ex")));
    SetExecutes(others, d, db, c, f, now);
    TimedFlags(d, db, c[1], f, now);
  }

  function Later(t: int, seconds: bool, now: int): int {
    if seconds then Int64(now + Int64(t * 1000)) else Int64(now + t)
  }

  lemma TimedFlags(d: Dataset, db: int, key: string, f: Flags, now: int)
    requires f.expiry.Some? && !f.nx && !f.xx
    ensures SetRefused(d, db, key, f) <==> !ValidTime(f.expiry.value.0)
    ensures SetExpiry(f, now) == Some(Later(Strtol(f.expiry.value.0), f.expiry.value.1, now))
  {
  }

  // --- the clock ------------------------------------------------------------------------------------

  /** A SET that is given a time to live */
  predicate TimedSet(c: Command) {
    && KindOf(c).Set? && FlagsOf(c).Some? && FlagsOf(c).value.expiry.Some?
    && ValidTime(FlagsOf(c).value.expiry.value.0)
  }

  /** A command relative to the clock */
  predicate Relative(c: Command) {
    var k := KindOf(c);
    k.Expire? || k.Pexpire? || k.Setex? || k.Psetex?
  }

  /** A command whose effect does not depend on when it is executed */
  predicate ClockFree(c: Command) {
    !Relative(c) && !TimedSet(c)
  }

  lemma ClockFreeExecutes(others: Others, d: Dataset, db: int, c: Command, t: int, t': int)
    requires ClockFree(c)
    ensures Execute(others, d, db, c, t) == Execute(others, d, db, c, t')
  {
  }

  predicate NoneRelative(cs: seq<Command>) {
    forall i :: 0 <= i < |cs| ==> !Relative(cs[i])
  }

  /** The same commands, with the same times for those that depend on the clock */
  ghost predicate SameTimes(a: seq<Stamped>, b: seq<Stamped>) {
    && |a| == |b|
    && forall i :: 0 <= i < |a| ==> a[i].command == b[i].command && (ClockFree(a[i].command) || a[i].now == b[i].now)
  }

  /** When the other commands are replayed makes no difference. */
  lemma {:induction false} AnyTime(others: Others, d: Dataset, db: int, a: seq<Stamped>, b: seq<Stamped>)
    requires SameTimes(a, b)
    ensures Eval(others, d, Replay(db, a)) == Eval(others, d, Replay(db, b))
    decreases |a|
  {
    if a != [] {
      var c := a[0].command;
      assert c == b[0].command;
      if IsSelect(c) {
        AnyTime(others, d, DbFor(db, c), a[1..], b[1..]);
        assert Replay(db, a) == Replay(DbFor(db, c), a[1..]) && Replay(db, b) == Replay(DbFor(db, c), b[1..]);
      } else {
        if ClockFree(c) {
          ClockFreeExecutes(others, d, db, c, a[0].now, b[0].now);
        }
        AnyTime(others, Execute(others, d, db, c, a[0].now), DbFor(db, c), a[1..], b[1..]);
        EvalFirst(others, d, db, a);
        EvalFirst(others, d, db, b);
      }
    }
  }

  lemma EvalFirst(others: Others, d: Dataset, db: int, log: seq<Stamped>)
    requires log != [] && !IsSelect(log[0].command)
    ensures Eval(others, d, Replay(db, log)) ==
            Eval(others, Execute(others, d, db, log[0].command, log[0].now),
                 Replay(DbFor(db, log[0].command), log[1..]))
  {
    var op := Op(db, log[0].command, log[0].now);
    EvalAppend(others, d, [op], Replay(DbFor(db, log[0].command), log[1..]));
    EvalOne(others, d, op);
  }

  // --- the translation --------------------------------------------------------------------------------

  lemma Kinds(c: Command)
    requires HasArguments(c)
    ensures var k := KindOf(c);
      && (IsExpire(c) <==> Touches(k) && !k.Pexpireat?) && (IsSetex(c) <==> Stores(k))
      && (FromNow(c) <==> Relative(c))
  {
  }

  /** The time in the log is the moment at which the command lets its key expire. */
  lemma MomentIsWhen(c: Command, now: int)
    requires HasArguments(c) && (IsExpire(c) || IsSetex(c))
    ensures When(c, now) == Moment(KindOf(c), Strtol(c[2]), now)
  {
  }

  lemma PexpireatIs(key: string, when: string)
    ensures KindOf(["PEXPIREAT", key, when]) == Pexpireat
  {
    LogNames();
  }

  lemma LoggedTime(when: int)
    requires 0 - LONG_MAX - 1 <= when <= LONG_MAX
    ensures Strtol(ShowInt(when)) == when && Integer(ShowInt(when))
  {
    ReadShowInt(when, "");
    assert ShowInt(when) + "" == ShowInt(when);
  }

  /** The time the command asks for, in milliseconds, if numbers had no bounds */
  function Deadline(k: Kind, t: int, now: int): int {
    match k
    case Expire => t * 1000 + now
    case Pexpire => t + now
    case Expireat => t * 1000
    case Setex => t * 1000 + now
    case Psetex => t + now
    case _ => t
  }

  lemma MomentIsDeadline(k: Kind, t: int, now: int)
    requires 0 - LONG_MAX - 1 <= t <= LONG_MAX
    ensures Moment(k, t, now) == Int64(Deadline(k, t, now))
  {
    Int64Sum(t * 1000, now);
  }

  lemma Int64Sum(x: int, y: int)
    ensures Int64(Int64(x) + y) == Int64(x + y)
  {
    var m := 0x1_0000_0000_0000_0000;
    var k := x / m;
    assert x == m * k + x % m;
    assert Int64(x) == x - m * k || Int64(x) == x - m * (k + 1);
    SameInt64(x + y, k);
    SameInt64(x + y, k + 1);
  }

  lemma SameInt64(n: int, k: int)
    ensures Int64(n - 0x1_0000_0000_0000_0000 * k) == Int64(n)
  {
  }

  /** The time that is read back is the one asked for if and only if that fits 64 bits. */
  lemma ExpiryIsExact(c: Command, now: int)
    requires HasArguments(c) && (IsExpire(c) || IsSetex(c))
    ensures var wanted := Deadline(KindOf(c), Strtol(c[2]), now);
      Strtol(ExpireAt(c, now)[2]) == wanted <==> 0 - LONG_MAX - 1 <= wanted <= LONG_MAX
  {
    MomentIsWhen(c, now);
    MomentIsDeadline(KindOf(c), Strtol(c[2]), now);
    LoggedTime(When(c, now));
  }

  /** PEXPIREAT as it is logged, at any time */
  lemma LoggedTouches(others: Others, d: Dataset, db: int, key: string, when: int, t: int)
    requires 0 - LONG_MAX - 1 <= when <= LONG_MAX
    ensures Execute(others, d, db, ["PEXPIREAT", key, ShowInt(when)], t) == Touch(d, db, key, when)
  {
    PexpireatIs(key, ShowInt(when));
    LoggedTime(when);
    PexpireatTouches(others, d, db, ["PEXPIREAT", key, ShowInt(when)], t);
  }

  lemma PexpireatTouches(others: Others, d: Dataset, db: int, c: Command, t: int)
    requires KindOf(c) == Pexpireat && Integer(c[2])
    ensures Execute(others, d, db, c, t) == Touch(d, db, c[1], Strtol(c[2]))
  {
  }

  lemma PlainSet(key: string, value: string)
    ensures KindOf(["SET", key, value]) == Set && FlagsOf(["SET", key, value]) == Some(NO_FLAGS)
  {
    LogNames();
    assert ["SET", key, value][3..] == [];
  }

  /** SET as it is logged, at any time */
  lemma LoggedStores(others: Others, d: Dataset, db: int, key: string, value: string, t: int)
    ensures Execute(others, d, db, ["SET", key, value], t) == Store(d, db, key, Item(Text(value), None))
  {
    PlainSet(key, value);
  }

  lemma TouchStored(d: Dataset, db: int, key: string, value: Value, when: int)
    ensures Touch(Store(d, db, key, Item(value, None)), db, key, when) == Store(d, db, key, Item(value, Some(when)))
  {
    var d1 := Store(d, db, key, Item(value, None));
    assert Keys(d1, db) == Keys(d, db)[key := Item(value, None)];
    assert Keys(d1, db)[key := Item(value, Some(when))] == Keys(d, db)[key := Item(value, Some(when))];
  }

  /** EXPIRE, PEXPIRE and EXPIREAT */
  lemma ExpireTranslates(others: Others, d: Dataset, db: int, c: Command, now: int, t: int)
    requires Accepted(c) && IsExpire(c)
    ensures Execute(others, d, db, ExpireAt(c, now), t) == Execute(others, d, db, c, now)
    ensures Execute(others, d, db, c, now) == Touch(d, db, c[1], When(c, now))
  {
    Kinds(c);
    MomentIsWhen(c, now);
    LoggedTouches(others, d, db, c[1], When(c, now), t);
  }

  lemma SetexStores(others: Others, d: Dataset, db: int, c: Command, now: int)
    requires Accepted(c) && IsSetex(c)
    ensures Execute(others, d, db, c, now) == Store(d, db, c[1], Item(Text(c[3]), Some(When(c, now))))
  {
    Kinds(c);
    MomentIsWhen(c, now);
  }

  /** SETEX and PSETEX */
  lemma SetexTranslates(others: Others, d: Dataset, db: int, c: Command, now: int, t: int, t': int)
    requires Accepted(c) && IsSetex(c)
    ensures Execute(others, Execute(others, d, db, ["SET", c[1], c[3]], t), db, ExpireAt(c, now), t') ==
            Execute(others, d, db, c, now)
  {
    var d1 := Store(d, db, c[1], Item(Text(c[3]), None));
    LoggedStores(others, d, db, c[1], c[3], t);
    LoggedTouches(others, d1, db, c[1], When(c, now), t');
    TouchStored(d, db, c[1], Text(c[3]), When(c, now));
    SetexStores(others, d, db, c, now);
  }

  /** Nothing that is logged is relative to the clock. */
  lemma LoggedIsAbsolute(c: Command, fed: int)
    requires HasArguments(c)
    ensures NoneRelative(Logged(c, fed))
  {
    Kinds(c);
    if IsExpire(c) || IsSetex(c) {
      PexpireatIs(c[1], ShowInt(When(c, fed)));
      if IsSetex(c) {
        PlainSet(c[1], c[3]);
      }
    }
  }

  lemma TwoOps(db: int, a: Command, b: Command, t: int, t': int)
    ensures Ops(db, StampEach([a, b], [t, t'])) == [Op(db, a, t), Op(db, b, t')]
  {
  }

  /** Two operations, one after the other */
  lemma EvalTwo(others: Others, d: Dataset, a: Op, b: Op)
    ensures Eval(others, d, [a, b]) ==
            Execute(others, Execute(others, d, a.db, a.command, a.now), b.db, b.command, b.now)
  {
    assert [a, b] == [a] + [b];
    EvalAppend(others, d, [a], [b]);
    EvalOne(others, d, a);
    EvalOne(others, Execute(others, d, a.db, a.command, a.now), b);
  }

  /**
    Replaying what is logged for a command does what the command did: at any times, except that a SET with a
    time to live must be replayed when it was executed.
  */
  lemma TranslationPreserves(others: Others, d: Dataset, db: int, c: Command, ran: int, fed: int, ts: seq<int>)
    requires Accepted(c) && |ts| == |Logged(c, fed)|
    requires (Relative(c) ==> ran == fed) && (TimedSet(c) ==> ts[0] == ran)
    ensures Eval(others, d, Ops(db, StampEach(Logged(c, fed), ts))) == Execute(others, d, db, c, ran)
  {
    var ops := Ops(db, StampEach(Logged(c, fed), ts));
    Kinds(c);
    if IsSetex(c) {
      var store := ["SET", c[1], c[3]];
      assert ts == [ts[0], ts[1]];
      TwoOps(db, store, ExpireAt(c, fed), ts[0], ts[1]);
      EvalTwo(others, d, Op(db, store, ts[0]), Op(db, ExpireAt(c, fed), ts[1]));
      SetexTranslates(others, d, db, c, fed, ts[0], ts[1]);
    } else {
      OnePreserves(others, d, db, c, ran, fed, ts[0], ops);
    }
  }

  lemma OnePreserves(others: Others, d: Dataset, db: int, c: Command, ran: int, fed: int, t: int, ops: seq<Op>)
    requires Accepted(c) && !IsSetex(c) && (Relative(c) ==> ran == fed) && (TimedSet(c) ==> t == ran)
    requires ops == Ops(db, StampEach(Logged(c, fed), [t]))
    ensures Eval(others, d, ops) == Execute(others, d, db, c, ran)
  {
    var only := if IsExpire(c) then ExpireAt(c, fed) else c;
    assert ops == [Op(db, only, t)];
    EvalOne(others, d, Op(db, only, t));
    if IsExpire(c) {
      ExpireTranslates(others, d, db, c, fed, t);
      if !Relative(c) {
        ClockFreeExecutes(others, d, db, c, ran, fed);
      }
    } else if !TimedSet(c) {
      Kinds(c);
      ClockFreeExecutes(others, d, db, c, ran, t);
    }
  }

  // --- exactly when ------------------------------------------------------------------------------------

  /** The log of c leaves what c left, in every dataset and whenever it is replayed. */
  ghost predicate Restores(others: Others, c: Command, ran: int, fed: int)
    requires HasArguments(c)
  {
    forall d: Dataset, db: int, ts: seq<int> | |ts| == |Logged(c, fed)| ::
      Eval(others, d, Ops(db, StampEach(Logged(c, fed), ts))) == Execute(others, d, db, c, ran)
  }

  lemma DifferentTimes(x: int, a: int, b: int)
    requires a != b && 0 <= a <= LONG_MAX + 1 && 0 <= b <= LONG_MAX + 1
    ensures Int64(x + a) != Int64(x + b)
  {
  }

  /** A dataset in which the key is there, with some text and no expiry */
  function With(key: string): Dataset {
    map[0 := map[key := Item(Text(""), None)]]
  }

  lemma StoredDiffers(d: Dataset, key: string, a: Item, b: Item)
    requires a != b
    ensures Store(d, 0, key, a) != Store(d, 0, key, b)
  {
    assert Keys(Store(d, 0, key, a), 0)[key] == a && Keys(Store(d, 0, key, b), 0)[key] == b;
  }

  lemma TouchedDiffers(key: string, a: int, b: int)
    requires a != b
    ensures Touch(With(key), 0, key, a) != Touch(With(key), 0, key, b)
  {
    StoredDiffers(With(key), key, Item(Text(""), Some(a)), Item(Text(""), Some(b)));
  }

  lemma {:induction false} FlagsExclude(args: seq<string>, f: Flags)
    requires !(f.nx && f.xx)
    ensures ParseFlags(args, f).Some? ==> !(ParseFlags(args, f).value.nx && ParseFlags(args, f).value.xx)
    decreases |args|
  {
    if args != [] {
      FlagsExclude(args[1..], f.(nx := true, xx := false));
      FlagsExclude(args[1..], f.(xx := true, nx := false));
      if |args| > 1 {
        FlagsExclude(args[2..], f.(expiry := Some((args[1], true))));
        FlagsExclude(args[2..], f.(expiry := Some((args[1], false))));
      }
    }
  }

  lemma SetExpiryMoves(f: Flags, ran: int)
    requires f.expiry.Some? && 0 <= ran <= LONG_MAX
    ensures SetExpiry(f, ran + 1) != SetExpiry(f, ran)
  {
    var amount := Strtol(f.expiry.value.0);
    DifferentTimes(if f.expiry.value.1 then Int64(amount * 1000) else amount, ran + 1, ran);
  }

  /** A dataset in which the flags do not stand in the way */
  lemma TimedSetStores(others: Others, c: Command, f: Flags, now: int) returns (d: Dataset)
    requires TimedSet(c) && FlagsOf(c) == Some(f)
    ensures d == if f.xx then With(c[1]) else NEW
    ensures Execute(others, d, 0, c, now) == Store(d, 0, c[1], Item(Text(c[2]), SetExpiry(f, now)))
  {
    d := if f.xx then With(c[1]) else NEW;
    FlagsExclude(c[3..], NO_FLAGS);
    assert c[1] in Keys(d, 0) <==> f.xx;
  }

  /** The log of a single command, replayed at time t, leaves something else. */
  lemma OneMoves(others: Others, c: Command, d: Dataset, only: Command, ran: int, fed: int, t: int)
    requires HasArguments(c) && Logged(c, fed) == [only]
    requires Execute(others, d, 0, only, t) != Execute(others, d, 0, c, ran)
    ensures !Restores(others, c, ran, fed)
  {
    var ops := Ops(0, StampEach(Logged(c, fed), [t]));
    assert ops == [Op(0, only, t)];
    EvalOne(others, d, Op(0, only, t));
  }

  lemma TwoMove(others: Others, c: Command, d: Dataset, first: Command, second: Command, ran: int, fed: int)
    requires HasArguments(c) && Logged(c, fed) == [first, second]
    requires Execute(others, Execute(others, d, 0, first, 0), 0, second, 0) != Execute(others, d, 0, c, ran)
    ensures !Restores(others, c, ran, fed)
  {
    var a, b := Op(0, first, 0), Op(0, second, 0);
    TwoOps(0, first, second, 0, 0);
    assert Eval(others, d, Ops(0, StampEach(Logged(c, fed), [0, 0]))) != Execute(others, d, 0, c, ran) by {
      EvalTwo(others, d, a, b);
    }
  }

  /** A SET with a time to live counts it again from the moment the log is loaded. */
  lemma TimedSetMoves(others: Others, c: Command, ran: int, fed: int)
    requires HasArguments(c) && TimedSet(c) && 0 <= ran <= LONG_MAX
    ensures !Restores(others, c, ran, fed)
  {
    var f := FlagsOf(c).value;
    var d := TimedSetStores(others, c, f, ran);
    var _ := TimedSetStores(others, c, f, ran + 1);
    SetExpiryMoves(f, ran);
    StoredDiffers(d, c[1], Item(Text(c[2]), SetExpiry(f, ran + 1)), Item(Text(c[2]), SetExpiry(f, ran)));
    Kinds(c);
    OneMoves(others, c, d, c, ran, fed, ran + 1);
  }

  lemma DifferentDeadlines(c: Command, ran: int, fed: int)
    requires |c| >= 3 && FromNow(c) && ran != fed && 0 <= ran <= LONG_MAX && 0 <= fed <= LONG_MAX
    ensures When(c, ran) != When(c, fed)
  {
    var t := Strtol(c[2]);
    DifferentTimes(if InSeconds(c) then Int64(t * 1000) else t, ran, fed);
  }

  /** A command relative to the clock that is logged at another moment is off by the difference. */
  lemma LateFeedMoves(others: Others, c: Command, ran: int, fed: int)
    requires Accepted(c) && FromNow(c) && ran != fed && 0 <= ran <= LONG_MAX && 0 <= fed <= LONG_MAX
    ensures !Restores(others, c, ran, fed)
  {
    DifferentDeadlines(c, ran, fed);
    if IsSetex(c) {
      LateSetex(others, c, ran, fed);
    } else {
      LateExpire(others, c, ran, fed);
    }
  }

  lemma LateExpire(others: Others, c: Command, ran: int, fed: int)
    requires Accepted(c) && IsExpire(c) && When(c, ran) != When(c, fed)
    ensures !Restores(others, c, ran, fed)
  {
    var d := With(c[1]);
    ExpireTranslates(others, d, 0, c, ran, 0);
    ExpireTranslates(others, d, 0, c, fed, 0);
    TouchedDiffers(c[1], When(c, ran), When(c, fed));
    OneMoves(others, c, d, ExpireAt(c, fed), ran, fed, 0);
  }

  lemma LateSetex(others: Others, c: Command, ran: int, fed: int)
    requires Accepted(c) && IsSetex(c) && When(c, ran) != When(c, fed)
    ensures !Restores(others, c, ran, fed)
  {
    SetexTranslates(others, NEW, 0, c, fed, 0, 0);
    SetexStores(others, NEW, 0, c, ran);
    SetexStores(others, NEW, 0, c, fed);
    StoredDiffers(NEW, c[1], Item(Text(c[3]), Some(When(c, ran))), Item(Text(c[3]), Some(When(c, fed))));
    Kinds(c);
    TwoMove(others, c, NEW, ["SET", c[1], c[3]], ExpireAt(c, fed), ran, fed);
  }

  /**
    The log of a command restores what the command left if and only if it is not a SET with a time to live
    and, for a command relative to the clock, the clock has not moved between executing and logging it.
  */
  lemma RestoresIff(others: Others, c: Command, ran: int, fed: int)
    requires Accepted(c) && 0 <= ran <= LONG_MAX && 0 <= fed <= LONG_MAX
    ensures Restores(others, c, ran, fed) <==> !TimedSet(c) && (FromNow(c) ==> ran == fed)
  {
    Kinds(c);
    if TimedSet(c) {
      TimedSetMoves(others, c, ran, fed);
    } else if FromNow(c) && ran != fed {
      LateFeedMoves(others, c, ran, fed);
    } else {
      forall d: Dataset, db: int, ts: seq<int> | |ts| == |Logged(c, fed)|
        ensures Eval(others, d, Ops(db, StampEach(Logged(c, fed), ts))) == Execute(others, d, db, c, ran)
      {
        TranslationPreserves(others, d, db, c, ran, fed, ts);
      }
    }
  }

  /** SET k v EX 10 at 1000 expires at 11000; its log, loaded at 2000, makes that 12000. */
  lemma SetWithExpiryMoves(others: Others, key: string, value: string)
    ensures var c := ["SET", key, value, "EX", "10"];
      && Execute(others, NEW, 0, c, 1000) == Store(NEW, 0, key, Item(Text(value), Some(11000)))
      && Logged(c, 1000) == [c]
      && Execute(others, NEW, 0, c, 2000) == Store(NEW, 0, key, Item(Text(value), Some(12000)))
  {
    var c := ["SET", key, value, "EX", "10"];
    SetTenFlags(key, value, c);
    SetTen(others, key, value, c, 1000);
    SetTen(others, key, value, c, 2000);
  }

  lemma SetTenFlags(key: string, value: string, c: Command)
    requires c == ["SET", key, value, "EX", "10"]
    ensures KindOf(c) == Set && FlagsOf(c) == Some(Flags(false, false, Some(("10", true))))
  {
    LogNames();
    assert Lower("EX") == "ex";
    assert c[3..] == ["EX", "10"] && ["EX", "10"][2..] == [];
  }

  lemma SetTen(others: Others, key: string, value: string, c: Command, now: int)
    requires c == ["SET", key, value, "EX", "10"] && 0 <= now <= 2000
    requires KindOf(c) == Set && FlagsOf(c) == Some(Flags(false, false, Some(("10", true))))
    ensures Execute(others, NEW, 0, c, now) == Store(NEW, 0, key, Item(Text(value), Some(now + 10000)))
  {
    TenIsTen();
  }

  lemma TenIsTen()
    ensures Strtol("10") == 10 && Integer("10")
  {
    assert Show(10) == "10";
    ReadShow(10, "");
    assert Show(10) + "" == Show(10);
  }
}
