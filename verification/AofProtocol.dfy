/**
  The log across rewrites, as text and as commands
  (project/network/redis/redis-3.2/src/aof.c): what is fed, what a rewrite starts from and
  what the file holds after it has been replaced.  How the bytes get there is the
  business of module AofServer.
*/
module AofProtocol {
  import opened CInt
  import opened AofFormat
  import opened AofReplay
  import opened AofDataset

  datatype AofState = Off | On | WaitRewrite

  /** A command is executed at `ran` and fed to the log at `fed`. */
  datatype Event =
    | Executed(db: nat, command: Command, ran: int, fed: int)
    | Forked(text: string, commands: seq<Command>)
    | Switched
    | Ended
    | Stopped
    | Started

  /** All commands executed, those executed at the fork, and the commands of the three logs. */
  datatype Meaning = Meaning(
    live: seq<Op>,
    atFork: seq<Op>,
    log: seq<Stamped>,
    snapshot: seq<Stamped>,
    since: seq<Stamped>)

  /** The text of the log, the text a rewrite starts with and the text fed since the fork. */
  datatype Texts = Texts(
    state: AofState,
    rewriting: bool,
    selected: int,
    logged: string,
    snap: string,
    fed: string,
    m: Meaning)

  const NOTHING: Texts := Texts(On, false, -1, "", "", "", Meaning([], [], [], [], []))

  function Step(t: Texts, e: Event): Texts {
    match e
    case Executed(db, c, ran, fed) =>
      if t.state.Off? || !HasArguments(c) then t.(m := t.m.(live := t.m.live + [Op(db, c, ran)]))
      else
        var entry := Entry(t.selected, db, Logged(c, fed));
        var text, more := EncodeAll(entry), Stamp(entry, ran);
        Texts(t.state, t.rewriting, db, t.logged + text, t.snap, t.fed + text,
              Meaning(t.m.live + [Op(db, c, ran)], t.m.atFork, t.m.log + more, t.m.snapshot, t.m.since + more))
    case Forked(text, commands) =>
      Texts(t.state, true, -1, t.logged, text, "", Meaning(t.m.live, t.m.live, t.m.log, Stamp(commands, 0), []))
    case Switched =>
      if t.state.Off? then t.(rewriting := false)
      else Texts(On, false, -1, t.snap + t.fed, t.snap, t.fed, t.m.(log := t.m.snapshot + t.m.since))
    case Ended => t.(rewriting := false)
    case Stopped => t.(state := Off, rewriting := false, selected := -1)
    case Started => t.(state := WaitRewrite)
  }

  function Steps(t: Texts, events: seq<Event>): Texts
    decreases |events|
  {
    if events == [] then t else Steps(Step(t, events[0]), events[1..])
  }

  /** May this happen now? */
  predicate Enabled(t: Texts, e: Event) {
    match e
    case Executed(db, c, _, _) => db <= INT_MAX && Writable(c) && !IsSelect(c) && Accepted(c)
    case Forked(_, _) => !t.rewriting
    case Switched => t.rewriting
    case Started => t.state.Off? && (t.rewriting ==> t.m.atFork == t.m.live)
    case _ => true
  }

  ghost predicate AllEnabled(t: Texts, events: seq<Event>)
    decreases |events|
  {
    events == [] || (Enabled(t, events[0]) && AllEnabled(Step(t, events[0]), events[1..]))
  }

  lemma ShortSteps(t: Texts, events: seq<Event>)
    ensures events == [] ==> Steps(t, events) == t && AllEnabled(t, events)
    ensures |events| == 1 ==>
      Steps(t, events) == Step(t, events[0]) && AllEnabled(t, events) == Enabled(t, events[0])
    ensures |events| == 2 ==> var t1 := Step(t, events[0]);
      && Steps(t, events) == Step(t1, events[1])
      && AllEnabled(t, events) == (Enabled(t, events[0]) && Enabled(t1, events[1]))
  {
    if |events| == 2 {
      var t1 := Step(t, events[0]);
      assert events[1..] == [events[1]] && [events[1]][1..] == [];
      assert Steps(t1, [events[1]]) == Steps(Step(t1, events[1]), []);
      assert AllEnabled(t1, [events[1]]) == Enabled(t1, events[1]) by {
        assert AllEnabled(Step(t1, events[1]), []);
      }
    }
  }

  lemma {:induction false} MoreSteps(t: Texts, a: seq<Event>, b: seq<Event>)
    ensures Steps(t, a + b) == Steps(Steps(t, a), b)
    ensures AllEnabled(t, a + b) == (AllEnabled(t, a) && AllEnabled(Steps(t, a), b))
    decreases |a|
  {
    if a == [] {
      assert a + b == b;
    } else {
      assert (a + b)[1..] == a[1..] + b;
      MoreSteps(Step(t, a[0]), a[1..], b);
    }
  }

  // --- what the texts mean ---------------------------------------------------------------------

  /** A text of commands, none of them relative to the clock */
  ghost predicate Spells(text: string, cs: seq<Command>) {
    text == EncodeAll(cs) && AllWritable(cs) && NoneRelative(cs)
  }

  ghost predicate TextOk(text: string, log: seq<Stamped>) {
    Spells(text, Plain(log))
  }

  /** A log whose replay gives the dataset and ends in the selected database, unless none is. */
  ghost predicate LogOk(text: string, log: seq<Stamped>, selected: int, live: seq<Op>, others: Others) {
    && TextOk(text, log) && (selected == -1 || selected == DbAfter(0, log))
    && Eval(others, NEW, Replay(0, log)) == Eval(others, NEW, live)
  }

  /**
    What was fed since the fork: it begins with a SELECT, ends in the selected database and leads from the
    dataset at the fork to the present one.
  */
  ghost predicate FedOk(text: string, log: seq<Stamped>, selected: int, atFork: seq<Op>, live: seq<Op>,
                        others: Others)
  {
    && TextOk(text, log) && Anchored(log) && selected == DbAfter(-1, log)
    && Eval(others, Eval(others, NEW, atFork), Replay(-1, log)) == Eval(others, NEW, live)
  }

  /** Commands that do to the dataset d what c does at `ran` */
  ghost predicate Translates(others: Others, d: Dataset, db: nat, cs: seq<Command>, c: Command, ran: int) {
    && AllWritable(cs) && NoSelects(cs) && NoneRelative(cs)
    && Eval(others, d, Ops(db, Stamp(cs, ran))) == Execute(others, d, db, c, ran)
  }

  /** What is logged for a command does so, if the clock has not moved in between. */
  lemma LoggedTranslates(others: Others, d: Dataset, db: nat, c: Command, ran: int, fed: int)
    requires Accepted(c) && Writable(c) && !IsSelect(c) && (Relative(c) ==> ran == fed)
    ensures Translates(others, d, db, Logged(c, fed), c, ran)
  {
    var cs := Logged(c, fed);
    var ts := seq(|cs|, i => ran);
    LoggedIsWritable(c, fed);
    LoggedIsAbsolute(c, fed);
    TranslationPreserves(others, d, db, c, ran, fed, ts);
    assert Stamp(cs, ran) == StampEach(cs, ts);
  }

  lemma TextJoins(a: string, b: string, log: seq<Stamped>, more: seq<Stamped>)
    requires TextOk(a, log) && TextOk(b, more)
    ensures TextOk(a + b, log + more)
  {
    PlainJoins(log, more);
    SpellsBoth(a, b, Plain(log), Plain(more));
  }

  lemma PlainJoins(log: seq<Stamped>, more: seq<Stamped>)
    ensures Plain(log + more) == Plain(log) + Plain(more)
  {
  }

  lemma SpellsBoth(a: string, b: string, x: seq<Command>, y: seq<Command>)
    requires Spells(a, x) && Spells(b, y)
    ensures Spells(a + b, x + y)
  {
    EncodeAppend(x, y);
    AllJoin(x, y);
  }

  lemma AllJoin(x: seq<Command>, y: seq<Command>)
    requires AllWritable(x) && NoneRelative(x) && AllWritable(y) && NoneRelative(y)
    ensures AllWritable(x + y) && NoneRelative(x + y)
  {
    forall i | 0 <= i < |x + y|
      ensures Writable((x + y)[i]) && !Relative((x + y)[i])
    {
      if i < |x| {
        assert (x + y)[i] == x[i];
      } else {
        assert (x + y)[i] == y[i - |x|];
      }
    }
  }

  lemma TextGrows(text: string, log: seq<Stamped>, selected: int, db: nat, cs: seq<Command>, ran: int)
    requires TextOk(text, log) && AllWritable(cs) && NoneRelative(cs) && db <= INT_MAX
    ensures TextOk(text + EncodeAll(Entry(selected, db, cs)), log + Stamp(Entry(selected, db, cs), ran))
  {
    var e := Entry(selected, db, cs);
    SelectIsSelect(db);
    SelectIsAbsolute(db);
    assert Plain(Stamp(e, ran)) == e;
    TextJoins(text, EncodeAll(e), log, Stamp(e, ran));
  }

  lemma SelectIsAbsolute(db: nat)
    ensures !Relative(Select(db))
  {
    assert Lower("SELECT") == "select";
  }

  /** Operations that lead from a dataset to live, followed by what translates c */
  lemma EvalGrows(others: Others, d: Dataset, ops: seq<Op>, live: seq<Op>, db: nat, cs: seq<Command>, c: Command,
                  ran: int)
    requires Eval(others, d, ops) == Eval(others, NEW, live)
    requires Translates(others, Eval(others, NEW, live), db, cs, c, ran)
    ensures Eval(others, d, ops + Ops(db, Stamp(cs, ran))) == Eval(others, NEW, live + [Op(db, c, ran)])
  {
    EvalAppend(others, d, ops, Ops(db, Stamp(cs, ran)));
    EvalAppend(others, NEW, live, [Op(db, c, ran)]);
    EvalOne(others, Eval(others, NEW, live), Op(db, c, ran));
  }

  lemma LogGrows(text: string, log: seq<Stamped>, selected: int, live: seq<Op>, others: Others,
                 db: nat, cs: seq<Command>, c: Command, ran: int)
    requires LogOk(text, log, selected, live, others)
    requires db <= INT_MAX && Translates(others, Eval(others, NEW, live), db, cs, c, ran)
    ensures LogOk(text + EncodeAll(Entry(selected, db, cs)), log + Stamp(Entry(selected, db, cs), ran), db,
                  live + [Op(db, c, ran)], others)
  {
    TextGrows(text, log, selected, db, cs, ran);
    ReplayAppend(0, log, Stamp(Entry(selected, db, cs), ran));
    ReplayEntry(selected, DbAfter(0, log), db, cs, ran);
    EvalGrows(others, NEW, Replay(0, log), live, db, cs, c, ran);
  }

  lemma FedGrows(text: string, log: seq<Stamped>, selected: int, atFork: seq<Op>, live: seq<Op>, others: Others,
                 db: nat, cs: seq<Command>, c: Command, ran: int)
    requires FedOk(text, log, selected, atFork, live, others)
    requires db <= INT_MAX && Translates(others, Eval(others, NEW, live), db, cs, c, ran)
    ensures FedOk(text + EncodeAll(Entry(selected, db, cs)), log + Stamp(Entry(selected, db, cs), ran), db, atFork,
                  live + [Op(db, c, ran)], others)
  {
    TextGrows(text, log, selected, db, cs, ran);
    ReplayAppend(-1, log, Stamp(Entry(selected, db, cs), ran));
    ReplayEntry(selected, DbAfter(-1, log), db, cs, ran);
    SelectIsSelect(db);
    EvalGrows(others, Eval(others, NEW, atFork), Replay(-1, log), live, db, cs, c, ran);
  }

  /** A snapshot followed by what was fed since is a log of the dataset. */
  lemma LogSwitched(snap: string, snapshot: seq<Stamped>, atFork: seq<Op>, others: Others,
                    fed: string, since: seq<Stamped>, selected: int, live: seq<Op>)
    requires LogOk(snap, snapshot, -1, atFork, others) && FedOk(fed, since, selected, atFork, live, others)
    ensures LogOk(snap + fed, snapshot + since, -1, live, others)
  {
    TextJoins(snap, fed, snapshot, since);
    ReplayAppend(0, snapshot, since);
    AnchoredAnywhere(DbAfter(0, snapshot), -1, since);
    EvalAppend(others, NEW, Replay(0, snapshot), Replay(-1, since));
  }

  /**
    Loading a log of the dataset rebuilds the dataset, whenever it is loaded; only a SET with a time to live
    must be replayed at the time at which it was executed.
  */
  lemma LogRestores(text: string, log: seq<Stamped>, selected: int, live: seq<Op>, others: Others,
                    known: string -> bool, loadTruncated: bool, ts: seq<int>)
    requires LogOk(text, log, selected, live, others) && log != [] && Loadable(Plain(log), known)
    requires |ts| == |log| && TimesKept(log, ts)
    ensures var l := LoadFile(text, known, loadTruncated);
      && l.outcome == Loaded && |l.executed| == |ts|
      && Eval(others, NEW, Replay(0, StampEach(l.executed, ts))) == Eval(others, NEW, live)
  {
    LoadEncoded(Plain(log), known, loadTruncated);
    var again := StampEach(Plain(log), ts);
    forall i | 0 <= i < |log|
      ensures log[i].command == again[i].command && (ClockFree(log[i].command) || log[i].now == again[i].now)
    {
      assert log[i].command == Plain(log)[i];
    }
    AnyTime(others, NEW, 0, log, again);
  }

  ghost predicate TimesKept(log: seq<Stamped>, ts: seq<int>)
    requires |ts| == |log|
  {
    forall i :: 0 <= i < |log| && TimedSet(log[i].command) ==> ts[i] == log[i].now
  }

  /** The texts mean what they should. */
  ghost predicate Faithful(t: Texts, others: Others) {
    && (t.state.On? ==> LogOk(t.logged, t.m.log, t.selected, t.m.live, others))
    && (t.rewriting ==> LogOk(t.snap, t.m.snapshot, -1, t.m.atFork, others))
    && (t.rewriting ==> FedOk(t.fed, t.m.since, t.selected, t.m.atFork,
                              if t.state.Off? then t.m.atFork else t.m.live, others))
  }

  /**
    A child starts from a text that rebuilds the dataset at that moment, and the clock does not move between
    the execution of a command that is relative to it and its logging.
  */
  ghost predicate Truthful(t: Texts, e: Event, others: Others) {
    && (e.Forked? ==> LogOk(e.text, Stamp(e.commands, 0), -1, t.m.live, others))
    && (e.Executed? && Relative(e.command) ==> e.ran == e.fed)
  }

  lemma ExecutedFaithful(t: Texts, e: Event, others: Others)
    requires Faithful(t, others) && e.Executed? && Enabled(t, e) && !t.state.Off? && Truthful(t, e, others)
    ensures Faithful(Step(t, e), others)
  {
    var c := e.command;
    var cs := Logged(c, e.fed);
    LoggedTranslates(others, Eval(others, NEW, t.m.live), e.db, c, e.ran, e.fed);
    if t.state.On? {
      LogGrows(t.logged, t.m.log, t.selected, t.m.live, others, e.db, cs, c, e.ran);
    }
    if t.rewriting {
      FedGrows(t.fed, t.m.since, t.selected, t.m.atFork, t.m.live, others, e.db, cs, c, e.ran);
    }
  }

  lemma StepFaithful(t: Texts, e: Event, others: Others)
    requires Faithful(t, others) && Enabled(t, e) && Truthful(t, e, others)
    ensures Faithful(Step(t, e), others)
  {
    match e
    case Executed(_, _, _, _) =>
      if !t.state.Off? {
        ExecutedFaithful(t, e, others);
      }
    case Forked(_, _) =>
    case Switched =>
      if !t.state.Off? {
        LogSwitched(t.snap, t.m.snapshot, t.m.atFork, others, t.fed, t.m.since, t.selected, t.m.live);
      }
    case _ =>
  }

  ghost predicate AllTruthful(t: Texts, events: seq<Event>, others: Others)
    decreases |events|
  {
    events == [] || (Truthful(t, events[0], others) && AllTruthful(Step(t, events[0]), events[1..], others))
  }

  /** Whatever happens, the texts go on to mean what they should. */
  lemma {:induction false} StaysFaithful(t: Texts, events: seq<Event>, others: Others)
    requires Faithful(t, others) && AllEnabled(t, events) && AllTruthful(t, events, others)
    ensures Faithful(Steps(t, events), others)
    decreases |events|
  {
    if events != [] {
      StepFaithful(t, events[0], others);
      StaysFaithful(Step(t, events[0]), events[1..], others);
    }
  }
}
