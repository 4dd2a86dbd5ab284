/**
  The slots of a node as clusterGenNodeDescription prints them, and the loop of
  clusterLoadConfig that binds them again
  (project/network/redis/redis-3.2/src/cluster.c).  Fields are taken one by one: how a
  line is split at blanks is not modelled.  A field that tells of a migrating or importing
  slot binds nothing; the tables it goes to are not modelled.
*/
module SlotRanges {
  import opened CInt
  import opened Options
  import opened ClusterNode
  import opened Decimal
  import opened SlotTable

  datatype Range = Range(start: int, stop: int)

  // No slot when the range is reversed
  predicate Within(r: Range, j: nat) {
    r.start <= j <= r.stop
  }

  predicate Ascending(r: Range) {
    0 <= r.start <= r.stop
  }

  predicate AllAscending(rs: seq<Range>) {
    forall i :: 0 <= i < |rs| ==> Ascending(rs[i])
  }

  ghost predicate Covered(rs: seq<Range>, j: nat) {
    exists i :: 0 <= i < |rs| && Within(rs[i], j)
  }

  /**
    Ranges in ascending order, with a gap between any two, that cover exactly the set bits below
    `upto`.  The gaps make them disjoint and each as long as it can be.
  */
  ghost predicate Describes(rs: seq<Range>, bits: seq<bool>, upto: nat) {
    && upto <= |bits|
    && (forall i :: 0 <= i < |rs| ==> Ascending(rs[i]) && rs[i].stop < upto)
    && (forall i, k :: 0 <= i < k < |rs| ==> rs[i].stop + 1 < rs[k].start)
    && (forall j :: 0 <= j < upto ==> (bits[j] <==> Covered(rs, j)))
  }

  // --- text --------------------------------------------------------------------------

  function Token(r: Range): (s: string)
    requires Ascending(r)
    ensures |s| > 0 && IsDigit(s[0])
  {
    if r.start == r.stop then Show(r.start) else Show(r.start) + "-" + Show(r.stop)
  }

  function Tokens(rs: seq<Range>): seq<string>
    requires AllAscending(rs)
  {
    seq(|rs|, i requires 0 <= i < |rs| => Token(rs[i]))
  }

  // strchr(s, '-'), as an index; |s| when there is none
  function Dash(s: string): (k: nat)
    ensures k <= |s|
  {
    if s == [] || s[0] == '-' then 0 else 1 + Dash(s[1..])
  }

  /** What a field says; for a slot in migration, nothing that is bound here. */
  function Parse(s: string): Range {
    var k := Dash(s);
    if s != [] && s[0] == '[' then Range(0, -1)
    else if k < |s| then Range(Atoi(s[..k]), Atoi(s[k + 1..]))
    else Range(Atoi(s), Atoi(s))
  }

  function ParseAll(tokens: seq<string>): seq<Range> {
    seq(|tokens|, i requires 0 <= i < |tokens| => Parse(tokens[i]))
  }

  lemma ParseToken(r: Range)
    requires Ascending(r) && r.stop <= INT_MAX
    ensures Parse(Token(r)) == r
  {
    var a, b := Show(r.start), Show(r.stop);
    assert '-' !in a;
    ReadShow(r.start, []);
    ReadShow(r.stop, []);
    assert a + [] == a && b + [] == b;
    if r.start == r.stop {
      DashAfter(a, []);
    } else {
      var s := Token(r);
      assert s == a + ("-" + b);
      DashAfter(a, "-" + b);
      assert s[..|a|] == a && s[|a| + 1..] == b;
    }
  }

  /** A field that tells of a slot in migration holds no slot to bind. */
  lemma MigrationBindsNothing(s: string, j: nat)
    requires s != [] && s[0] == '['
    ensures !Within(Parse(s), j)
  {
  }

  /** Any other field is one number, or two with a dash between them, which need not be in order. */
  lemma FieldHolds(a: string, b: string, j: nat)
    requires a != [] && a[0] != '[' && '-' !in a && '-' !in b
    ensures Within(Parse(a), j) <==> j == Atoi(a)
    ensures Within(Parse(a + "-" + b), j) <==> Atoi(a) <= j <= Atoi(b)
  {
    DashAfter(a, []);
    DashAfter(a, "-" + b);
    assert a + [] == a && a + "-" + b == a + ("-" + b);
    var s := a + ("-" + b);
    assert s[..|a|] == a && s[|a| + 1..] == b && s[0] == a[0];
  }

  lemma {:induction false} DashAfter(s: string, rest: string)
    requires '-' !in s && (rest != [] ==> rest[0] == '-')
    ensures Dash(s + rest) == |s|
  {
    if s == [] {
      assert s + rest == rest;
    } else {
      assert (s + rest)[1..] == s[1..] + rest && s[0] in s;
      DashAfter(s[1..], rest);
    }
  }

  lemma ParseTokens(rs: seq<Range>)
    requires AllAscending(rs) && forall i :: 0 <= i < |rs| ==> rs[i].stop <= INT_MAX
    ensures ParseAll(Tokens(rs)) == rs
  {
    forall i | 0 <= i < |rs|
      ensures Parse(Token(rs[i])) == rs[i]
    {
      ParseToken(rs[i]);
    }
  }

  // --- printing ------------------------------------------------------------------------

  lemma ClearBit(rs: seq<Range>, bits: seq<bool>, j: nat)
    requires Describes(rs, bits, j) && j < |bits| && !bits[j]
    ensures Describes(rs, bits, j + 1)
  {
    assert !Covered(rs, j);
  }

  lemma AddRun(rs: seq<Range>, bits: seq<bool>, start: nat, end: nat)
    requires start < end <= |bits| && Describes(rs, bits, start) && (start > 0 ==> !bits[start - 1])
    requires forall j :: start <= j < end ==> bits[j]
    ensures Describes(rs + [Range(start, end - 1)], bits, end)
  {
    var rs' := rs + [Range(start, end - 1)];
    forall i | 0 <= i < |rs|
      ensures rs[i].stop + 1 < start
    {
      assert Within(rs[i], rs[i].stop);
    }
    forall j | 0 <= j < end
      ensures bits[j] <==> Covered(rs', j)
    {
      if j >= start {
        assert Within(rs'[|rs|], j);
      } else if Covered(rs, j) {
        var i :| 0 <= i < |rs| && Within(rs[i], j);
        assert Within(rs'[i], j);
      }
    }
  }

  /** A run ends before `end`, because the bits do or because bit `end` is clear. */
  lemma EndRun(rs: seq<Range>, bits: seq<bool>, start: nat, end: nat)
    requires InRun(rs, bits, start, end) && start < end && (end < |bits| ==> !bits[end])
    ensures Describes(rs + [Range(start, end - 1)], bits, Capped(end + 1, bits))
  {
    AddRun(rs, bits, start, end);
    if end < |bits| {
      ClearBit(rs + [Range(start, end - 1)], bits, end);
    }
  }

  function Capped(j: nat, bits: seq<bool>): nat {
    if j <= |bits| then j else |bits|
  }

  /** All runs before `start` have been printed, and one is open from there to j. */
  ghost predicate InRun(rs: seq<Range>, bits: seq<bool>, start: nat, j: nat) {
    && start <= j <= |bits| && Describes(rs, bits, start) && (start > 0 ==> !bits[start - 1])
    && forall i :: start <= i < j ==> bits[i]
  }

  ghost predicate Between(rs: seq<Range>, bits: seq<bool>, j: nat) {
    Describes(rs, bits, Capped(j, bits)) && (0 < j < |bits| ==> !bits[j - 1])
  }

  lemma Open(rs: seq<Range>, bits: seq<bool>, j: nat)
    requires Between(rs, bits, j) && j < |bits|
    ensures bits[j] ==> InRun(rs, bits, j, j + 1)
    ensures !bits[j] ==> Between(rs, bits, j + 1)
  {
    if !bits[j] {
      ClearBit(rs, bits, j);
    }
  }

  lemma TokensMore(rs: seq<Range>, more: seq<Range>)
    requires AllAscending(rs) && AllAscending(more)
    ensures AllAscending(rs + more) && Tokens(rs + more) == Tokens(rs) + Tokens(more)
  {
  }

  // Lines 3797-3801
  method PrintRange(start: nat, last: nat) returns (tokens: seq<string>)
    requires start <= last
    ensures tokens == Tokens([Range(start, last)])
  {
    if start == last {
      tokens := [Show(start)];
    } else {
      tokens := [Show(start) + "-" + Show(last)];
    }
  }

  /** What is printed before slot j, with a run open from `start` unless that is -1 */
  ghost predicate Printed(rs: seq<Range>, bits: seq<bool>, start: int, j: nat) {
    if start == -1 then j <= |bits| + 1 && Between(rs, bits, j)
    else 0 <= start < j < |bits| && InRun(rs, bits, start, j)
  }

  // Lines 3792-3795: a run is open, or opens, at slot j, and ends there
  predicate Closes(bits: seq<bool>, start: int, j: nat)
    requires j < |bits|
  {
    start != -1 && (!bits[j] || j == |bits| - 1)
  }

  /** What a turn of the loop leaves: nothing is printed, or the run that ends. */
  ghost predicate Turned(bits: seq<bool>, start: int, j: nat, start': int, last: nat, printed: seq<Range>)
    requires j < |bits|
  {
    var open := if bits[j] && start == -1 then j else start;
    if Closes(bits, open, j) then
      && start' == -1 && last == (if bits[j] then j + 1 else j) && 0 <= open < last
      && printed == [Range(open, last - 1)]
    else start' == open && last == j && printed == []
  }

  lemma TurnPrints(rs: seq<Range>, bits: seq<bool>, start: int, j: nat, start': int, last: nat, printed: seq<Range>)
    requires Printed(rs, bits, start, j) && j < |bits| && Turned(bits, start, j, start', last, printed)
    ensures Printed(rs + printed, bits, start', last + 1)
  {
    var open := if bits[j] && start == -1 then j else start;
    if start == -1 {
      Open(rs, bits, j);
    }
    if Closes(bits, open, j) {
      EndRun(rs, bits, open, last);
    } else {
      assert rs + printed == rs;
    }
  }

  // Lines 3790-3804; `last` is j as the loop's own step finds it
  method PrintTurn(bits: seq<bool>, start0: int, j: nat)
    returns (start: int, last: nat, tokens: seq<string>, ranges: seq<Range>)
    requires j < |bits| && -1 <= start0 < j
    ensures Turned(bits, start0, j, start, last, ranges)
    ensures AllAscending(ranges) && tokens == Tokens(ranges)
  {
    start, last, tokens, ranges := start0, j, [], [];
    if bits[j] && start == -1 {
      start := j;
    }
    if start != -1 && (!bits[j] || j == |bits| - 1) {
      if bits[j] && j == |bits| - 1 {
        last := j + 1;
      }
      tokens := PrintRange(start, last - 1);
      ranges, start := [Range(start, last - 1)], -1;
    }
  }

  /** The loop at line 3789, which steps past the end when the last slot closes a run; also the ranges as numbers */
  method PrintSlots(bits: seq<bool>) returns (tokens: seq<string>, ranges: seq<Range>)
    ensures Describes(ranges, bits, |bits|) && tokens == Tokens(ranges)
  {
    tokens, ranges := [], [];
    var start: int := -1;
    var j := 0;
    while j < |bits|
      invariant AllAscending(ranges) && tokens == Tokens(ranges)
      invariant Printed(ranges, bits, start, j)
    {
      var next, last, texts, more := PrintTurn(bits, start, j);
      TurnPrints(ranges, bits, start, j, next, last, more);
      TokensMore(ranges, more);
      tokens, ranges, start := tokens + texts, ranges + more, next;
      j := last + 1;
    }
  }

  // --- loading ---------------------------------------------------------------------------

  /** The table after slots have been added for n: those that were bound already stay as they are. */
  ghost predicate Added(was: seq<Option<Id>>, now: seq<Option<Id>>, n: Id, rs: seq<Range>) {
    && |now| == |was|
    && forall j :: 0 <= j < |was| ==> now[j] == if was[j].None? && Covered(rs, j) then Some(n) else was[j]
  }

  lemma CoveredMore(rs: seq<Range>, r: Range, j: nat)
    ensures Covered(rs + [r], j) <==> Covered(rs, j) || Within(r, j)
  {
    if Covered(rs, j) {
      var i :| 0 <= i < |rs| && Within(rs[i], j);
      assert Within((rs + [r])[i], j);
    }
    if Within(r, j) {
      assert Within((rs + [r])[|rs|], j);
    }
  }

  lemma AddMore(a: seq<Option<Id>>, b: seq<Option<Id>>, c: seq<Option<Id>>, n: Id, rs: seq<Range>, r: Range)
    requires Added(a, b, n, rs) && Added(b, c, n, [r])
    ensures Added(a, c, n, rs + [r])
  {
    forall j | 0 <= j < |a|
      ensures c[j] == if a[j].None? && Covered(rs + [r], j) then Some(n) else a[j]
    {
      CoveredMore(rs, r, j);
      CoveredMore([], r, j);
      assert [] + [r] == [r];
    }
  }

  /** The slots from `start` up to `end` added for n, where they were free. */
  ghost function Filled(was: seq<Option<Id>>, n: Id, start: int, end: int): seq<Option<Id>> {
    seq(|was|, j requires 0 <= j < |was| => if was[j].None? && start <= j < end then Some(n) else was[j])
  }

  lemma FillOne(was: seq<Option<Id>>, n: Id, start: int, end: nat)
    requires start <= end < |was|
    ensures Filled(was, n, start, end)[end] == was[end]
    ensures Filled(was, n, start, end + 1) ==
            if was[end].None? then Filled(was, n, start, end)[end := Some(n)] else Filled(was, n, start, end)
  {
  }

  lemma FilledIsAdded(was: seq<Option<Id>>, n: Id, r: Range, end: int)
    requires end == r.stop + 1 || (end == r.start && r.stop < r.start)
    ensures Added(was, Filled(was, n, r.start, end), n, [r])
  {
    forall j: nat | j < |was|
      ensures Covered([r], j) <==> Within(r, j)
    {
      CoveredMore([], r, j);
      assert [] + [r] == [r];
    }
  }

  /** A range that stays inside the table.  Beyond it clusterAddSlot has no defined effect. */
  predicate InTable(r: Range) {
    r.start <= r.stop ==> 0 <= r.start && r.stop < SLOTS
  }

  /** The loop at line 255, which does nothing with a reversed range */
  method LoadRange(t: SlotTable, n: Id, r: Range)
    requires t.Valid() && n in t.bitmap && InTable(r)
    modifies t
    ensures t.Valid() && t.bitmap.Keys == old(t.bitmap.Keys)
    ensures Added(old(t.slots), t.slots, n, [r])
  {
    ghost var was := t.slots;
    var start := r.start;
    assert Filled(was, n, start, start) == was;
    while start <= r.stop
      invariant r.start <= start && (start == r.stop + 1 || start <= r.stop || (start == r.start && r.stop < start))
      invariant t.Valid() && t.bitmap.Keys == old(t.bitmap.Keys)
      invariant t.slots == Filled(was, n, r.start, start)
    {
      FillOne(was, n, r.start, start);
      var _ := t.AddSlot(n, start);
      start := start + 1;
    }
    FilledIsAdded(was, n, r, start);
  }

  /** Lines 225-255: every field, whatever it holds, binds the slots of its range that are free. */
  method LoadSlots(t: SlotTable, n: Id, tokens: seq<string>)
    requires t.Valid() && n in t.bitmap && forall i :: 0 <= i < |tokens| ==> InTable(Parse(tokens[i]))
    modifies t
    ensures t.Valid() && t.bitmap.Keys == old(t.bitmap.Keys)
    ensures Added(old(t.slots), t.slots, n, ParseAll(tokens))
  {
    ghost var was, rs := t.slots, ParseAll(tokens);
    assert Added(was, was, n, rs[..0]);
    var i := 0;
    while i < |tokens|
      invariant i <= |tokens| && t.Valid() && t.bitmap.Keys == old(t.bitmap.Keys)
      invariant Added(was, t.slots, n, rs[..i])
    {
      ghost var before := t.slots;
      LoadRange(t, n, Parse(tokens[i]));
      AddMore(was, before, t.slots, n, rs[..i], rs[i]);
      assert rs[..i + 1] == rs[..i] + [rs[i]];
      i := i + 1;
    }
    assert rs[..i] == rs;
  }

  // --- a whole table -----------------------------------------------------------------------

  /** The slots of the listed nodes are bound as in `goal`, all others are free. */
  ghost predicate Restored(goal: seq<Option<Id>>, now: seq<Option<Id>>, nodes: seq<Id>) {
    && |now| == |goal|
    && forall j :: 0 <= j < |goal| ==> now[j] == if goal[j].Some? && goal[j].value in nodes then goal[j] else None
  }

  lemma RestoreNext(goal: seq<Option<Id>>, a: seq<Option<Id>>, b: seq<Option<Id>>, nodes: seq<Id>, n: Id,
                    bits: seq<bool>, num: nat, rs: seq<Range>)
    requires Restored(goal, a, nodes) && Agrees(goal, n, bits, num) && Describes(rs, bits, |bits|)
    requires Added(a, b, n, rs)
    ensures Restored(goal, b, nodes + [n])
  {
  }

  /** One node's line, printed from t and loaded into u */
  method CopyNode(t: SlotTable, u: SlotTable, n: Id, ghost done: seq<Id>)
    requires t.Valid() && u.Valid() && u != t && n in t.bitmap && n in u.bitmap
    requires Restored(t.slots, u.slots, done)
    modifies u
    ensures u.Valid() && u.bitmap.Keys == old(u.bitmap.Keys)
    ensures Restored(t.slots, u.slots, done + [n])
  {
    assert Agrees(t.slots, n, t.bitmap[n], t.numslots[n]);
    var tokens, rs := PrintSlots(t.bitmap[n]);
    ParseTokens(rs);
    LoadSlots(u, n, tokens);
    RestoreNext(t.slots, old(u.slots), u.slots, done, n, t.bitmap[n], t.numslots[n], rs);
  }

  lemma AllRestored(t: SlotTable, now: seq<Option<Id>>, nodes: seq<Id>)
    requires t.Valid() && (forall n :: n in t.bitmap ==> n in nodes) && Restored(t.slots, now, nodes)
    ensures now == t.slots
  {
  }

  /**
    Saving the table of t and loading it into a new one, node by node in any order: every slot gets
    its owner back.
  */
  method SaveAndLoad(t: SlotTable, nodes: seq<Id>) returns (u: SlotTable)
    requires t.Valid() && forall n :: n in nodes <==> n in t.bitmap
    ensures u.Valid() && u.slots == t.slots
  {
    u := new SlotTable(nodes);
    CopyNodes(t, u, nodes);
    AllRestored(t, u.slots, nodes);
  }

  // All lines of the file
  method CopyNodes(t: SlotTable, u: SlotTable, nodes: seq<Id>)
    requires t.Valid() && u.Valid() && u != t && forall n :: n in nodes ==> n in t.bitmap && n in u.bitmap
    requires Restored(t.slots, u.slots, [])
    modifies u
    ensures u.Valid() && Restored(t.slots, u.slots, nodes)
  {
    var i := 0;
    while i < |nodes|
      invariant i <= |nodes| && u.Valid() && u.bitmap.Keys == old(u.bitmap.Keys)
      invariant Restored(t.slots, u.slots, nodes[..i])
    {
      CopyNode(t, u, nodes[i], nodes[..i]);
      assert nodes[..i + 1] == nodes[..i] + [nodes[i]];
      i := i + 1;
    }
    assert nodes[..i] == nodes;
  }
}
