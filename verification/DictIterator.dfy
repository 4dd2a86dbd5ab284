/**
  Safe iterators over a dictionary (project/network/redis/redis-3.2/src/dict.c:595-639).
  While one is open no entry moves, but entries may be added, all but one may be deleted,
  and a second table may be set up.
*/
module DictIterator {
  import opened CInt
  import opened Options
  import opened HashTable
  import opened Dict

  function KeysOf(c: Chain): (s: seq<Key>)
    ensures |s| == |c|
  {
    seq(|c|, i requires 0 <= i < |c| => c[i].0)
  }

  function AllKeys(buckets: seq<Chain>): seq<Key> {
    if buckets == [] then [] else KeysOf(buckets[0]) + AllKeys(buckets[1..])
  }

  /** The keys of a chain from the given one on. */
  function From(c: Chain, next: Option<Key>): seq<Key> {
    if next.None? || c == [] then []
    else if c[0].0 == next.value then KeysOf(c)
    else From(c[1..], next)
  }

  /** Where an iterator stands: table, index, entry and nextEntry, the entries by their keys. */
  datatype Place = Place(table: nat, index: int, entry: Option<Key>, next: Option<Key>)

  function Buckets(t0: Table, t1: Table, p: Place): seq<Chain> {
    if p.table == 0 then t0.buckets else t1.buckets
  }

  /** A place an iterator can be in. */
  ghost predicate PlaceOk(t0: Table, t1: Table, rehashing: bool, p: Place) {
    && p.table <= 1 && p.index >= -1 && (p.table == 1 ==> rehashing)
    && (p.entry.Some? ==> 0 <= p.index < |Buckets(t0, t1, p)|)
    && (p.next.Some? ==> p.entry.Some? && p.next.value in KeysOf(Buckets(t0, t1, p)[p.index]))
  }

  /** The keys in the chain at hand that are still to come. */
  function Here(t0: Table, t1: Table, p: Place): seq<Key> {
    if p.entry.Some? && 0 <= p.index < |Buckets(t0, t1, p)| then From(Buckets(t0, t1, p)[p.index], p.next) else []
  }

  function After(bs: seq<Chain>, i: int): seq<Key> {
    if -1 <= i < |bs| then AllKeys(bs[i + 1..]) else []
  }

  /** All keys that will be returned if nothing changes. */
  function Rest(t0: Table, t1: Table, rehashing: bool, p: Place): seq<Key> {
    Here(t0, t1, p) + After(Buckets(t0, t1, p), p.index) +
    if p.table == 0 && rehashing then AllKeys(t1.buckets) else []
  }

  // --- how the sequences of keys change ------------------------------------------------------

  /** How often a key occurs. */
  function Times(x: Key, s: seq<Key>): nat {
    multiset(s)[x]
  }

  lemma TimesJoin(x: Key, a: seq<Key>, b: seq<Key>)
    ensures Times(x, a + b) == Times(x, a) + Times(x, b)
  {
  }

  lemma {:induction false} AllKeysUpdate(x: Key, bs: seq<Chain>, b: nat, c: Chain)
    requires b < |bs| && Times(x, KeysOf(c)) == Times(x, KeysOf(bs[b]))
    ensures Times(x, AllKeys(bs[b := c])) == Times(x, AllKeys(bs))
  {
    var bs' := bs[b := c];
    TimesJoin(x, KeysOf(bs[0]), AllKeys(bs[1..]));
    TimesJoin(x, KeysOf(bs'[0]), AllKeys(bs'[1..]));
    if b == 0 {
      assert bs'[1..] == bs[1..];
    } else {
      AllKeysUpdate(x, bs[1..], b - 1, c);
      assert bs'[1..] == bs[1..][b - 1 := c];
    }
  }

  lemma TimesPush(x: Key, c: Chain, e: (Key, Val))
    requires x != e.0
    ensures Times(x, KeysOf([e] + c)) == Times(x, KeysOf(c))
  {
    assert KeysOf([e] + c) == [e.0] + KeysOf(c);
  }

  lemma TimesCut(x: Key, c: Chain, i: nat)
    requires i < |c| && x != c[i].0
    ensures Times(x, KeysOf(Cut(c, i))) == Times(x, KeysOf(c))
  {
    assert KeysOf(c) == KeysOf(c[..i]) + [c[i].0] + KeysOf(c[i + 1..]);
    assert KeysOf(Cut(c, i)) == KeysOf(c[..i]) + KeysOf(c[i + 1..]);
  }

  /** A new entry in front does not show in what is to come of the chain. */
  lemma FromPush(c: Chain, e: (Key, Val), next: Option<Key>)
    requires next != Some(e.0)
    ensures From([e] + c, next) == From(c, next)
  {
    assert ([e] + c)[1..] == c;
  }

  /** Nor does the removal of an entry, unless it is that entry one looks for. */
  lemma {:induction false} FromCut(x: Key, c: Chain, i: nat, next: Option<Key>)
    requires i < |c| && next != Some(c[i].0) && x != c[i].0
    ensures Times(x, From(Cut(c, i), next)) == Times(x, From(c, next))
  {
    if next.Some? {
      if c[0].0 == next.value {
        assert Cut(c, i)[0] == c[0];
        TimesCut(x, c, i);
      } else if i == 0 {
        assert Cut(c, 0) == c[1..];
      } else {
        assert Cut(c, i) == [c[0]] + Cut(c[1..], i - 1);
        assert Cut(c, i)[1..] == Cut(c[1..], i - 1);
        FromCut(x, c[1..], i - 1, next);
      }
    }
  }

  /** One chain changes, without effect on x, whether the iterator looks at it from the start or from `next`. */
  ghost predicate Unaffected(x: Key, c: Chain, c': Chain, next: Option<Key>) {
    Times(x, KeysOf(c')) == Times(x, KeysOf(c)) && Times(x, From(c', next)) == Times(x, From(c, next))
  }

  ghost predicate NextKept(c: Chain, c': Chain, next: Option<Key>) {
    next.Some? && next.value in KeysOf(c) ==> next.value in KeysOf(c')
  }

  /** A place stays one when a chain changes but still has the next entry. */
  lemma PlaceKept(t0: Table, t1: Table, t0': Table, t1': Table, rehashing: bool, p: Place, b: nat, c: Chain)
    requires PlaceOk(t0, t1, rehashing, p)
    requires
      || (t1' == t1 && b < |t0.buckets| && t0'.buckets == t0.buckets[b := c] && NextKept(t0.buckets[b], c, p.next))
      || (t0' == t0 && b < |t1.buckets| && t1'.buckets == t1.buckets[b := c] && NextKept(t1.buckets[b], c, p.next))
    ensures PlaceOk(t0', t1', rehashing, p)
  {
  }

  lemma TailUpdate(x: Key, bs: seq<Chain>, b: nat, c: Chain, i: int)
    requires b < |bs| && Times(x, KeysOf(c)) == Times(x, KeysOf(bs[b]))
    ensures Times(x, After(bs[b := c], i)) == Times(x, After(bs, i))
  {
    if -1 <= i < |bs| {
      if b <= i {
        assert bs[b := c][i + 1..] == bs[i + 1..];
      } else {
        assert bs[b := c][i + 1..] == bs[i + 1..][b - i - 1 := c];
        AllKeysUpdate(x, bs[i + 1..], b - i - 1, c);
      }
    }
  }

  lemma TimesRest(x: Key, t0: Table, t1: Table, rehashing: bool, p: Place)
    ensures Times(x, Rest(t0, t1, rehashing, p)) ==
            Times(x, Here(t0, t1, p)) + Times(x, After(Buckets(t0, t1, p), p.index)) +
            if p.table == 0 && rehashing then Times(x, AllKeys(t1.buckets)) else 0
  {
    TimesJoin(x, Here(t0, t1, p), After(Buckets(t0, t1, p), p.index));
    TimesJoin(x, Here(t0, t1, p) + After(Buckets(t0, t1, p), p.index),
              if p.table == 0 && rehashing then AllKeys(t1.buckets) else []);
  }

  /** A chain of the first table changes. */
  lemma FirstChanges(x: Key, t0: Table, t0': Table, t1: Table, rehashing: bool, p: Place, b: nat, c: Chain)
    requires PlaceOk(t0, t1, rehashing, p) && b < |t0.buckets| && t0'.buckets == t0.buckets[b := c]
    requires Unaffected(x, t0.buckets[b], c, p.next)
    ensures Times(x, Rest(t0', t1, rehashing, p)) == Times(x, Rest(t0, t1, rehashing, p))
  {
    TimesRest(x, t0, t1, rehashing, p);
    TimesRest(x, t0', t1, rehashing, p);
    TailUpdate(x, t0.buckets, b, c, p.index);
  }

  /** A chain of the second table changes. */
  lemma SecondChanges(x: Key, t0: Table, t1: Table, t1': Table, rehashing: bool, p: Place, b: nat, c: Chain)
    requires PlaceOk(t0, t1, rehashing, p) && b < |t1.buckets| && t1'.buckets == t1.buckets[b := c]
    requires Unaffected(x, t1.buckets[b], c, p.next)
    ensures Times(x, Rest(t0, t1', rehashing, p)) == Times(x, Rest(t0, t1, rehashing, p))
  {
    TimesRest(x, t0, t1, rehashing, p);
    TimesRest(x, t0, t1', rehashing, p);
    TailUpdate(x, t1.buckets, b, c, p.index);
    AllKeysUpdate(x, t1.buckets, b, c);
  }

  // --- every key once ----------------------------------------------------------------------------

  lemma {:induction false} TimesNone(x: Key, bs: seq<Chain>)
    requires forall b :: 0 <= b < |bs| ==> x !in KeysOf(bs[b])
    ensures Times(x, AllKeys(bs)) == 0
  {
    if bs != [] {
      TimesNone(x, bs[1..]);
      TimesJoin(x, KeysOf(bs[0]), AllKeys(bs[1..]));
    }
  }

  lemma {:induction false} TimesInOne(x: Key, bs: seq<Chain>, s: nat)
    requires s < |bs| && forall b :: 0 <= b < |bs| && b != s ==> x !in KeysOf(bs[b])
    ensures Times(x, AllKeys(bs)) == Times(x, KeysOf(bs[s]))
  {
    TimesJoin(x, KeysOf(bs[0]), AllKeys(bs[1..]));
    if s == 0 {
      TimesNone(x, bs[1..]);
    } else {
      TimesInOne(x, bs[1..], s - 1);
    }
  }

  lemma {:induction false} TimesInChain(x: Key, c: Chain)
    requires NoDup(c)
    ensures Times(x, KeysOf(c)) == if x in KeysOf(c) then 1 else 0
  {
    if c != [] {
      assert KeysOf(c) == [c[0].0] + KeysOf(c[1..]);
      TimesInChain(x, c[1..]);
    }
  }

  lemma TimesInTable(hash: Key -> Unsigned, model: map<Key, Val>, t: Table, x: Key)
    requires TableOk(hash, model, t) && x in model
    ensures Times(x, AllKeys(t.buckets)) == if Holds(hash, t, (x, model[x])) then 1 else 0
  {
    if t.buckets != [] {
      var s := Slot(hash(x), |t.buckets|);
      forall b | 0 <= b < |t.buckets| && b != s
        ensures x !in KeysOf(t.buckets[b])
      {
        assert ChainOk(hash, model, t.buckets[b], b, |t.buckets|);
      }
      TimesInOne(x, t.buckets, s);
      var c := t.buckets[s];
      assert ChainOk(hash, model, c, s, |t.buckets|);
      TimesInChain(x, c);
      if x in KeysOf(c) {
        var i :| 0 <= i < |c| && KeysOf(c)[i] == x;
        assert InMap(model, c[i]);
      }
      if (x, model[x]) in c {
        var i :| 0 <= i < |c| && c[i] == (x, model[x]);
        assert KeysOf(c)[i] == x;
      }
    }
  }

  const START: Place := Place(0, -1, None, None)

  /** An iterator that has not begun is to return every key of the map once. */
  lemma RestAtStart(hash: Key -> Unsigned, model: map<Key, Val>, t0: Table, t1: Table, rehashing: bool, x: Key)
    requires Represents(hash, model, t0, t1) && (!rehashing ==> t1 == EMPTY) && x in model
    ensures Times(x, Rest(t0, t1, rehashing, START)) == 1
  {
    TimesRest(x, t0, t1, rehashing, START);
    TimesInTable(hash, model, t0, x);
    TimesInTable(hash, model, t1, x);
    assert t0.buckets[0..] == t0.buckets;
  }

  // --- the iterator --------------------------------------------------------------------------------

  /** The key after this one. */
  function NextIn(c: Chain, k: Key): Option<Key> {
    if c == [] then None
    else if c[0].0 == k then (if |c| > 1 then Some(c[1].0) else None)
    else NextIn(c[1..], k)
  }

  function First(c: Chain): Option<Key> {
    if c == [] then None else Some(c[0].0)
  }

  lemma {:induction false} FromNext(c: Chain, k: Key)
    requires NoDup(c) && k in KeysOf(c)
    ensures From(c, Some(k)) == [k] + From(c, NextIn(c, k))
    ensures NextIn(c, k).Some? ==> NextIn(c, k).value in KeysOf(c)
  {
    if c[0].0 == k {
      assert KeysOf(c) == [k] + KeysOf(c[1..]);
      if |c| > 1 {
        assert c[0].0 != c[1].0;
        assert From(c, Some(c[1].0)) == From(c[1..], Some(c[1].0)) == KeysOf(c[1..]);
        assert KeysOf(c)[1] == c[1].0;
      }
    } else {
      assert KeysOf(c) == [c[0].0] + KeysOf(c[1..]);
      FromNext(c[1..], k);
      var n := NextIn(c[1..], k);
      if n.Some? {
        var i :| 0 <= i < |c[1..]| && KeysOf(c[1..])[i] == n.value;
        assert c[0].0 != c[i + 1].0;
      }
    }
  }

  // --- the walk of dictNext -------------------------------------------------------------------------

  /** What is to come after the table at hand. */
  function Beyond(t1: Table, rehashing: bool, table: nat): seq<Key> {
    if table == 0 && rehashing then AllKeys(t1.buckets) else []
  }

  ghost predicate ChainsDistinct(t0: Table, t1: Table) {
    && (forall b :: 0 <= b < |t0.buckets| ==> NoDup(t0.buckets[b]))
    && (forall b :: 0 <= b < |t1.buckets| ==> NoDup(t1.buckets[b]))
  }

  /** The bucket at a new index is entered, or found empty. */
  lemma EnterBucket(t0: Table, t1: Table, re: bool, table: nat, i: nat)
    requires table <= 1 && (table == 1 ==> re) && ChainsDistinct(t0, t1)
    requires var bs := if table == 0 then t0.buckets else t1.buckets; i < |bs|
    ensures var bs := if table == 0 then t0.buckets else t1.buckets; var c := bs[i];
      var rest := KeysOf(c) + After(bs, i) + Beyond(t1, re, table);
      if c == [] then rest == Rest(t0, t1, re, Place(table, i, None, None))
      else
        var p := Place(table, i, Some(c[0].0), NextIn(c, c[0].0));
        PlaceOk(t0, t1, re, p) && rest == [c[0].0] + Rest(t0, t1, re, p)
  {
    var bs := if table == 0 then t0.buckets else t1.buckets;
    var c := bs[i];
    if c != [] {
      assert KeysOf(c)[0] == c[0].0;
      FromNext(c, c[0].0);
    }
  }

  /** The next entry of the chain at hand. */
  lemma EnterNext(t0: Table, t1: Table, re: bool, p: Place)
    requires PlaceOk(t0, t1, re, p) && p.next.Some? && ChainsDistinct(t0, t1)
    ensures var c := Buckets(t0, t1, p)[p.index]; var p' := p.(entry := p.next, next := NextIn(c, p.next.value));
      PlaceOk(t0, t1, re, p') && Rest(t0, t1, re, p) == [p.next.value] + Rest(t0, t1, re, p')
  {
    FromNext(Buckets(t0, t1, p)[p.index], p.next.value);
  }

  lemma AfterStep(bs: seq<Chain>, i: int)
    requires -1 <= i && i + 1 < |bs|
    ensures After(bs, i) == KeysOf(bs[i + 1]) + After(bs, i + 1)
  {
    assert bs[i + 1..][1..] == bs[i + 2..];
  }

  lemma AfterLast(bs: seq<Chain>, i: int)
    requires i + 1 >= |bs|
    ensures After(bs, i) == []
  {
  }

  /** A new index within the table. */
  lemma StepIndex(t0: Table, t1: Table, re: bool, p: Place)
    requires PlaceOk(t0, t1, re, p) && p.entry.None? && p.index + 1 < |Buckets(t0, t1, p)|
    ensures var bs := Buckets(t0, t1, p);
      Rest(t0, t1, re, p) == KeysOf(bs[p.index + 1]) + After(bs, p.index + 1) + Beyond(t1, re, p.table)
  {
    AfterStep(Buckets(t0, t1, p), p.index);
  }

  /** On to the second table, or to the end. */
  lemma StepTable(t0: Table, t1: Table, re: bool, p: Place)
    requires PlaceOk(t0, t1, re, p) && p.entry.None? && p.index + 1 >= |Buckets(t0, t1, p)| && (re ==> t1.buckets != [])
    ensures re && p.table == 0 ==>
      Rest(t0, t1, re, p) == KeysOf(t1.buckets[0]) + After(t1.buckets, 0) + Beyond(t1, re, 1)
    ensures !(re && p.table == 0) ==> Rest(t0, t1, re, p) == []
  {
    AfterLast(Buckets(t0, t1, p), p.index);
    if re {
      assert t1.buckets[0..] == t1.buckets;
      AfterStep(t1.buckets, -1);
    }
  }

  function Remaining(n: nat, i: int): nat {
    if i < n then n - i else 0
  }

  /** The iterator stands at an entry, which comes before what it has still to return. */
  ghost predicate Found(t0: Table, t1: Table, re: bool, p: Place, rest: seq<Key>) {
    && PlaceOk(t0, t1, re, p) && p.entry.Some? && p.entry.value in KeysOf(Buckets(t0, t1, p)[p.index])
    && rest == [p.entry.value] + Rest(t0, t1, re, p)
  }

  // Lines 617 and 621-625, when a new bucket is entered
  method Enter(t0: Table, t1: Table, re: bool, q: Place, ghost rest: seq<Key>) returns (p: Place, found: bool)
    requires PlaceOk(t0, t1, re, q) && ChainsDistinct(t0, t1) && q.entry.None?
    requires 0 <= q.index < |Buckets(t0, t1, q)|
    requires var bs := Buckets(t0, t1, q); rest == KeysOf(bs[q.index]) + After(bs, q.index) + Beyond(t1, re, q.table)
    ensures p.table == q.table && p.index == q.index
    ensures if found then Found(t0, t1, re, p, rest) else p == q && rest == Rest(t0, t1, re, p)
  {
    EnterBucket(t0, t1, re, q.table, q.index);
    var c := Buckets(t0, t1, q)[q.index];
    p, found := q, First(c).Some?;
    if found {
      assert KeysOf(c)[0] == c[0].0;
      p := p.(entry := First(c), next := NextIn(c, c[0].0));
    }
  }

  // Lines 619 and 621-625: along the chain
  method Follow(t0: Table, t1: Table, re: bool, q: Place) returns (p: Place, found: bool)
    requires PlaceOk(t0, t1, re, q) && ChainsDistinct(t0, t1) && q.entry.Some?
    ensures p.table == q.table && p.index == q.index
    ensures if found then Found(t0, t1, re, p, Rest(t0, t1, re, q))
            else PlaceOk(t0, t1, re, p) && p.entry.None? && Rest(t0, t1, re, p) == Rest(t0, t1, re, q)
  {
    p, found := q.(entry := q.next), q.next.Some?;
    if found {
      EnterNext(t0, t1, re, q);
      p := p.(next := NextIn(Buckets(t0, t1, q)[q.index], q.next.value));
    }
  }

  // Lines 606-617: on to the next bucket, in the second table if need be
  method NextBucket(t0: Table, t1: Table, re: bool, q: Place) returns (p: Place, found: bool, ended: bool)
    requires PlaceOk(t0, t1, re, q) && q.entry.None? && ChainsDistinct(t0, t1) && (re ==> t1.buckets != [])
    ensures PlaceOk(t0, t1, re, p) && p.index >= 0 && !(found && ended)
    ensures found ==> Found(t0, t1, re, p, Rest(t0, t1, re, q))
    ensures !found ==> p.entry.None? && Rest(t0, t1, re, p) == Rest(t0, t1, re, q)
    ensures ended ==> Rest(t0, t1, re, q) == []
    ensures !ended ==> p.table > q.table || (p.table == q.table && q.index < p.index < |Buckets(t0, t1, q)|)
  {
    if q.index + 1 >= |Buckets(t0, t1, q)| {
      StepTable(t0, t1, re, q);
      if re && q.table == 0 {
        p := Place(1, 0, None, None);
      } else {
        p := Place(q.table, q.index + 1, None, None);
        AfterLast(Buckets(t0, t1, p), p.index);
        return p, false, true;
      }
    } else {
      StepIndex(t0, t1, re, q);
      p := Place(q.table, q.index + 1, None, None);
    }
    p, found := Enter(t0, t1, re, p, Rest(t0, t1, re, q));
    ended := false;
  }

  /** The loop of dictNext */
  method Walk(t0: Table, t1: Table, re: bool, from: Place) returns (p: Place, found: bool)
    requires PlaceOk(t0, t1, re, from) && ChainsDistinct(t0, t1) && (re ==> t1.buckets != [])
    ensures PlaceOk(t0, t1, re, p) && p.index >= 0
    ensures found ==> Found(t0, t1, re, p, Rest(t0, t1, re, from))
    ensures !found ==> Rest(t0, t1, re, from) == Rest(t0, t1, re, p) == []
  {
    p := from;
    while true
      invariant PlaceOk(t0, t1, re, p) && Rest(t0, t1, re, p) == Rest(t0, t1, re, from)
      decreases 1 - p.table, Remaining(|Buckets(t0, t1, p)|, p.index), if p.entry.Some? then 1 else 0
    {
      if p.entry.None? {
        var ended;
        p, found, ended := NextBucket(t0, t1, re, p);
        if ended {
          return;
        }
      } else {
        p, found := Follow(t0, t1, re, p);
      }
      if found {
        return;
      }
    }
  }

  /** dictNext without the counting of iterators: where it goes and what it returns */
  method Proceed(ghost hash: Key -> Unsigned, ghost model: map<Key, Val>, t0: Table, t1: Table, re: bool, from: Place)
    returns (p: Place, r: Option<(Key, Val)>)
    requires Represents(hash, model, t0, t1) && PlaceOk(t0, t1, re, from) && (re ==> t1.buckets != [])
    ensures PlaceOk(t0, t1, re, p) && p.index >= 0
    ensures r.None? ==> Rest(t0, t1, re, from) == Rest(t0, t1, re, p) == []
    ensures r.Some? ==> p.entry == Some(r.value.0) && InMap(model, r.value)
    ensures r.Some? ==> Rest(t0, t1, re, from) == [r.value.0] + Rest(t0, t1, re, p)
    ensures r.Some? ==> r.value.0 in KeysOf(Buckets(t0, t1, p)[p.index])
  {
    AreDistinct(hash, model, t0, t1);
    var found;
    p, found := Walk(t0, t1, re, from);
    if found {
      var e := EntryAt(hash, model, t0, t1, re, p);
      return p, Some(e);
    }
    return p, None;
  }

  method EntryAt(ghost hash: Key -> Unsigned, ghost model: map<Key, Val>, t0: Table, t1: Table, re: bool, p: Place)
    returns (e: (Key, Val))
    requires Represents(hash, model, t0, t1) && PlaceOk(t0, t1, re, p) && p.entry.Some?
    requires p.entry.value in KeysOf(Buckets(t0, t1, p)[p.index])
    ensures e.0 == p.entry.value && InMap(model, e)
  {
    var c := Buckets(t0, t1, p)[p.index];
    ghost var t := if p.table == 0 then t0 else t1;
    assert ChainOk(hash, model, c, p.index, |t.buckets|);
    ghost var j :| 0 <= j < |c| && KeysOf(c)[j] == p.entry.value;
    assert c[j] in c;
    var i := Search(c, p.entry.value);
    e := c[i];
  }

  // --- what may happen while the iterator is open ------------------------------------------------

  lemma {:induction false} BareKeys(bs: seq<Chain>)
    requires forall b :: 0 <= b < |bs| ==> bs[b] == []
    ensures AllKeys(bs) == []
  {
    if bs != [] {
      BareKeys(bs[1..]);
    }
  }

  /** Setting up a table changes nothing that is to come. */
  lemma SetUpSecond(t0: Table, u1: Table, p: Place)
    requires Bare(u1) && PlaceOk(t0, EMPTY, false, p)
    ensures PlaceOk(t0, u1, true, p) && Rest(t0, u1, true, p) == Rest(t0, EMPTY, false, p)
  {
    BareKeys(u1.buckets);
  }

  lemma SetUpFirst(t0: Table, t1: Table, u0: Table, p: Place)
    requires t0.buckets == [] && Bare(u0) && PlaceOk(t0, t1, false, p)
    ensures PlaceOk(u0, t1, false, p) && Rest(u0, t1, false, p) == Rest(t0, t1, false, p) == []
  {
    assert p.entry.None? && p.next.None? && p.table == 0;
    BareAfter(t0.buckets, p.index);
    BareAfter(u0.buckets, p.index);
  }

  lemma BareAfter(bs: seq<Chain>, i: int)
    requires forall b :: 0 <= b < |bs| ==> bs[b] == []
    ensures After(bs, i) == []
  {
    if -1 <= i < |bs| {
      BareKeys(bs[i + 1..]);
    }
  }

  lemma SetUpKeeps(t0: Table, t1: Table, re: bool, u0: Table, u1: Table, re': bool, p: Place)
    requires SetUp(t0, t1, re, u0, u1, re') && PlaceOk(t0, t1, re, p)
    ensures PlaceOk(u0, u1, re', p) && Rest(u0, u1, re', p) == Rest(t0, t1, re, p)
  {
    if !re && re' {
      SetUpSecond(t0, u1, p);
    } else if u0 != t0 {
      SetUpFirst(t0, t1, u0, p);
    }
  }

  /** Linking a new entry changes nothing for other keys. */
  lemma LinkedKeeps(t0: Table, t1: Table, re: bool, t0': Table, t1': Table, e: (Key, Val), p: Place)
    requires Linked(t0, t1, re, t0', t1', e) && PlaceOk(t0, t1, re, p) && p.next != Some(e.0)
    ensures PlaceOk(t0', t1', re, p)
    ensures forall x | x != e.0 :: Times(x, Rest(t0', t1', re, p)) == Times(x, Rest(t0, t1, re, p))
  {
    var t, t' := if re then t1 else t0, if re then t1' else t0';
    assert PushedTo(t, t', e);
    var b: nat :| b < |t.buckets| && t'.buckets == t.buckets[b := [e] + t.buckets[b]];
    var c := t.buckets[b];
    FromPush(c, e, p.next);
    assert KeysOf([e] + c) == [e.0] + KeysOf(c);
    PlaceKept(t0, t1, t0', t1', re, p, b, [e] + c);
    forall x | x != e.0
      ensures Times(x, Rest(t0', t1', re, p)) == Times(x, Rest(t0, t1, re, p))
    {
      TimesPush(x, c, e);
      if re {
        SecondChanges(x, t0, t1, t1', re, p, b, [e] + c);
      } else {
        FirstChanges(x, t0, t0', t1, re, p, b, [e] + c);
      }
    }
  }

  lemma CutUnaffected(c: Chain, i: nat, next: Option<Key>)
    requires i < |c| && next != Some(c[i].0)
    ensures NextKept(c, Cut(c, i), next) && forall x | x != c[i].0 :: Unaffected(x, c, Cut(c, i), next)
  {
    forall x | x != c[i].0
      ensures Unaffected(x, c, Cut(c, i), next)
    {
      TimesCut(x, c, i);
      FromCut(x, c, i, next);
    }
    if next.Some? && next.value in KeysOf(c) {
      assert KeysOf(c) == KeysOf(c[..i]) + [c[i].0] + KeysOf(c[i + 1..]);
      assert KeysOf(Cut(c, i)) == KeysOf(c[..i]) + KeysOf(c[i + 1..]);
    }
  }

  /** Nor does cutting out an entry that is not the next one. */
  lemma CutFirstKeeps(t0: Table, t1: Table, re: bool, t0': Table, k: Key, p: Place)
    requires CutFrom(t0, t0', k) && PlaceOk(t0, t1, re, p) && p.next != Some(k)
    ensures PlaceOk(t0', t1, re, p)
    ensures forall x | x != k :: Times(x, Rest(t0', t1, re, p)) == Times(x, Rest(t0, t1, re, p))
  {
    var b: nat, i: nat :| b < |t0.buckets| && i < |t0.buckets[b]| && t0.buckets[b][i].0 == k
                          && t0'.buckets == t0.buckets[b := Cut(t0.buckets[b], i)];
    CutUnaffected(t0.buckets[b], i, p.next);
    PlaceKept(t0, t1, t0', t1, re, p, b, Cut(t0.buckets[b], i));
    forall x | x != k
      ensures Times(x, Rest(t0', t1, re, p)) == Times(x, Rest(t0, t1, re, p))
    {
      FirstChanges(x, t0, t0', t1, re, p, b, Cut(t0.buckets[b], i));
    }
  }

  lemma CutSecondKeeps(t0: Table, t1: Table, re: bool, t1': Table, k: Key, p: Place)
    requires CutFrom(t1, t1', k) && PlaceOk(t0, t1, re, p) && p.next != Some(k)
    ensures PlaceOk(t0, t1', re, p)
    ensures forall x | x != k :: Times(x, Rest(t0, t1', re, p)) == Times(x, Rest(t0, t1, re, p))
  {
    var b: nat, i: nat :| b < |t1.buckets| && i < |t1.buckets[b]| && t1.buckets[b][i].0 == k
                          && t1'.buckets == t1.buckets[b := Cut(t1.buckets[b], i)];
    CutUnaffected(t1.buckets[b], i, p.next);
    PlaceKept(t0, t1, t0, t1', re, p, b, Cut(t1.buckets[b], i));
    forall x | x != k
      ensures Times(x, Rest(t0, t1', re, p)) == Times(x, Rest(t0, t1, re, p))
    {
      SecondChanges(x, t0, t1, t1', re, p, b, Cut(t1.buckets[b], i));
    }
  }

  /** The entry to come next is in the map. */
  lemma NextIsPresent(hash: Key -> Unsigned, model: map<Key, Val>, t0: Table, t1: Table, re: bool, p: Place)
    requires Represents(hash, model, t0, t1) && PlaceOk(t0, t1, re, p) && p.next.Some?
    ensures p.next.value in model
  {
    var t := if p.table == 0 then t0 else t1;
    var c := t.buckets[p.index];
    assert ChainOk(hash, model, c, p.index, |t.buckets|);
    var i :| 0 <= i < |c| && KeysOf(c)[i] == p.next.value;
    assert InMap(model, c[i]);
  }

  lemma AddKeeps(t0: Table, t1: Table, re: bool, t0': Table, t1': Table, re': bool, ok: bool, e: (Key, Val), p: Place)
    requires AddedInPlace(t0, t1, re, t0', t1', re', ok, e) && PlaceOk(t0, t1, re, p)
    requires ok ==> p.next != Some(e.0)
    ensures PlaceOk(t0', t1', re', p)
    ensures forall x | !ok || x != e.0 :: Times(x, Rest(t0', t1', re', p)) == Times(x, Rest(t0, t1, re, p))
  {
    var u0, u1 :| && SetUp(t0, t1, re, u0, u1, re')
                  && if ok then Linked(u0, u1, re', t0', t1', e) else t0' == u0 && t1' == u1;
    SetUpKeeps(t0, t1, re, u0, u1, re', p);
    if ok {
      LinkedKeeps(u0, u1, re', t0', t1', e, p);
    }
  }

  lemma CutKeeps(t0: Table, t1: Table, re: bool, t0': Table, t1': Table, k: Key, p: Place)
    requires (t1' == t1 && CutFrom(t0, t0', k)) || (t0' == t0 && CutFrom(t1, t1', k))
    requires PlaceOk(t0, t1, re, p) && p.next != Some(k)
    ensures PlaceOk(t0', t1', re, p)
    ensures forall x | x != k :: Times(x, Rest(t0', t1', re, p)) == Times(x, Rest(t0, t1, re, p))
  {
    if t1' == t1 && CutFrom(t0, t0', k) {
      CutFirstKeeps(t0, t1, re, t0', k, p);
    } else {
      CutSecondKeeps(t0, t1, re, t1', k, p);
    }
  }

  // --- the one entry that must not be deleted ------------------------------------------------------

  /** A key lies in one chain of one table. */
  lemma KeyHasPlace(hash: Key -> Unsigned, model: map<Key, Val>, t: Table, b: nat, k: Key)
    requires TableOk(hash, model, t) && b < |t.buckets| && k in KeysOf(t.buckets[b])
    ensures k in model && Holds(hash, t, (k, model[k])) && b == Slot(hash(k), |t.buckets|) && NoDup(t.buckets[b])
  {
    var c := t.buckets[b];
    assert ChainOk(hash, model, c, b, |t.buckets|);
    var i :| 0 <= i < |c| && KeysOf(c)[i] == k;
    assert InMap(model, c[i]);
  }

  lemma CutIsGone(c: Chain, i: nat)
    requires NoDup(c) && i < |c|
    ensures c[i].0 !in KeysOf(Cut(c, i))
  {
  }

  lemma CutFirstBreaks(hash: Key -> Unsigned, model: map<Key, Val>, t0: Table, t1: Table, re: bool, t0': Table, k: Key,
                       p: Place)
    requires Represents(hash, model, t0, t1) && CutFrom(t0, t0', k)
    requires PlaceOk(t0, t1, re, p) && p.next == Some(k)
    ensures !PlaceOk(t0', t1, re, p)
  {
    var b: nat, i: nat :| b < |t0.buckets| && i < |t0.buckets[b]| && t0.buckets[b][i].0 == k
                          && t0'.buckets == t0.buckets[b := Cut(t0.buckets[b], i)];
    assert KeysOf(t0.buckets[b])[i] == k;
    KeyHasPlace(hash, model, t0, b, k);
    KeyHasPlace(hash, model, if p.table == 0 then t0 else t1, p.index, k);
    CutIsGone(t0.buckets[b], i);
  }

  lemma CutSecondBreaks(hash: Key -> Unsigned, model: map<Key, Val>, t0: Table, t1: Table, re: bool, t1': Table, k: Key,
                        p: Place)
    requires Represents(hash, model, t0, t1) && CutFrom(t1, t1', k)
    requires PlaceOk(t0, t1, re, p) && p.next == Some(k)
    ensures !PlaceOk(t0, t1', re, p)
  {
    var b: nat, i: nat :| b < |t1.buckets| && i < |t1.buckets[b]| && t1.buckets[b][i].0 == k
                          && t1'.buckets == t1.buckets[b := Cut(t1.buckets[b], i)];
    assert KeysOf(t1.buckets[b])[i] == k;
    KeyHasPlace(hash, model, t1, b, k);
    KeyHasPlace(hash, model, if p.table == 0 then t0 else t1, p.index, k);
    CutIsGone(t1.buckets[b], i);
  }

  /**
    A deletion leaves the iterator at a place it can go on from if and only if the key is not the one
    that nextEntry was read from; otherwise nextEntry points to an entry that has been freed.
  */
  lemma CutKeepsPlaceIff(hash: Key -> Unsigned, model: map<Key, Val>, t0: Table, t1: Table, re: bool, t0': Table,
                         t1': Table, k: Key, p: Place)
    requires Represents(hash, model, t0, t1) && PlaceOk(t0, t1, re, p)
    requires (t1' == t1 && CutFrom(t0, t0', k)) || (t0' == t0 && CutFrom(t1, t1', k))
    ensures PlaceOk(t0', t1', re, p) <==> p.next != Some(k)
  {
    if p.next != Some(k) {
      CutKeeps(t0, t1, re, t0', t1', k, p);
    } else if t1' == t1 && CutFrom(t0, t0', k) {
      CutFirstBreaks(hash, model, t0, t1, re, t0', k, p);
    } else {
      CutSecondBreaks(hash, model, t0, t1, re, t1', k, p);
    }
  }

  /** Two keys share a bucket and nothing else is there: at the first of them, the other one is next. */
  lemma OtherIsNext(hash: Key -> Unsigned, model: map<Key, Val>, t: Table, p: Place, r: (Key, Val), other: Key)
    requires Represents(hash, model, t, EMPTY) && PlaceOk(t, EMPTY, false, p)
    requires Returns(model, t, EMPTY, false, START, p, Some(r))
    requires other in model && other != r.0 && hash(other) == hash(r.0)
    ensures p.next.Some?
  {
    KeyHasPlace(hash, model, t, p.index, r.0);
    RestAtStart(hash, model, t, EMPTY, false, other);
    TimesJoin(other, [r.0], Rest(t, EMPTY, false, p));
    TimesRest(other, t, EMPTY, false, p);
    NotLater(hash, model, t, p.index, other);
  }

  lemma NotLater(hash: Key -> Unsigned, model: map<Key, Val>, t: Table, i: nat, x: Key)
    requires TableOk(hash, model, t) && i < |t.buckets| && i == Slot(hash(x), |t.buckets|)
    ensures Times(x, After(t.buckets, i)) == 0
  {
    var later := t.buckets[i + 1..];
    forall b | 0 <= b < |later|
      ensures x !in KeysOf(later[b])
    {
      assert ChainOk(hash, model, t.buckets[i + 1 + b], i + 1 + b, |t.buckets|);
    }
    TimesNone(x, later);
  }

  /** The keys of `stable` have been returned or will be, once each. */
  ghost predicate OnceEach(stable: set<Key>, returned: seq<Key>, rest: seq<Key>) {
    forall x | x in stable :: Times(x, returned) + Times(x, rest) == 1
  }

  lemma StillOnce(stable: set<Key>, stable': set<Key>, returned: seq<Key>, rest: seq<Key>, rest': seq<Key>)
    requires OnceEach(stable, returned, rest) && stable' <= stable
    requires forall x | x in stable' :: Times(x, rest') == Times(x, rest)
    ensures OnceEach(stable', returned, rest')
  {
  }

  lemma OnceMore(stable: set<Key>, returned: seq<Key>, rest: seq<Key>, k: Key, rest': seq<Key>)
    requires OnceEach(stable, returned, rest) && rest == [k] + rest'
    ensures OnceEach(stable, returned + [k], rest')
  {
    forall x | x in stable
      ensures Times(x, returned + [k]) + Times(x, rest') == 1
    {
      TimesJoin(x, returned, [k]);
      TimesJoin(x, [k], rest');
    }
  }

  lemma AreDistinct(hash: Key -> Unsigned, model: map<Key, Val>, t0: Table, t1: Table)
    requires Represents(hash, model, t0, t1)
    ensures ChainsDistinct(t0, t1)
  {
    forall b | 0 <= b < |t0.buckets|
      ensures NoDup(t0.buckets[b])
    {
      assert ChainOk(hash, model, t0.buckets[b], b, |t0.buckets|);
    }
    forall b | 0 <= b < |t1.buckets|
      ensures NoDup(t1.buckets[b])
    {
      assert ChainOk(hash, model, t1.buckets[b], b, |t1.buckets|);
    }
  }

  /** A safe iterator over d */
  class Iterator {
    const d: Dict
    var place: Place

    /** dictGetSafeIterator */
    constructor (d: Dict)
      ensures this.d == d && place == START
    {
      this.d := d;
      place := START;
    }

    /** dictNext: the first of the keys to come, or nothing if there are none; the first call counts the iterator */
    method Next() returns (r: Option<(Key, Val)>)
      requires d.Valid() && PlaceOk(d.ht0, d.ht1, d.IsRehashing(), place)
      modifies this, d`iterators
      ensures d.Valid() && PlaceOk(d.ht0, d.ht1, d.IsRehashing(), place) && place.index >= 0
      ensures d.iterators == old(d.iterators) + if old(place.index == -1 && place.table == 0) then 1 else 0
      ensures Returns(d.model, d.ht0, d.ht1, d.IsRehashing(), old(place), place, r)
    {
      if place.index == -1 && place.table == 0 {
        d.iterators := d.iterators + 1;
      }
      place, r := Proceed(d.hash, d.model, d.ht0, d.ht1, d.IsRehashing(), place);
    }
  }

  /** Deleting what comes next leaves any open iterator with a pointer to a freed entry. */
  method DeleteNext(it: Iterator) returns (gone: Key)
    requires it.d.Valid() && it.d.iterators > 0 && it.place.next.Some?
    requires PlaceOk(it.d.ht0, it.d.ht1, it.d.IsRehashing(), it.place)
    modifies it.d
    ensures it.d.Valid() && it.place.next == Some(gone) && gone !in it.d.model
    ensures !PlaceOk(it.d.ht0, it.d.ht1, it.d.IsRehashing(), it.place)
  {
    var d := it.d;
    ghost var model, t0, t1, re := d.model, d.ht0, d.ht1, d.IsRehashing();
    NextIsPresent(d.hash, model, t0, t1, re, it.place);
    gone := it.place.next.value;
    var ok := d.Delete(gone);
    CutKeepsPlaceIff(d.hash, model, t0, t1, re, d.ht0, d.ht1, gone, it.place);
  }

  /** Such an iterator: it has returned one of two keys that share a bucket. */
  method ReturnFirst(it: Iterator, a: Key, b: Key)
    requires it.d.Valid() && !it.d.IsRehashing() && it.place == START
    requires it.d.model.Keys == {a, b} && a != b && it.d.hash(a) == it.d.hash(b)
    modifies it, it.d`iterators
    ensures it.d.Valid() && it.d.iterators > 0 && it.place.next.Some?
    ensures PlaceOk(it.d.ht0, it.d.ht1, it.d.IsRehashing(), it.place)
  {
    var d := it.d;
    ghost var p := it.place;
    var r := it.Next();
    OneOfTwo(d, p, it.place, r, a, b);
  }

  /** Two keys in one bucket: dictNext returns one of them, the other is deleted, dictNext must not be called again. */
  method DanglingNext(hash: Key -> Unsigned, a: Key, b: Key, va: Val, vb: Val) returns (it: Iterator, gone: Key)
    requires a != b && hash(a) == hash(b)
    ensures it.d.Valid() && it.place.next == Some(gone) && gone !in it.d.model
    ensures !PlaceOk(it.d.ht0, it.d.ht1, it.d.IsRehashing(), it.place)
  {
    var d := TwoInOneBucket(hash, a, b, va, vb);
    it := new Iterator(d);
    ReturnFirst(it, a, b);
    gone := DeleteNext(it);
  }

  method TwoInOneBucket(hash: Key -> Unsigned, a: Key, b: Key, va: Val, vb: Val) returns (d: Dict)
    requires a != b
    ensures fresh(d) && d.Valid() && d.hash == hash && d.model.Keys == {a, b} && !d.IsRehashing()
  {
    d := new Dict(hash);
    AddToFew(d, a, va);
    AddToFew(d, b, vb);
  }

  method AddToFew(d: Dict, k: Key, v: Val)
    requires d.Valid() && !d.IsRehashing() && |d.model| <= 1 && k !in d.model && |d.ht0.buckets| <= 4
    modifies d
    ensures d.Valid() && !d.IsRehashing() && d.model == old(d.model)[k := v] && |d.ht0.buckets| <= 4
  {
    SmallFits();
    NotFull(d.ht0);
    var r := d.Add(k, v, false);
  }

  lemma NotFull(t: Table)
    requires t.used <= FORCE_RESIZE_RATIO
    ensures !IsFull(t, false)
  {
  }

  lemma OneOfTwo(d: Dict, p: Place, p': Place, r: Option<(Key, Val)>, a: Key, b: Key)
    requires d.Valid() && !d.IsRehashing() && p == START && PlaceOk(d.ht0, d.ht1, d.IsRehashing(), p')
    requires Returns(d.model, d.ht0, d.ht1, d.IsRehashing(), p, p', r)
    requires d.model.Keys == {a, b} && a != b && d.hash(a) == d.hash(b)
    ensures p'.next.Some?
  {
    assert r.Some? by {
      RestAtStart(d.hash, d.model, d.ht0, EMPTY, false, a);
    }
    assert r.value.0 in d.model.Keys;
    OtherIsNext(d.hash, d.model, d.ht0, p', r.value, if r.value.0 == a then b else a);
  }

  /** What dictNext does: the first key to come is returned and no longer to come. */
  ghost predicate Returns(model: map<Key, Val>, t0: Table, t1: Table, re: bool, p: Place, p': Place,
                          r: Option<(Key, Val)>)
  {
    match r
    case None => Rest(t0, t1, re, p) == Rest(t0, t1, re, p') == []
    case Some(e) =>
      && InMap(model, e) && p'.entry == Some(e.0) && Rest(t0, t1, re, p) == [e.0] + Rest(t0, t1, re, p')
      && 0 <= p'.index < |Buckets(t0, t1, p')| && e.0 in KeysOf(Buckets(t0, t1, p')[p'.index])
  }

  // --- whole iterations --------------------------------------------------------------------------------

  /**
    A dictionary with an open iterator, the keys that the iterator has returned, and those that have
    been in the dictionary ever since it was made.
  */
  datatype Iteration = Iteration(
    model: map<Key, Val>,
    t0: Table,
    t1: Table,
    rehashing: bool,
    place: Place,
    returned: seq<Key>,
    stable: set<Key>)

  datatype Act =
    | Advance(r: Option<(Key, Val)>)
    | Insert(ok: bool, k: Key, v: Val)
    | Remove(ok: bool, k: Key)
    | Prepare
    | Look

  ghost predicate Begins(hash: Key -> Unsigned, s: Iteration) {
    && Represents(hash, s.model, s.t0, s.t1) && (!s.rehashing ==> s.t1 == EMPTY)
    && s.place == START && s.returned == [] && s.stable == s.model.Keys
  }

  /**
    One act, as the contracts of dictNext, dictAdd, dictDelete, dictResize and dictFind describe it while
    an iterator is open.  Any entry may be deleted but the one that nextEntry points to.
  */
  ghost predicate Happens(s: Iteration, a: Act, s': Iteration) {
    match a
    case Advance(r) =>
      && s' == s.(place := s'.place, returned := if r.Some? then s.returned + [r.value.0] else s.returned)
      && PlaceOk(s.t0, s.t1, s.rehashing, s'.place) && Returns(s.model, s.t0, s.t1, s.rehashing, s.place, s'.place, r)
    case Insert(ok, k, v) =>
      && s'.place == s.place && s'.returned == s.returned && s'.stable == s.stable
      && (ok ==> k !in s.model) && s'.model == (if ok then s.model[k := v] else s.model)
      && AddedInPlace(s.t0, s.t1, s.rehashing, s'.t0, s'.t1, s'.rehashing, ok, (k, v))
    case Remove(ok, k) =>
      && s'.place == s.place && s'.returned == s.returned && s'.stable == s.stable - {k}
      && s.place.next != Some(k) && (ok <==> k in s.model) && s'.model == s.model - {k}
      && s'.rehashing == s.rehashing
      && if ok then
           || (s'.t1 == s.t1 && CutFrom(s.t0, s'.t0, k))
           || (s'.t0 == s.t0 && CutFrom(s.t1, s'.t1, k))
         else s'.t0 == s.t0 && s'.t1 == s.t1
    case Prepare =>
      && s' == s.(t0 := s'.t0, t1 := s'.t1, rehashing := s'.rehashing)
      && SetUp(s.t0, s.t1, s.rehashing, s'.t0, s'.t1, s'.rehashing)
    case Look => s' == s
  }

  ghost function ToCome(s: Iteration): seq<Key> {
    Rest(s.t0, s.t1, s.rehashing, s.place)
  }

  ghost predicate Tracked(s: Iteration) {
    PlaceOk(s.t0, s.t1, s.rehashing, s.place) && s.stable <= s.model.Keys && OnceEach(s.stable, s.returned, ToCome(s))
  }

  ghost predicate NextPresent(s: Iteration) {
    s.place.next.Some? ==> s.place.next.value in s.model
  }

  lemma InsertTracked(s: Iteration, a: Act, s': Iteration)
    requires Tracked(s) && NextPresent(s) && a.Insert? && Happens(s, a, s')
    ensures Tracked(s')
  {
    AddKeeps(s.t0, s.t1, s.rehashing, s'.t0, s'.t1, s'.rehashing, a.ok, (a.k, a.v), s.place);
    StillOnce(s.stable, s'.stable, s.returned, ToCome(s), ToCome(s'));
  }

  lemma RemoveTracked(s: Iteration, a: Act, s': Iteration)
    requires Tracked(s) && a.Remove? && Happens(s, a, s')
    ensures Tracked(s')
  {
    if a.ok {
      CutKeeps(s.t0, s.t1, s.rehashing, s'.t0, s'.t1, a.k, s.place);
    }
    StillOnce(s.stable, s'.stable, s.returned, ToCome(s), ToCome(s'));
  }

  lemma AdvanceTracked(s: Iteration, a: Act, s': Iteration)
    requires Tracked(s) && a.Advance? && Happens(s, a, s')
    ensures Tracked(s')
  {
    if a.r.Some? {
      OnceMore(s.stable, s.returned, ToCome(s), a.r.value.0, ToCome(s'));
    }
  }

  lemma PrepareTracked(s: Iteration, a: Act, s': Iteration)
    requires Tracked(s) && a.Prepare? && Happens(s, a, s')
    ensures Tracked(s')
  {
    SetUpKeeps(s.t0, s.t1, s.rehashing, s'.t0, s'.t1, s'.rehashing, s.place);
  }

  lemma ActTracked(s: Iteration, a: Act, s': Iteration)
    requires Tracked(s) && NextPresent(s) && Happens(s, a, s')
    ensures Tracked(s')
  {
    match a
    case Advance(_) => AdvanceTracked(s, a, s');
    case Insert(_, _, _) => InsertTracked(s, a, s');
    case Remove(_, _) => RemoveTracked(s, a, s');
    case Prepare => PrepareTracked(s, a, s');
    case Look =>
  }

  /**
    A run of an iterator over a dictionary that stands for its map all the time.  It begins with the
    first dictNext: before that the iterator is not counted, and entries may still move.
  */
  ghost predicate Run(hash: Key -> Unsigned, states: seq<Iteration>, acts: seq<Act>) {
    && |states| == |acts| + 1 && Begins(hash, states[0]) && (acts != [] ==> acts[0].Advance?)
    && AllMaps(hash, states) && AllHappen(states, acts)
  }

  ghost predicate AllMaps(hash: Key -> Unsigned, states: seq<Iteration>) {
    forall i | 0 <= i < |states| :: IsMap(hash, states[i])
  }

  ghost predicate AllHappen(states: seq<Iteration>, acts: seq<Act>)
    requires |states| == |acts| + 1
  {
    forall i | 0 <= i < |acts| :: HappensAt(states, acts, i)
  }

  ghost predicate HappensAt(states: seq<Iteration>, acts: seq<Act>, i: nat)
    requires i < |acts| && |states| == |acts| + 1
  {
    Happens(states[i], acts[i], states[i + 1])
  }

  ghost predicate IsMap(hash: Key -> Unsigned, s: Iteration) {
    Represents(hash, s.model, s.t0, s.t1)
  }

  lemma BeginTracked(hash: Key -> Unsigned, s: Iteration)
    requires Begins(hash, s)
    ensures Tracked(s)
  {
    forall x | x in s.stable
      ensures Times(x, ToCome(s)) == 1
    {
      RestAtStart(hash, s.model, s.t0, s.t1, s.rehashing, x);
    }
  }

  lemma NextIsThere(hash: Key -> Unsigned, s: Iteration)
    requires IsMap(hash, s) && Tracked(s)
    ensures NextPresent(s)
  {
    if s.place.next.Some? {
      NextIsPresent(hash, s.model, s.t0, s.t1, s.rehashing, s.place);
    }
  }

  lemma {:induction false} RunTracked(hash: Key -> Unsigned, states: seq<Iteration>, acts: seq<Act>, i: nat)
    requires Run(hash, states, acts) && i < |states|
    ensures Tracked(states[i])
  {
    if i == 0 {
      BeginTracked(hash, states[0]);
    } else {
      RunTracked(hash, states, acts, i - 1);
      NextIsThere(hash, states[i - 1]);
      assert HappensAt(states, acts, i - 1);
      ActTracked(states[i - 1], acts[i - 1], states[i]);
    }
  }

  /**
    When dictNext has nothing more to return, every key that was in the dictionary all the time has
    been returned exactly once, whatever was added, deleted or resized in between.
  */
  lemma ReturnedOnce(hash: Key -> Unsigned, states: seq<Iteration>, acts: seq<Act>, i: nat, x: Key)
    requires Run(hash, states, acts) && i < |acts| && acts[i] == Advance(None) && x in states[i].stable
    ensures Times(x, states[i].returned) == 1
  {
    RunTracked(hash, states, acts, i);
    assert HappensAt(states, acts, i);
    EndReturned(states[i], acts[i], states[i + 1], x);
  }

  lemma EndReturned(s: Iteration, a: Act, s': Iteration, x: Key)
    requires Tracked(s) && a == Advance(None) && Happens(s, a, s') && x in s.stable
    ensures Times(x, s.returned) == 1
  {
    assert ToCome(s) == [];
  }

  // --- runs of the operations themselves ---------------------------------------------------------------

  datatype Request =
    | AskNext
    | AskAdd(k: Key, v: Val, canResize: bool)
    | AskDelete(k: Key)
    | AskResize(canResize: bool)
    | AskFind(k: Key)

  ghost function State(it: Iterator, returned: seq<Key>, stable: set<Key>): Iteration
    reads it, it.d
  {
    Iteration(it.d.model, it.d.ht0, it.d.ht1, it.d.IsRehashing(), it.place, returned, stable)
  }

  /** The dictionary and the iterator are in this state, with the iterator counted. */
  ghost predicate Stands(it: Iterator, s: Iteration)
    reads it, it.d
  {
    it.d.Valid() && it.d.iterators > 0 && s == State(it, s.returned, s.stable)
  }

  /** dictNext, in the course of a run or at its beginning */
  method PerformNext(it: Iterator, ghost s: Iteration) returns (r: Option<(Key, Val)>, ghost s': Iteration)
    requires it.d.Valid() && s == State(it, s.returned, s.stable)
    requires PlaceOk(s.t0, s.t1, s.rehashing, s.place)
    requires it.place == START || it.d.iterators > 0
    modifies it, it.d`iterators
    ensures Stands(it, s') && Happens(s, Advance(r), s')
    ensures s'.returned == if r.Some? then s.returned + [r.value.0] else s.returned
  {
    r := it.Next();
    s' := State(it, if r.Some? then s.returned + [r.value.0] else s.returned, s.stable);
  }

  method PerformAdd(it: Iterator, k: Key, v: Val, canResize: bool, ghost s: Iteration)
    returns (ghost a: Act, ghost s': Iteration)
    requires Stands(it, s) && |it.d.model| <= MaxEntries()
    requires !WritesOutside(it.d, k, canResize)
    modifies it.d
    ensures Stands(it, s') && Happens(s, a, s') && s'.returned == s.returned
  {
    var r := it.d.Add(k, v, canResize);
    a := Insert(r.Added?, k, v);
    s' := State(it, s.returned, s.stable);
  }

  method PerformDelete(it: Iterator, k: Key, ghost s: Iteration) returns (ghost a: Act, ghost s': Iteration)
    requires Stands(it, s) && it.place.next != Some(k)
    modifies it.d
    ensures Stands(it, s') && Happens(s, a, s') && s'.returned == s.returned
  {
    var ok := it.d.Delete(k);
    a := Remove(ok, k);
    s' := State(it, s.returned, s.stable - {k});
  }

  method PerformResize(it: Iterator, canResize: bool, ghost s: Iteration) returns (ghost s': Iteration)
    requires Stands(it, s)
    modifies it.d
    ensures Stands(it, s') && Happens(s, Prepare, s') && s'.returned == s.returned
  {
    var ok := it.d.Resize(canResize);
    s' := State(it, s.returned, s.stable);
  }

  method PerformFind(it: Iterator, k: Key, ghost s: Iteration)
    requires Stands(it, s)
    modifies it.d
    ensures Stands(it, s)
  {
    var r := it.d.Find(k);
  }

  /** Adding this key would write outside its table. */
  predicate WritesOutside(d: Dict, k: Key, canResize: bool)
    requires d.Valid()
    reads d
  {
    INT_MAX < d.TakingSlot(k, canResize) < UINT_MAX
  }

  /** A request that the caller of a safe iterator may make */
  predicate May(it: Iterator, q: Request)
    requires it.d.Valid()
    reads it, it.d
  {
    match q
    case AskAdd(k, _, canResize) =>
      it.d.ht0.used + it.d.ht1.used <= MaxEntries() && !WritesOutside(it.d, k, canResize)
    case AskDelete(k) => it.place.next != Some(k)
    case _ => true
  }

  /** One request; `ended` tells that dictNext returned NULL */
  method Perform(it: Iterator, q: Request, ghost s: Iteration)
    returns (r: Option<(Key, Val)>, ended: bool, ghost a: Act, ghost s': Iteration)
    requires Stands(it, s) && Tracked(s) && May(it, q)
    modifies it, it.d
    ensures Stands(it, s') && Happens(s, a, s')
    ensures ended ==> a == Advance(None)
    ensures s'.returned == if r.Some? then s.returned + [r.value.0] else s.returned
  {
    r, ended := None, false;
    match q
    case AskNext =>
      r, s' := PerformNext(it, s);
      a, ended := Advance(r), r.None?;
    case AskAdd(k, v, canResize) =>
      a, s' := PerformAdd(it, k, v, canResize, s);
    case AskDelete(k) =>
      a, s' := PerformDelete(it, k, s);
    case AskResize(canResize) =>
      s' := PerformResize(it, canResize, s);
      a := Prepare;
    case AskFind(k) =>
      PerformFind(it, k, s);
      a, s' := Look, s;
  }

  lemma StillHappens(states: seq<Iteration>, acts: seq<Act>, states': seq<Iteration>, acts': seq<Act>, i: nat)
    requires i < |acts| && |states| == |acts| + 1 && HappensAt(states, acts, i)
    requires states <= states' && acts <= acts' && |states'| == |acts'| + 1
    ensures HappensAt(states', acts', i)
  {
    assert states'[i] == states[i] && states'[i + 1] == states[i + 1] && acts'[i] == acts[i];
  }

  lemma RunGrows(hash: Key -> Unsigned, states: seq<Iteration>, acts: seq<Act>, a: Act, s': Iteration)
    requires Run(hash, states, acts) && IsMap(hash, s') && Happens(states[|acts|], a, s')
    requires acts == [] ==> a.Advance?
    ensures Run(hash, states + [s'], acts + [a])
  {
    MapsGrow(hash, states, s');
    ActsGrow(states, acts, a, s', states + [s'], acts + [a]);
    assert (states + [s'])[0] == states[0] && (acts != [] ==> (acts + [a])[0] == acts[0]);
  }

  lemma MapsGrow(hash: Key -> Unsigned, states: seq<Iteration>, s': Iteration)
    requires AllMaps(hash, states) && IsMap(hash, s')
    ensures AllMaps(hash, states + [s'])
  {
  }

  lemma ActsGrow(states: seq<Iteration>, acts: seq<Act>, a: Act, s': Iteration, states': seq<Iteration>,
                 acts': seq<Act>)
    requires |states| == |acts| + 1 && AllHappen(states, acts) && Happens(states[|acts|], a, s')
    requires states' == states + [s'] && acts' == acts + [a]
    ensures AllHappen(states', acts')
  {
    HappensHere(states', acts', |acts|, states[|acts|], a, s');
    forall i | 0 <= i < |acts|
      ensures HappensAt(states', acts', i)
    {
      StillHappens(states, acts, states', acts', i);
    }
  }

  /** A new iterator is advanced for the first time. */
  method Open(it: Iterator) returns (r: Option<(Key, Val)>, ghost s: Iteration, ghost s': Iteration)
    requires it.d.Valid() && it.place == START
    modifies it, it.d`iterators
    ensures s == old(State(it, [], it.d.model.Keys)) && Run(it.d.hash, [s, s'], [Advance(r)])
    ensures Stands(it, s') && s'.returned == if r.Some? then [r.value.0] else []
  {
    s := State(it, [], it.d.model.Keys);
    assert Begins(it.d.hash, s);
    r, s' := PerformNext(it, s);
    FirstAct(it.d.hash, s, r, s');
  }

  lemma FirstAct(hash: Key -> Unsigned, s: Iteration, r: Option<(Key, Val)>, s': Iteration)
    requires Begins(hash, s) && IsMap(hash, s') && Happens(s, Advance(r), s')
    ensures Run(hash, [s, s'], [Advance(r)])
  {
    OneAct([s, s'], [Advance(r)], s, Advance(r), s');
    TwoMaps(hash, s, s');
  }

  lemma TwoMaps(hash: Key -> Unsigned, s: Iteration, s': Iteration)
    requires IsMap(hash, s) && IsMap(hash, s')
    ensures AllMaps(hash, [s, s'])
  {
    assert AllMaps(hash, [s]);
    MapsGrow(hash, [s], s');
    assert [s] + [s'] == [s, s'];
  }

  lemma OneAct(states: seq<Iteration>, acts: seq<Act>, s: Iteration, a: Act, s': Iteration)
    requires states == [s, s'] && acts == [a] && Happens(s, a, s')
    ensures AllHappen(states, acts)
  {
    HappensHere(states, acts, 0, s, a, s');
  }

  lemma HappensHere(states: seq<Iteration>, acts: seq<Act>, i: nat, s: Iteration, a: Act, s': Iteration)
    requires |states| == |acts| + 1 && i < |acts| && states[i] == s && acts[i] == a && states[i + 1] == s'
    requires Happens(s, a, s')
    ensures HappensAt(states, acts, i)
  {
  }

  /** A run goes on with a request, or stays as it is if the request must not be made. */
  method Continue(it: Iterator, q: Request, ghost states: seq<Iteration>, ghost acts: seq<Act>)
    returns (r: Option<(Key, Val)>, ended: bool, ghost states': seq<Iteration>, ghost acts': seq<Act>)
    requires acts != [] && Run(it.d.hash, states, acts) && Stands(it, states[|acts|])
    modifies it, it.d
    ensures acts' != [] && Run(it.d.hash, states', acts') && Stands(it, states'[|acts'|]) && states'[0] == states[0]
    ensures ended ==> acts'[|acts'| - 1] == Advance(None)
    ensures states'[|acts'|].returned ==
            if r.Some? then states[|acts|].returned + [r.value.0] else states[|acts|].returned
  {
    r, ended, states', acts' := None, false, states, acts;
    if May(it, q) {
      RunTracked(it.d.hash, states, acts, |acts|);
      ghost var a, s';
      r, ended, a, s' := Perform(it, q, states[|acts|]);
      RunGrows(it.d.hash, states, acts, a, s');
      states', acts' := states + [s'], acts + [a];
    }
  }

  /**
    The operations themselves, in any order: what they do to the dictionary and the iterator is a run.
    Once dictNext has returned NULL, every key that was there throughout has been returned exactly once.
  */
  method Iterate(it: Iterator, qs: seq<Request>)
    returns (returned: seq<Key>, ended: bool, ghost states: seq<Iteration>, ghost acts: seq<Act>)
    requires it.d.Valid() && it.place == START
    modifies it, it.d
    ensures Run(it.d.hash, states, acts) && states[0] == old(State(it, [], it.d.model.Keys))
    ensures Stands(it, states[|acts|]) && states[|acts|].returned == returned
    ensures ended ==> forall x | x in states[|acts|].stable :: Times(x, returned) == 1
  {
    ghost var s0, s;
    var r;
    r, s0, s := Open(it);
    states, acts, ended := [s0, s], [Advance(r)], r.None?;
    returned := if r.Some? then [r.value.0] else [];
    var i := 0;
    while i < |qs| && !ended
      invariant acts != [] && Run(it.d.hash, states, acts) && states[0] == s0
      invariant Stands(it, states[|acts|]) && states[|acts|].returned == returned
      invariant ended ==> acts[|acts| - 1] == Advance(None)
    {
      r, ended, states, acts := Continue(it, qs[i], states, acts);
      returned := if r.Some? then returned + [r.value.0] else returned;
      i := i + 1;
    }
    if ended {
      AllReturned(it.d.hash, states, acts);
    }
  }

  lemma AllReturned(hash: Key -> Unsigned, states: seq<Iteration>, acts: seq<Act>)
    requires Run(hash, states, acts) && |acts| > 0 && acts[|acts| - 1] == Advance(None)
    ensures forall x | x in states[|acts|].stable :: Times(x, states[|acts|].returned) == 1
  {
    var n := |acts| - 1;
    assert HappensAt(states, acts, n);
    forall x | x in states[|acts|].stable
      ensures Times(x, states[|acts|].returned) == 1
    {
      ReturnedOnce(hash, states, acts, n, x);
    }
  }
}
