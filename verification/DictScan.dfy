/**
  dictScan of project/network/redis/redis-3.2/src/dict.c, one call and whole runs.

  A run is any sequence of calls in which each continues at the cursor the last one
  returned.  Between calls the dictionary may have been changed in any way at all:
  a call is described by the map and the table sizes it found.
*/
module DictScan {
  import opened CInt
  import opened Words
  import opened ScanOrder
  import opened HashTable
  import opened Dict
  import opened BitReverse

  /** p0 and p1 are the exponents of the smaller and the larger table; `large` are the keys found in the larger. */
  datatype Call = Call(model: map<Key, Val>, large: set<Key>, p0: nat, p1: nat, v: nat, next: nat, emitted: Chain)

  /** The entry of a key with hash value h lies in a bucket this call goes through. */
  predicate Reaches(c: Call, k: Key, h: nat) {
    Low(h, c.p0) == Low(c.v, c.p0) && (k in c.large ==> Low(h, c.p1) >= Low(c.v, c.p1))
  }

  /** What one call promises: it emits exactly the entries it reaches and returns the next cursor. */
  ghost predicate Faithful(hash: Key -> Unsigned, c: Call) {
    && (c.model == map[] ==> c.next == 0 && c.emitted == [])
    && (c.model != map[] ==> c.p0 <= c.p1 <= WIDTH && c.next == Next(c.v, c.p0) && EmitsReached(hash, c))
  }

  ghost predicate EmitsReached(hash: Key -> Unsigned, c: Call) {
    && (forall e :: e in c.emitted ==> InMap(c.model, e))
    && (forall k :: k in c.model ==> ((k, c.model[k]) in c.emitted <==> Reaches(c, k, hash(k))))
  }

  ghost function Smaller(d: Dict): nat
    reads d
  {
    if d.IsRehashing() && |d.ht1.buckets| < |d.ht0.buckets| then Log2(|d.ht1.buckets|) else Log2(|d.ht0.buckets|)
  }

  ghost function Larger(d: Dict): nat
    reads d
  {
    if d.IsRehashing() && |d.ht1.buckets| >= |d.ht0.buckets| then Log2(|d.ht1.buckets|) else Log2(|d.ht0.buckets|)
  }

  // The keys whose entry is in the larger of two tables.
  ghost function InLarger(d: Dict): set<Key>
    reads d
  {
    if !d.IsRehashing() then {}
    else KeysIn(d.hash, d.model, if |d.ht0.buckets| > |d.ht1.buckets| then d.ht0 else d.ht1)
  }

  ghost function KeysIn(hash: Key -> Unsigned, model: map<Key, Val>, t: Table): set<Key> {
    set k | k in model && Holds(hash, t, (k, model[k]))
  }

  /** dictScan on words of n bits; the source's PORT_ULONG has n == WIDTH. */
  method Scan(d: Dict, v0: nat, n: nat) returns (v: nat, emitted: Chain)
    requires d.Valid() && v0 < Pow2(n) && n >= WIDTH && IsPow2(n)
    ensures Faithful(d.hash, Call(d.model, InLarger(d), Smaller(d), Larger(d), v0, v, emitted))
    ensures v < Pow2(n)
  {
    if d.ht0.used + d.ht1.used == 0 {
      return 0, [];
    }
    v := v0;
    if !d.IsRehashing() {
      var t0 := d.ht0;
      NonEmpty(d.hash, d.model, d.ht0);
      emitted := t0.buckets[Slot(v, |t0.buckets|)];
      v := Advance(v, |t0.buckets| - 1, n);
      SingleTable(d.hash, d.model, d.ht0, v0, v, emitted);
    } else {
      var t0, t1 := d.ht0, d.ht1;
      if |t0.buckets| > |t1.buckets| {
        t0, t1 := d.ht1, d.ht0;
        SwapRepresents(d.hash, d.model, t1, t0);
      }
      v, emitted := ScanBoth(t0, t1, v, n, d.hash, d.model);
    }
  }

  // The branch for two tables, t0 being the smaller.
  method ScanBoth(t0: Table, t1: Table, v0: nat, n: nat, ghost hash: Key -> Unsigned, ghost model: map<Key, Val>)
    returns (v: nat, emitted: Chain)
    requires Represents(hash, model, t0, t1) && t0.buckets != [] && |t0.buckets| <= |t1.buckets|
    requires v0 < Pow2(n) && n >= WIDTH && IsPow2(n)
    ensures v == Next(v0, Log2(|t0.buckets|)) && v < Pow2(n) && Log2(|t0.buckets|) <= Log2(|t1.buckets|) <= WIDTH
    ensures EmitsReached(hash,
      Call(model, KeysIn(hash, model, t1), Log2(|t0.buckets|), Log2(|t1.buckets|), v0, v, emitted))
  {
    Log2Ordered(|t0.buckets|, |t1.buckets|);
    emitted := t0.buckets[Slot(v0, |t0.buckets|)];
    var more;
    v, more := ScanLarger(t1, v0, |t0.buckets| - 1, n);
    NextOfLow(v, v0, Log2(|t0.buckets|));
    v := Advance(v, |t0.buckets| - 1, n);
    TwoTables(hash, model, t0, t1, v0, v, emitted, more);
    emitted := emitted + more;
  }

  // Lines 928-935: the reversed increment of the bits inside the smaller mask.
  method Advance(v0: nat, m0: nat, n: nat) returns (v: nat)
    requires IsPow2(m0 + 1) && Log2(m0 + 1) <= n && v0 < Pow2(n) && IsPow2(n)
    ensures v == Next(v0, Log2(m0 + 1)) && v < Pow2(n)
  {
    CursorStep(v0, Log2(m0 + 1), n);
    Pow2Monotone(Log2(m0 + 1), n);
    v := Or(v0, Not(m0, n));
    OrBelow(v0, Not(m0, n), n);
    v := Rev(v, n, Log2(n));
    v := Plus(v, 1, n);
    v := Rev(v, n, Log2(n));
  }

  /** The expansions of the cursor's bucket in the larger table, from the cursor's own on. */
  method ScanLarger(t: Table, v0: nat, m0: nat, n: nat) returns (v: nat, emitted: Chain)
    requires IsPow2(|t.buckets|) && IsPow2(m0 + 1) && m0 < |t.buckets| && Log2(|t.buckets|) <= n && v0 < Pow2(n)
    ensures v < Pow2(n) && Low(v, Log2(m0 + 1)) == Low(v0, Log2(m0 + 1))
    ensures CoversUpTo(t, emitted, Log2(m0 + 1), Low(v0, Log2(m0 + 1)), Low(v0, Log2(|t.buckets|)), |t.buckets|)
    ensures FromTable(t, emitted, Log2(m0 + 1), Low(v0, Log2(m0 + 1)), Low(v0, Log2(|t.buckets|)))
  {
    ghost var p0, p1 := Log2(m0 + 1), Log2(|t.buckets|);
    ghost var low, start := Low(v0, p0), Low(v0, p1);
    Log2Ordered(m0 + 1, |t.buckets|);
    v, emitted := v0, [];
    var more := true;
    while more
      invariant v < Pow2(n) && Low(v, p0) == low
      invariant more ==> Low(v, p1) >= start && CoversUpTo(t, emitted, p0, low, start, Low(v, p1))
      invariant !more ==> CoversUpTo(t, emitted, p0, low, start, |t.buckets|)
      invariant FromTable(t, emitted, p0, low, start)
      decreases more, |t.buckets| - Low(v, p1)
    {
      LowOfLow(v, p0, p1);
      CoverMore(t, emitted, p0, low, start, Low(v, p1));
      FromMore(t, emitted, p0, low, start, Low(v, p1));
      emitted := emitted + t.buckets[Slot(v, |t.buckets|)];
      v, more := NextExpansion(v, m0, |t.buckets| - 1, n);
    }
  }

  // Lines 921-925.
  method NextExpansion(v0: nat, m0: nat, m1: nat, n: nat) returns (v: nat, more: bool)
    requires IsPow2(m0 + 1) && IsPow2(m1 + 1) && Log2(m0 + 1) <= Log2(m1 + 1) <= n && v0 < Pow2(n)
    ensures v < Pow2(n) && Low(v, Log2(m0 + 1)) == Low(v0, Log2(m0 + 1))
    ensures more <==> Low(v0, Log2(m1 + 1)) + (m0 + 1) < m1 + 1
    ensures more ==> Low(v, Log2(m1 + 1)) == Low(v0, Log2(m1 + 1)) + (m0 + 1)
  {
    Expansion(v0, m0, m1, Log2(m0 + 1), Log2(m1 + 1), n);
    v := Or(And(Plus(Or(v0, m0), 1, n), Not(m0, n)), And(v0, m0));
    more := And(v, Xor(m0, m1)) != 0;
  }

  lemma Expansion(v: nat, m0: nat, m1: nat, p0: nat, p1: nat, n: nat)
    requires p0 <= p1 <= n && v < Pow2(n) && m0 + 1 == Pow2(p0) && m1 + 1 == Pow2(p1)
    ensures m0 + 1 <= Pow2(n)
    ensures var v' := Or(And(Plus(Or(v, m0), 1, n), Not(m0, n)), And(v, m0));
      && v' < Pow2(n) && Low(v', p0) == Low(v, p0)
      && (And(v', Xor(m0, m1)) != 0 <==> Low(v, p1) + (m0 + 1) < m1 + 1)
      && (And(v', Xor(m0, m1)) != 0 ==> Low(v', p1) == Low(v, p1) + (m0 + 1))
  {
    LoopTurn(v, p0, p1, n);
  }

  lemma NonEmpty(hash: Key -> Unsigned, model: map<Key, Val>, t: Table)
    requires Represents(hash, model, t, EMPTY) && t.used > 0
    ensures t.buckets != []
  {
  }

  /** Outside a rehash the one bucket holds every key it should. */
  lemma SingleTable(hash: Key -> Unsigned, model: map<Key, Val>, t: Table, v: nat, next: nat, emitted: Chain)
    requires Represents(hash, model, t, EMPTY) && t.buckets != [] && emitted == t.buckets[Slot(v, |t.buckets|)]
    ensures EmitsReached(hash, Call(model, {}, Log2(|t.buckets|), Log2(|t.buckets|), v, next, emitted))
  {
    var b := Slot(v, |t.buckets|);
    assert ChainOk(hash, model, t.buckets[b], b, |t.buckets|);
    forall k | k in model && Low(hash(k), Log2(|t.buckets|)) == b ensures (k, model[k]) in emitted {
      assert Holds(hash, t, (k, model[k]));
    }
  }

  /** During a rehash a key is in one of the two tables; either way its bucket is emitted if visited. */
  lemma TwoTables(hash: Key -> Unsigned, model: map<Key, Val>, t0: Table, t1: Table, v: nat, next: nat, some: Chain,
                  more: Chain)
    requires Represents(hash, model, t0, t1) && t0.buckets != [] && t1.buckets != [] && |t0.buckets| <= |t1.buckets|
    requires some == t0.buckets[Slot(v, |t0.buckets|)]
    requires var p0, p1 := Log2(|t0.buckets|), Log2(|t1.buckets|);
      CoversUpTo(t1, more, p0, Low(v, p0), Low(v, p1), |t1.buckets|) && FromTable(t1, more, p0, Low(v, p0), Low(v, p1))
    ensures EmitsReached(hash,
      Call(model, KeysIn(hash, model, t1), Log2(|t0.buckets|), Log2(|t1.buckets|), v, next, some + more))
  {
    var p0, p1 := Log2(|t0.buckets|), Log2(|t1.buckets|);
    var c := Call(model, KeysIn(hash, model, t1), p0, p1, v, next, some + more);
    Log2Ordered(|t0.buckets|, |t1.buckets|);
    forall e | e in some + more ensures InMap(model, e) {
      if e in some {
        InBucket(hash, model, t0, e, Slot(v, |t0.buckets|));
      } else {
        var a :| 0 <= a < |t1.buckets| && e in t1.buckets[a];
        InBucket(hash, model, t1, e, a);
      }
    }
    forall k | k in model ensures (k, model[k]) in some + more <==> Reaches(c, k, hash(k)) {
      LowOfLow(hash(k), p0, p1);
      if Holds(hash, t1, (k, model[k])) {
        KeyInLarger(hash, model, t0, t1, v, some, more, k);
      } else {
        KeyInSmaller(hash, model, t0, t1, v, some, more, k);
      }
    }
  }

  lemma InBucket(hash: Key -> Unsigned, model: map<Key, Val>, t: Table, e: (Key, Val), b: nat)
    requires TableOk(hash, model, t) && b < |t.buckets| && e in t.buckets[b]
    ensures InMap(model, e) && Slot(hash(e.0), |t.buckets|) == b && Holds(hash, t, e)
  {
    assert ChainOk(hash, model, t.buckets[b], b, |t.buckets|);
  }

  lemma KeyInLarger(hash: Key -> Unsigned, model: map<Key, Val>, t0: Table, t1: Table, v: nat, some: Chain, more: Chain,
                    k: Key)
    requires Represents(hash, model, t0, t1) && t0.buckets != [] && t1.buckets != []
    requires some == t0.buckets[Slot(v, |t0.buckets|)] && Log2(|t0.buckets|) <= Log2(|t1.buckets|)
    requires var p0, p1 := Log2(|t0.buckets|), Log2(|t1.buckets|);
      CoversUpTo(t1, more, p0, Low(v, p0), Low(v, p1), |t1.buckets|) && FromTable(t1, more, p0, Low(v, p0), Low(v, p1))
    requires k in model && Holds(hash, t1, (k, model[k]))
    ensures var p0, p1 := Log2(|t0.buckets|), Log2(|t1.buckets|);
      (k, model[k]) in some + more <==> Low(hash(k), p0) == Low(v, p0) && Low(hash(k), p1) >= Low(v, p1)
  {
    var p0, p1 := Log2(|t0.buckets|), Log2(|t1.buckets|);
    var e := (k, model[k]);
    LowOfLow(hash(k), p0, p1);
    if e in some {
      InBucket(hash, model, t0, e, Slot(v, |t0.buckets|));
    }
    if e in more {
      var a :| 0 <= a < |t1.buckets| && e in t1.buckets[a] && Low(a, p0) == Low(v, p0) && a >= Low(v, p1);
      InBucket(hash, model, t1, e, a);
    }
  }

  lemma KeyInSmaller(hash: Key -> Unsigned, model: map<Key, Val>, t0: Table, t1: Table, v: nat, some: Chain,
                     more: Chain, k: Key)
    requires Represents(hash, model, t0, t1) && t0.buckets != [] && t1.buckets != []
    requires some == t0.buckets[Slot(v, |t0.buckets|)]
    requires FromTable(t1, more, Log2(|t0.buckets|), Low(v, Log2(|t0.buckets|)), Low(v, Log2(|t1.buckets|)))
    requires k in model && !Holds(hash, t1, (k, model[k]))
    ensures (k, model[k]) in some + more <==> Low(hash(k), Log2(|t0.buckets|)) == Low(v, Log2(|t0.buckets|))
  {
    var e := (k, model[k]);
    assert Holds(hash, t0, e);
    if e in some {
      InBucket(hash, model, t0, e, Slot(v, |t0.buckets|));
    }
    NotInMore(hash, model, t0, t1, v, more, e);
  }

  lemma NotInMore(hash: Key -> Unsigned, model: map<Key, Val>, t0: Table, t1: Table, v: nat, more: Chain, e: (Key, Val))
    requires TableOk(hash, model, t1)
    requires FromTable(t1, more, Log2(|t0.buckets|), Low(v, Log2(|t0.buckets|)), Low(v, Log2(|t1.buckets|)))
    requires !Holds(hash, t1, e)
    ensures e !in more
  {
    forall a | 0 <= a < |t1.buckets| && e in t1.buckets[a] ensures false {
      InBucket(hash, model, t1, e, a);
    }
  }

  /** Every bucket from `start` up to `end` that extends the bucket `low` has been emitted. */
  ghost predicate CoversUpTo(t: Table, emitted: Chain, p0: nat, low: nat, start: nat, end: nat) {
    forall b, e | 0 <= b < |t.buckets| && e in t.buckets[b] ::
      Low(b, p0) == low && start <= b < end ==> e in emitted
  }

  /** Nothing else has been emitted. */
  ghost predicate FromTable(t: Table, emitted: Chain, p0: nat, low: nat, start: nat) {
    forall e | e in emitted ::
      exists b :: 0 <= b < |t.buckets| && e in t.buckets[b] && Low(b, p0) == low && b >= start
  }

  lemma CoverMore(t: Table, emitted: Chain, p0: nat, low: nat, start: nat, c: nat)
    requires CoversUpTo(t, emitted, p0, low, start, c) && Low(c, p0) == low && c < |t.buckets|
    ensures CoversUpTo(t, emitted + t.buckets[c], p0, low, start, c + Pow2(p0))
  {
    forall b, e | 0 <= b < |t.buckets| && e in t.buckets[b] && Low(b, p0) == low && start <= b < c + Pow2(p0)
      ensures e in emitted + t.buckets[c]
    {
      NotBeyond(b, c, p0);
      assert b < c ==> e in emitted;
    }
  }

  lemma NotBeyond(b: nat, c: nat, p: nat)
    requires Low(b, p) == Low(c, p) && b < c + Pow2(p)
    ensures b <= c
  {
    if b > c {
      SameLowApart(b, c, p);
    }
  }

  lemma FromMore(t: Table, emitted: Chain, p0: nat, low: nat, start: nat, c: nat)
    requires FromTable(t, emitted, p0, low, start) && Low(c, p0) == low && start <= c < |t.buckets|
    ensures FromTable(t, emitted + t.buckets[c], p0, low, start)
  {
    forall e | e in emitted + t.buckets[c]
      ensures exists b :: 0 <= b < |t.buckets| && e in t.buckets[b] && Low(b, p0) == low && b >= start
    {
      if e !in emitted {
        assert e in t.buckets[c];
      }
    }
  }

  // --- whole runs ----------------------------------------------------------------------

  /** From cursor 0, each call where the last one stopped */
  ghost predicate Chained(hash: Key -> Unsigned, calls: seq<Call>) {
    && |calls| > 0 && calls[0].v == 0
    && (forall i :: 0 <= i < |calls| ==> Faithful(hash, calls[i]))
    && (forall i :: 0 < i < |calls| ==> calls[i].v == calls[i - 1].next)
  }

  /** ... until cursor 0 comes back */
  ghost predicate Run(hash: Key -> Unsigned, calls: seq<Call>) {
    Chained(hash, calls) && calls[|calls| - 1].next == 0
  }

  ghost predicate Emits(c: Call, k: Key) {
    k in c.model && (k, c.model[k]) in c.emitted
  }

  ghost predicate NeverEmits(calls: seq<Call>, k: Key) {
    forall i :: 0 <= i < |calls| ==> k in calls[i].model && !Emits(calls[i], k)
  }

  /** The bits of the cursor that only the larger table looks at have the form 0..01..1. */
  predicate Guarded(c: Call) {
    c.p0 <= c.p1 && AllOnes(Mid(c.v, c.p0, c.p1))
  }

  /**
    The guarantee of SCAN: a key that every call of a run found in the dictionary is emitted by
    one of them, whatever else was added, deleted, rehashed or resized between the calls.
  */
  lemma StableKeyIsEmitted(hash: Key -> Unsigned, calls: seq<Call>, k: Key)
    requires Run(hash, calls)
    requires forall i :: 0 <= i < |calls| ==> k in calls[i].model && Guarded(calls[i])
    ensures exists i :: 0 <= i < |calls| && Emits(calls[i], k)
  {
    ReverseZero(WIDTH);
    HashFits(hash(k));
    var i := EmittedFrom(hash, calls, k, WIDTH, 0);
  }

  lemma HashFits(h: Unsigned)
    ensures h < Pow2(WIDTH)
  {
    HalfOf32();
    Pow2Monotone(32, WIDTH);
  }

  lemma {:induction false} EmittedFrom(hash: Key -> Unsigned, calls: seq<Call>, k: Key, n: nat, i: nat) returns (j: nat)
    requires Run(hash, calls) && n >= WIDTH && hash(k) < Pow2(n) && i < |calls|
    requires forall i :: 0 <= i < |calls| ==> k in calls[i].model && Guarded(calls[i])
    requires Reverse(calls[i].v, n) <= Reverse(hash(k), n)
    ensures j < |calls| && Emits(calls[j], k)
    decreases |calls| - i
  {
    var c, h := calls[i], hash(k);
    if Due(c.v, h, c.p0, n) {
      DueIsOneBucket(c.v, h, c.p0, n);
      GuardSuffices(c.v, h, c.p0, c.p1, n);
      assert Reaches(c, k, h);
      j := i;
    } else {
      j := EmittedFrom(hash, calls, k, n, i + 1);
    }
  }

  /** From call to call the smaller table stays as it is or grows. */
  ghost predicate Growing(calls: seq<Call>) {
    forall i :: 0 < i < |calls| ==> calls[i - 1].p0 <= calls[i].p0
  }

  /** Then the cursor always fits the smaller table, and every call is guarded. */
  lemma GrowthIsGuarded(hash: Key -> Unsigned, calls: seq<Call>, i: nat)
    requires Chained(hash, calls) && Growing(calls) && i < |calls|
    requires forall i :: 0 <= i < |calls| ==> calls[i].model != map[]
    ensures calls[i].v < Pow2(calls[i].p0) && Guarded(calls[i])
  {
    if i > 0 {
      Pow2Monotone(calls[i - 1].p0, calls[i].p0);
    }
    GuardHolds(calls[i].v, calls[i].p0, calls[i].p1);
  }

  /** So a table that only grows never makes a scan miss a key. */
  lemma GrowingScanIsComplete(hash: Key -> Unsigned, calls: seq<Call>, k: Key)
    requires Run(hash, calls) && Growing(calls)
    requires forall i :: 0 <= i < |calls| ==> k in calls[i].model
    ensures exists i :: 0 <= i < |calls| && Emits(calls[i], k)
  {
    forall i | 0 <= i < |calls|
      ensures Guarded(calls[i])
    {
      GrowthIsGuarded(hash, calls, i);
    }
    StableKeyIsEmitted(hash, calls, k);
  }

  /** The smaller table has 2^p buckets in every call, and the scan has not ended before the last one. */
  ghost predicate Steady(calls: seq<Call>, p: nat) {
    && (forall i :: 0 <= i < |calls| ==> calls[i].model != map[] && calls[i].p0 == p)
    && (forall i :: 0 <= i < |calls| - 1 ==> calls[i].next != 0)
  }

  /**
    Without a resize a scan always ends, after exactly one call per bucket of the smaller table: the
    cursor is 0 after that many calls and not before, and no scan is longer.
  */
  lemma ReturnsAfterSize(hash: Key -> Unsigned, calls: seq<Call>, p: nat)
    requires Chained(hash, calls) && Steady(calls, p)
    ensures calls[|calls| - 1].next == 0 <==> |calls| == Pow2(p)
    ensures |calls| <= Pow2(p)
  {
    PlaceOfCall(hash, calls, p, |calls| - 1);
    LastPlace(calls[|calls| - 1].v, p, |calls| - 1);
  }

  /** The cursor at the last place, and no other, is followed by 0. */
  lemma LastPlace(v: nat, p: nat, place: nat)
    requires Reverse(v, p) == place
    ensures place < Pow2(p) && (Next(v, p) == 0 <==> place + 1 == Pow2(p))
  {
    ReverseBelow(v, p);
    NextPlace(v, p);
    if Next(v, p) == 0 {
      ReverseZero(p);
    } else {
      NonZero(Next(v, p), p);
    }
  }

  lemma {:induction false} PlaceOfCall(hash: Key -> Unsigned, calls: seq<Call>, p: nat, i: nat)
    requires Chained(hash, calls) && Steady(calls, p) && i < |calls|
    ensures Reverse(calls[i].v, p) == i
  {
    if i == 0 {
      ReverseZero(p);
    } else {
      PlaceOfCall(hash, calls, p, i - 1);
      NextPlace(calls[i - 1].v, p);
      NonZero(calls[i].v, p);
    }
  }

  // --- a scan of a dictionary that does not change ------------------------------------------

  ghost function CallOn(d: Dict, v: nat, next: nat, emitted: Chain): Call
    reads d
  {
    Call(d.model, InLarger(d), Smaller(d), Larger(d), v, next, emitted)
  }

  /** The calls so far, where they have led and what they have emitted */
  ghost predicate Scanned(d: Dict, calls: seq<Call>, cursor: nat, emitted: Chain)
    reads d
  {
    && Chained(d.hash, calls) && calls[|calls| - 1].next == cursor
    && (forall i :: 0 <= i < |calls| ==> calls[i] == CallOn(d, calls[i].v, calls[i].next, calls[i].emitted))
    && (forall i :: 0 <= i < |calls| - 1 ==> calls[i].next != 0)
    && (forall i, e :: 0 <= i < |calls| && e in calls[i].emitted ==> e in emitted)
  }

  lemma ScanBegins(d: Dict, cursor: nat, emitted: Chain, calls: seq<Call>)
    requires calls == [CallOn(d, 0, cursor, emitted)] && Faithful(d.hash, calls[0])
    ensures Scanned(d, calls, cursor, emitted)
  {
  }

  lemma ScanGoesOn(d: Dict, calls: seq<Call>, cursor: nat, emitted: Chain, next: nat, more: Chain)
    requires Scanned(d, calls, cursor, emitted) && cursor != 0
    requires Faithful(d.hash, CallOn(d, cursor, next, more))
    ensures Scanned(d, calls + [CallOn(d, cursor, next, more)], next, emitted + more)
  {
  }

  /** With n calls made, the scan is over exactly when it should be. */
  ghost predicate OnTime(d: Dict, n: nat, cursor: nat)
    reads d
  {
    if d.model == map[] then cursor == 0 && n == 1
    else n <= Pow2(Smaller(d)) && (cursor == 0 <==> n == Pow2(Smaller(d)))
  }

  lemma ScanLength(d: Dict, calls: seq<Call>, cursor: nat, emitted: Chain)
    requires Scanned(d, calls, cursor, emitted)
    ensures OnTime(d, |calls|, cursor)
  {
    if d.model == map[] {
      assert calls[0].next == 0;
    } else {
      ReturnsAfterSize(d.hash, calls, Smaller(d));
    }
  }

  lemma ScanComplete(d: Dict, calls: seq<Call>, emitted: Chain, k: Key)
    requires Scanned(d, calls, 0, emitted) && k in d.model
    ensures (k, d.model[k]) in emitted
  {
    GrowingScanIsComplete(d.hash, calls, k);
    var i :| 0 <= i < |calls| && Emits(calls[i], k);
  }

  /**
    Calling dictScan until it returns 0: the loop ends, after one call for each bucket of the smaller
    table, and every entry has been emitted.
  */
  method ScanAll(d: Dict) returns (emitted: Chain, calls: nat)
    requires d.Valid()
    ensures calls == if d.model == map[] then 1 else Pow2(Smaller(d))
    ensures forall k :: k in d.model ==> (k, d.model[k]) in emitted
  {
    var cursor: nat;
    ghost var made;
    cursor, emitted, made := FirstScan(d);
    calls := 1;
    while cursor != 0
      invariant calls == |made| && Scanned(d, made, cursor, emitted) && cursor < Pow2(WIDTH)
      invariant OnTime(d, calls, cursor)
      decreases Pow2(Smaller(d)) - calls
    {
      cursor, emitted, made := ScanMore(d, cursor, emitted, made);
      calls := calls + 1;
    }
    AllScanned(d, made, emitted);
  }

  method FirstScan(d: Dict) returns (cursor: nat, emitted: Chain, ghost made: seq<Call>)
    requires d.Valid()
    ensures |made| == 1 && Scanned(d, made, cursor, emitted) && cursor < Pow2(WIDTH) && OnTime(d, 1, cursor)
  {
    WordIsPower();
    cursor, emitted := Scan(d, 0, WIDTH);
    made := [CallOn(d, 0, cursor, emitted)];
    ScanBegins(d, cursor, emitted, made);
    ScanLength(d, made, cursor, emitted);
  }

  method ScanMore(d: Dict, v: nat, before: Chain, ghost made: seq<Call>)
    returns (cursor: nat, emitted: Chain, ghost made': seq<Call>)
    requires d.Valid() && Scanned(d, made, v, before) && 0 < v < Pow2(WIDTH)
    ensures |made'| == |made| + 1 && Scanned(d, made', cursor, emitted) && cursor < Pow2(WIDTH)
    ensures OnTime(d, |made'|, cursor)
  {
    WordIsPower();
    var more;
    cursor, more := Scan(d, v, WIDTH);
    ScanGoesOn(d, made, v, before, cursor, more);
    made' := made + [CallOn(d, v, cursor, more)];
    emitted := before + more;
    ScanLength(d, made', cursor, emitted);
  }

  lemma AllScanned(d: Dict, calls: seq<Call>, emitted: Chain)
    requires Scanned(d, calls, 0, emitted)
    ensures forall k :: k in d.model ==> (k, d.model[k]) in emitted
  {
    forall k | k in d.model
      ensures (k, d.model[k]) in emitted
    {
      ScanComplete(d, calls, emitted, k);
    }
  }

  lemma WordIsPower()
    ensures IsPow2(WIDTH) && 0 < Pow2(WIDTH)
  {
    Log2OfPow2(6);
    assert Pow2(6) == WIDTH;
    Pow2Monotone(0, WIDTH);
  }

  /**
    Without the guard the guarantee fails: a table of 16 buckets starts shrinking to 4 after the
    first call, and a key with hash value 4 is never emitted although it is there all the time.
  */
  lemma UnguardedKeyIsMissed(hash: Key -> Unsigned, k: Key, v: Val)
    requires hash(k) == 4
    ensures exists calls: seq<Call> :: Run(hash, calls) && NeverEmits(calls, k)
  {
    var m := map[k := v];
    var a, b := Call(m, {}, 4, 4, 0, 8, []), Call(m, {k}, 2, 4, 8, 2, []);
    var c, d, e := Call(m, {k}, 2, 4, 2, 1, []), Call(m, {k}, 2, 4, 1, 3, []), Call(m, {k}, 2, 4, 3, 0, []);
    SampleCursors();
    MissingCall(hash, k, v, a);
    MissingCall(hash, k, v, b);
    MissingCall(hash, k, v, c);
    MissingCall(hash, k, v, d);
    MissingCall(hash, k, v, e);
    RunOfFive(hash, k, a, b, c, d, e);
  }

  lemma RunOfFive(hash: Key -> Unsigned, k: Key, a: Call, b: Call, c: Call, d: Call, e: Call)
    requires Faithful(hash, a) && Faithful(hash, b) && Faithful(hash, c) && Faithful(hash, d) && Faithful(hash, e)
    requires a.v == e.next == 0 && a.next == b.v && b.next == c.v && c.next == d.v && d.next == e.v
    requires k in a.model && k in b.model && k in c.model && k in d.model && k in e.model
    requires !Emits(a, k) && !Emits(b, k) && !Emits(c, k) && !Emits(d, k) && !Emits(e, k)
    ensures Run(hash, [a, b, c, d, e]) && NeverEmits([a, b, c, d, e], k)
  {
  }

  /** The same on a dictionary: its only key is not among what the calls from cursor 0 to cursor 0 emit. */
  method ScanWhileShrinking(hash: Key -> Unsigned, k: Key, v: Val) returns (d: Dict, cursor: nat, emitted: Chain)
    requires hash(k) == 4
    ensures fresh(d) && d.Valid() && d.hash == hash && d.model == map[k := v]
    ensures cursor == 0 && emitted == []
  {
    d := SixteenBuckets(hash, k, v);
    SampleCursors();
    cursor, emitted := ScanMissing(d, 0, k, v);
    StartShrinking(d, k, v);
    var more;
    cursor, more := ScanRest(d, cursor, k, v);
    emitted := emitted + more;
  }

  ghost predicate Shrinking(d: Dict, k: Key)
    reads d
  {
    Smaller(d) == 2 && Larger(d) == 4 && InLarger(d) == {k}
  }

  method ScanRest(d: Dict, v0: nat, k: Key, v: Val) returns (cursor: nat, emitted: Chain)
    requires d.Valid() && d.hash(k) == 4 && d.model == map[k := v] && Shrinking(d, k) && Left(v0) >= 0
    ensures cursor == 0 && emitted == []
  {
    cursor, emitted := v0, [];
    while cursor != 0
      invariant emitted == [] && Left(cursor) >= 0
      decreases Left(cursor)
    {
      MissingCursor(cursor);
      var more;
      cursor, more := ScanMissing(d, cursor, k, v);
      emitted := emitted + more;
    }
  }

  /** How many calls are to come, at the cursors that follow 0 in this run */
  function Left(cursor: nat): int {
    if cursor == 8 then 4 else if cursor == 2 then 3 else if cursor == 1 then 2 else if cursor == 3 then 1
    else if cursor == 0 then 0 else -1
  }

  lemma MissingCursor(cursor: nat)
    requires 0 < Left(cursor)
    ensures 0 <= Left(Next(cursor, 2)) < Left(cursor) && Skipped(cursor, 4, 2, 4)
  {
    SampleCursors();
  }

  predicate Skipped(v: nat, h: nat, p0: nat, p1: nat) {
    Low(h, p0) != Low(v, p0) || Low(h, p1) < Low(v, p1)
  }

  lemma HeldByFirst(d: Dict, k: Key, v: Val)
    requires d.Valid() && d.model == map[k := v] && d.IsRehashing()
    requires |d.ht0.buckets| == 16 && |d.ht1.buckets| == 4 && d.ht0.used == 1
    ensures Smaller(d) == 2 && Larger(d) == 4 && InLarger(d) == {k}
  {
    TotalZero(d.ht1.buckets);
    assert k in d.model;
    assert Log2(16) == 4 && Log2(4) == 2;
  }

  lemma SampleSizes()
    ensures NextPower(4) == 4 && NextPower(16) == 16 && Log2(16) == 4 && 16 <= MaxEntries() <= MaxBuckets()
  {
    assert Pow2(2) == 4 && Pow2(3) == 8 && Pow2(4) == 16;
    assert NextPowerFrom(16, 3) == NextPowerFrom(16, 4) == 16;
    Pow2Monotone(4, WIDTH - 5);
    Pow2Monotone(WIDTH - 5, WIDTH - 4);
  }

  method StartShrinking(d: Dict, k: Key, v: Val)
    requires d.Valid() && d.model == map[k := v]
    requires !d.IsRehashing() && |d.ht0.buckets| == 16 && d.ht0.used == 1
    modifies d
    ensures d.Valid() && d.model == map[k := v] && Shrinking(d, k)
  {
    SampleSizes();
    var ok := d.Resize(true);
    HeldByFirst(d, k, v);
  }

  method SixteenBuckets(hash: Key -> Unsigned, k: Key, v: Val) returns (d: Dict)
    ensures fresh(d) && d.Valid() && d.hash == hash && d.model == map[k := v]
    ensures !d.IsRehashing() && |d.ht0.buckets| == 16 && d.ht0.used == 1 && Smaller(d) == 4
  {
    SampleSizes();
    d := new Dict(hash);
    var ok := d.Expand(16);
    AddWithRoom(d, k, v, 16);
  }

  method ScanMissing(d: Dict, v0: nat, k: Key, v: Val) returns (next: nat, emitted: Chain)
    requires d.Valid() && d.model == map[k := v] && v0 < 16
    requires Skipped(v0, d.hash(k), Smaller(d), Larger(d))
    requires k in InLarger(d) || Low(d.hash(k), Smaller(d)) != Low(v0, Smaller(d))
    ensures emitted == [] && next == Next(v0, Smaller(d))
  {
    assert Pow2(4) == 16;
    Pow2Monotone(4, WIDTH);
    Log2OfPow2(6);
    assert Pow2(6) == WIDTH;
    next, emitted := Scan(d, v0, WIDTH);
    NothingReached(d.hash, Call(d.model, InLarger(d), Smaller(d), Larger(d), v0, next, emitted), k, v);
  }

  lemma NothingReached(hash: Key -> Unsigned, c: Call, k: Key, v: Val)
    requires Faithful(hash, c) && c.model == map[k := v] && !Reaches(c, k, hash(k))
    ensures c.emitted == [] && c.next == Next(c.v, c.p0)
  {
    assert k in c.model;
    assert forall e :: e in c.emitted ==> e == (k, v);
    OnlyOne(c.emitted, (k, v));
  }

  lemma OnlyOne(c: Chain, e: (Key, Val))
    requires forall x :: x in c ==> x == e
    ensures e !in c ==> c == []
  {
    assert c != [] ==> c[0] in c;
  }

  lemma SampleCursors()
    ensures Next(0, 4) == 8 && Next(8, 2) == 2 && Next(2, 2) == 1 && Next(1, 2) == 3 && Next(3, 2) == 0
    ensures Low(4, 4) == 4 && Low(0, 4) == 0 && Low(8, 4) == 8
    ensures Low(4, 2) == 0 && Low(8, 2) == 0 && Low(2, 2) == 2 && Low(1, 2) == 1 && Low(3, 2) == 3
  {
    SampleNexts();
    SampleLows();
  }

  lemma SampleNexts()
    ensures Next(0, 4) == 8 && Next(8, 2) == 2 && Next(2, 2) == 1 && Next(1, 2) == 3 && Next(3, 2) == 0
  {
  }

  lemma SampleLows()
    ensures Low(4, 4) == 4 && Low(0, 4) == 0 && Low(8, 4) == 8
    ensures Low(4, 2) == 0 && Low(8, 2) == 0 && Low(2, 2) == 2 && Low(1, 2) == 1 && Low(3, 2) == 3
  {
    assert Low(8, 4) == 2 * Low(4, 3) && Low(4, 3) == 2 * Low(2, 2);
  }

  lemma MissingCall(hash: Key -> Unsigned, k: Key, v: Val, c: Call)
    requires c.model == map[k := v] && c.emitted == [] && !Reaches(c, k, hash(k))
    requires c.p0 <= c.p1 <= WIDTH && c.next == Next(c.v, c.p0)
    ensures Faithful(hash, c)
  {
    assert k in c.model;
  }
}
