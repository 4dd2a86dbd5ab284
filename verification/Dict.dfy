/**
  The incrementally rehashed dictionary of project/network/redis/redis-3.2/src/dict.c.

  `model` is the finite map the dictionary stands for.  Every operation may run a
  rehash step first; none of that shows in the map.
*/
module Dict {
  import opened CInt
  import opened Options
  import opened Words
  import opened ScanOrder
  import opened HashTable

  const INITIAL_SIZE: nat := 4
  const FORCE_RESIZE_RATIO: nat := 5

  /** Is there an entry for `k` in this chain, and where? */
  method Search(c: Chain, k: Key) returns (i: nat)
    ensures i <= |c|
    ensures i < |c| ==> c[i].0 == k
    ensures i == |c| ==> forall e :: e in c ==> e.0 != k
  {
    i := 0;
    while i < |c| && c[i].0 != k
      invariant i <= |c|
      invariant forall j :: 0 <= j < i ==> c[j].0 != k
    {
      i := i + 1;
    }
  }

  // _dictNextPower
  method FindNextPower(size: nat) returns (i: nat)
    ensures i == NextPower(size)
  {
    i := INITIAL_SIZE;
    ghost var p := 2;
    while i < size
      invariant p >= 2 && i == Pow2(p) && (p == 2 || Pow2(p - 1) < size)
      invariant NextPower(size) == NextPowerFrom(size, p)
      decreases size - i
    {
      i, p := 2 * i, p + 1;
    }
  }

  /** The first table has as many entries as buckets, or over five times as many while resizing is discouraged. */
  predicate IsFull(t: Table, canResize: bool) {
    t.buckets != [] && t.used >= |t.buckets| && (canResize || t.used / |t.buckets| > 5)
  }

  /** The smallest power of two, from 4 on, that has a bucket for each of so many entries */
  ghost function FittingSize(used: nat): nat {
    NextPower(if used < 4 then 4 else used)
  }

  /** The largest table for which the number of bytes asked of zcalloc fits a word */
  function MaxBuckets(): nat {
    Pow2(WIDTH - 4)
  }

  /** As many entries as can still be doubled */
  function MaxEntries(): nat {
    Pow2(WIDTH - 5)
  }

  lemma IntFits()
    ensures INT_MAX <= MaxBuckets()
  {
    HalfOf32();
    Pow2Monotone(31, WIDTH - 4);
  }

  lemma SmallFits()
    ensures 1 <= MaxEntries()
  {
    Pow2Monotone(0, WIDTH - 5);
  }

  lemma SizeFits(size: nat)
    requires size <= MaxBuckets()
    ensures NextPower(size) <= MaxBuckets() && Log2(NextPower(size)) <= WIDTH
  {
    var r := NextPower(size);
    Pow2Monotone(2, WIDTH - 4);
    if r > 4 {
      Log2Below(r, WIDTH - 3);
      Pow2Monotone(Log2(r), WIDTH - 4);
    }
    Log2Below(r, WIDTH);
  }

  const POINTER_SIZE: nat := 8

  /** Line 228: realsize * sizeof(dictEntry*) does not overflow if and only if the size asked for is not too large. */
  lemma AllocationFits(size: nat)
    ensures NextPower(size) * POINTER_SIZE < Pow2(WIDTH) <==> size <= MaxBuckets()
  {
    var r := NextPower(size);
    assert Pow2(WIDTH) == 16 * MaxBuckets();
    if size <= MaxBuckets() {
      SizeFits(size);
    } else {
      if Log2(r) < WIDTH - 3 {
        Pow2Monotone(Log2(r), WIDTH - 4);
      }
      Pow2Monotone(WIDTH - 3, Log2(r));
    }
  }

  lemma HalfOf32()
    ensures Pow2(32) == 2 * Pow2(31) && Pow2(31) == INT_MAX + 1
  {
    assert Pow2(8) == 256;
    Pow2Sum(8, 8);
    Pow2Sum(16, 16);
  }

  /** dictAddRaw returns an entry, or NULL, or has written outside the table. */
  datatype AddResult = Added | Refused | Outside

  /** Masking makes no hash value greater. */
  lemma SlotAtMost(h: nat, size: nat)
    requires IsPow2(size)
    ensures Slot(h, size) <= h
  {
    LowAtMost(h, Log2(size));
  }

  lemma {:induction false} LowAtMost(h: nat, p: nat)
    ensures Low(h, p) <= h
  {
    if p > 0 {
      LowAtMost(h / 2, p - 1);
    }
  }

  /** How many of the buckets from `from` up to `end` are in use */
  ghost function Busy(bs: seq<Chain>, from: nat, end: nat): nat
    requires from <= end <= |bs|
  {
    if from == end then 0 else Busy(bs, from, end - 1) + if bs[end - 1] == [] then 0 else 1
  }

  lemma {:induction false} BusyEmpty(bs: seq<Chain>, from: nat, mid: nat, end: nat)
    requires from <= mid <= end <= |bs| && forall b :: mid <= b < end ==> bs[b] == []
    ensures Busy(bs, from, end) == Busy(bs, from, mid)
    decreases end
  {
    if mid < end {
      BusyEmpty(bs, from, mid, end - 1);
    }
  }

  /** Going on from `from` to `end`, so many buckets in use and so many empty ones are passed. */
  ghost predicate Passes(bs: seq<Chain>, from: nat, end: nat, busy: int, empty: int) {
    from <= end <= |bs| && Busy(bs, from, end) == busy && end - from == busy + empty
  }

  ghost predicate SameFrom(bs: seq<Chain>, bs': seq<Chain>, from: nat) {
    |bs'| == |bs| && forall b :: from <= b < |bs| ==> bs'[b] == bs[b]
  }

  lemma {:induction false} PassOn(bs: seq<Chain>, bs': seq<Chain>, from: nat, mid: nat, end: nat,
                                  busy: int, empty: int, busy': int, empty': int)
    requires Passes(bs, from, mid, busy, empty) && Passes(bs', mid, end, busy', empty') && SameFrom(bs, bs', mid)
    ensures Passes(bs, from, end, busy + busy', empty + empty')
    decreases end
  {
    if mid < end {
      var last := if bs[end - 1] == [] then 0 else 1;
      PassOn(bs, bs', from, mid, end - 1, busy, empty, busy' - last, empty' - 1 + last);
    }
  }

  /** Where a call with n stops: n buckets have been moved, or 10 * n empty ones visited. */
  ghost predicate Stopped(bs: seq<Chain>, from: nat, end: nat, n: nat) {
    && from <= end <= |bs| && Busy(bs, from, end) <= n && end - from - Busy(bs, from, end) <= 10 * n
    && (Busy(bs, from, end) == n || end - from - Busy(bs, from, end) == 10 * n)
  }

  lemma CastSlot(slot: nat)
    requires slot <= UINT_MAX
    ensures (Int32(slot) == -1 <==> slot == UINT_MAX) && (Int32(slot) >= 0 <==> slot <= INT_MAX)
  {
  }

  class Dict {
    const hash: Key -> Unsigned
    var ht0: Table
    var ht1: Table
    var rehashidx: int
    var iterators: nat
    ghost var model: map<Key, Val>

    predicate IsRehashing()
      reads this
    {
      rehashidx != -1
    }

    ghost predicate Valid()
      reads this
    {
      && Represents(hash, model, ht0, ht1)
      && (if IsRehashing() then
            && 0 <= rehashidx < |ht0.buckets| && ht1.buckets != []
            && forall b :: 0 <= b < rehashidx ==> ht0.buckets[b] == []
          else ht1 == EMPTY)
    }

    constructor (hash: Key -> Unsigned)
      ensures Valid() && model == map[] && !IsRehashing() && iterators == 0 && this.hash == hash
      ensures ht0 == ht1 == EMPTY
    {
      this.hash := hash;
      ht0, ht1 := EMPTY, EMPTY;
      rehashidx, iterators := -1, 0;
      model := map[];
    }

    /**
      dictRehash: n buckets are moved, unless 10 * n empty ones have been visited or nothing is left to move
      before.  A call that leaves something has advanced, so ht[0].size calls with n >= 1 always finish.
    */
    method Rehash(n: nat) returns (more: bool)
      requires Valid()
      modifies this
      ensures Valid() && model == old(model) && iterators == old(iterators)
      ensures !more ==> !IsRehashing()
      ensures more ==> IsRehashing() && |ht0.buckets| == old(|ht0.buckets|) && |ht1.buckets| == old(|ht1.buckets|)
      ensures more ==> rehashidx >= old(rehashidx) && (n > 0 ==> rehashidx > old(rehashidx))
      ensures more ==> ht0.used > 0 && Stopped(old(ht0.buckets), old(rehashidx), rehashidx, n)
      ensures !more && old(IsRehashing()) ==> Busy(old(ht0.buckets), old(rehashidx), |old(ht0.buckets)|) <= n
      ensures !more && old(IsRehashing()) ==> ht0.buckets != [] && |ht0.buckets| == old(|ht1.buckets|)
      ensures !old(IsRehashing()) ==> !more && ht0 == old(ht0) && ht1 == old(ht1)
    {
      if !IsRehashing() {
        return false;
      }
      var stop := MoveBuckets(n);
      if stop {
        return true;
      }
      if ht0.used == 0 {
        NothingAhead(old(ht0.buckets), old(rehashidx));
        Finish();
        return false;
      }
      NonEmptyAhead();
      return true;
    }

    // The end of a rehash: the second table becomes the first.
    method Finish()
      requires Migrating() && ht0.used == 0
      modifies this`ht0, this`ht1, this`rehashidx
      ensures Valid() && !IsRehashing() && ht0 == old(ht1)
    {
      EmptyRepresents(hash, model, ht0, ht1);
      ht0 := ht1;
      ht1 := EMPTY;
      rehashidx := -1;
    }

    // The loop of dictRehash
    method MoveBuckets(n: nat) returns (stop: bool)
      requires Migrating()
      modifies this`ht0, this`ht1, this`rehashidx
      ensures Migrating() && |ht1.buckets| == old(|ht1.buckets|)
      ensures rehashidx >= old(rehashidx) && SameFrom(old(ht0.buckets), ht0.buckets, rehashidx)
      ensures Busy(old(ht0.buckets), old(rehashidx), rehashidx) <= n
      ensures stop ==> ht0.used != 0 && rehashidx < |ht0.buckets|
      ensures stop || ht0.used != 0 ==>
        Stopped(old(ht0.buckets), old(rehashidx), rehashidx, n) && (n > 0 ==> rehashidx > old(rehashidx))
    {
      var emptyVisits := 10 * n;
      var left := n;
      while left > 0 && ht0.used != 0
        invariant Migrating() && |ht1.buckets| == old(|ht1.buckets|)
        invariant SameFrom(old(ht0.buckets), ht0.buckets, rehashidx)
        invariant rehashidx >= old(rehashidx) && (left < n ==> rehashidx > old(rehashidx))
        invariant Passes(old(ht0.buckets), old(rehashidx), rehashidx, n - left, 10 * n - emptyVisits)
        invariant 0 <= left <= n && 0 <= emptyVisits <= 10 * n && (n > 0 ==> emptyVisits > 0)
        decreases left
      {
        left := left - 1;
        ghost var from, now, visited := rehashidx, ht0.buckets, 10 * n - emptyVisits;
        emptyVisits, stop := MoveNext(emptyVisits);
        PassOn(old(ht0.buckets), now, old(rehashidx), from, rehashidx, n - left - 1, visited,
               if stop then 0 else 1, 10 * n - emptyVisits - visited);
        if stop {
          return;
        }
      }
      stop := false;
    }

    // When ht[0] has no entries left, no bucket in use is left either.
    lemma NothingAhead(bs: seq<Chain>, from: nat)
      requires Migrating() && ht0.used == 0 && from <= rehashidx && SameFrom(bs, ht0.buckets, rehashidx)
      ensures Busy(bs, from, |bs|) == Busy(bs, from, rehashidx)
    {
      TotalZero(ht0.buckets);
      BusyEmpty(bs, from, rehashidx, |bs|);
    }

    // One turn of dictRehash: the next bucket in use is moved, unless the budget is used up before.
    method MoveNext(visits0: int) returns (visits: int, stop: bool)
      requires Migrating() && ht0.used != 0 && visits0 > 0
      modifies this`ht0, this`ht1, this`rehashidx
      ensures Migrating() && rehashidx > old(rehashidx)
      ensures |ht1.buckets| == old(|ht1.buckets|) && SameFrom(old(ht0.buckets), ht0.buckets, rehashidx)
      ensures Passes(old(ht0.buckets), old(rehashidx), rehashidx, if stop then 0 else 1, visits0 - visits)
      ensures if stop then visits == 0 && ht0.used != 0 && rehashidx < |ht0.buckets| else visits > 0
    {
      NonEmptyAhead();
      visits, stop := SkipEmpty(visits0);
      BusyEmpty(ht0.buckets, old(rehashidx), old(rehashidx), rehashidx);
      if !stop {
        MoveBucket();
      }
    }

    // The inner loop of dictRehash: on to the next bucket in use, within the budget.
    method SkipEmpty(visits0: int) returns (visits: int, stop: bool)
      requires Migrating() && rehashidx < |ht0.buckets| && ht0.used != 0 && visits0 > 0
      modifies this`rehashidx
      ensures Migrating() && old(rehashidx) <= rehashidx < |ht0.buckets|
      ensures forall b :: old(rehashidx) <= b < rehashidx ==> ht0.buckets[b] == []
      ensures visits == visits0 - (rehashidx - old(rehashidx)) && visits >= 0
      ensures if stop then visits == 0 else visits > 0 && ht0.buckets[rehashidx] != []
    {
      visits := visits0;
      while ht0.buckets[rehashidx] == []
        invariant Migrating() && old(rehashidx) <= rehashidx < |ht0.buckets|
        invariant visits == visits0 - (rehashidx - old(rehashidx)) && visits > 0
        decreases |ht0.buckets| - rehashidx
      {
        rehashidx := rehashidx + 1;
        NonEmptyAhead();
        visits := visits - 1;
        if visits == 0 {
          return visits, true;
        }
      }
      return visits, false;
    }

    // In the middle of dictRehash the index may stand past the last bucket.
    ghost predicate Migrating()
      reads this
    {
      && Represents(hash, model, ht0, ht1)
      && 0 <= rehashidx <= |ht0.buckets| && ht1.buckets != []
      && forall b :: 0 <= b < rehashidx ==> ht0.buckets[b] == []
    }

    /** While ht[0] has entries, one lies at or after rehashidx: the assert in dictRehash. */
    lemma NonEmptyAhead()
      requires Migrating() && ht0.used != 0
      ensures rehashidx < |ht0.buckets|
    {
      TotalZero(ht0.buckets);
    }

    // Moving one bucket, entry by entry, to the front of the new chains.
    method MoveBucket()
      requires Migrating() && rehashidx < |ht0.buckets|
      modifies this`ht0, this`ht1, this`rehashidx
      ensures Migrating() && rehashidx == old(rehashidx) + 1
      ensures SameFrom(old(ht0.buckets), ht0.buckets, rehashidx) && |ht1.buckets| == old(|ht1.buckets|)
    {
      while ht0.buckets[rehashidx] != []
        invariant Migrating() && rehashidx == old(rehashidx) && |ht1.buckets| == old(|ht1.buckets|)
        invariant SameFrom(old(ht0.buckets), ht0.buckets, rehashidx + 1)
        decreases |ht0.buckets[rehashidx]|
      {
        MoveEntry();
      }
      rehashidx := rehashidx + 1;
    }

    // One turn of the loop of MoveBucket.
    method MoveEntry()
      requires Migrating() && rehashidx < |ht0.buckets| && ht0.buckets[rehashidx] != []
      modifies this`ht0, this`ht1
      ensures Migrating() && SameFrom(old(ht0.buckets), ht0.buckets, rehashidx + 1)
      ensures |ht1.buckets| == old(|ht1.buckets|)
      ensures |ht0.buckets[rehashidx]| < old(|ht0.buckets[rehashidx]|)
    {
      MoveRepresents(hash, model, ht0, ht1, rehashidx);
      var e := ht0.buckets[rehashidx][0];
      ht1 := Push(ht1, Slot(hash(e.0), |ht1.buckets|), e);
      ht0 := Shrink(ht0, rehashidx, ht0.buckets[rehashidx][1..]);
    }

    // _dictRehashStep: nothing moves while a safe iterator is open.
    method RehashStep()
      requires Valid()
      modifies this
      ensures Valid() && model == old(model) && iterators == old(iterators)
      ensures iterators > 0 ==> ht0 == old(ht0) && ht1 == old(ht1) && rehashidx == old(rehashidx)
      ensures ht0.buckets == [] <==> old(ht0.buckets == [])
      ensures !old(IsRehashing()) ==> ht0 == old(ht0) && ht1 == old(ht1) && !IsRehashing()
      ensures iterators == 0 && IsRehashing() ==> rehashidx > old(rehashidx)
    {
      if iterators == 0 {
        var _ := Rehash(1);
      }
    }

    /** Rehashing finishes within ht[0].size single steps. */
    method RehashAll() returns (steps: nat)
      requires Valid()
      modifies this
      ensures Valid() && model == old(model) && !IsRehashing()
      ensures steps <= old(|ht0.buckets|)
    {
      steps := 0;
      while IsRehashing()
        invariant Valid() && model == old(model)
        invariant IsRehashing() ==> |ht0.buckets| == old(|ht0.buckets|) && steps <= rehashidx
        invariant steps <= old(|ht0.buckets|)
        decreases IsRehashing(), |ht0.buckets| - rehashidx
      {
        var more := Rehash(1);
        steps := steps + 1;
      }
    }

    /** dictFind */
    method Find(k: Key) returns (r: Option<Val>)
      requires Valid()
      modifies this
      ensures Valid() && model == old(model) && iterators == old(iterators)
      ensures r == if k in model then Some(model[k]) else None
      ensures iterators > 0 ==> ht0 == old(ht0) && ht1 == old(ht1) && rehashidx == old(rehashidx)
      ensures iterators == 0 && IsRehashing() ==> model == map[] || rehashidx > old(rehashidx)
    {
      if ht0.used + ht1.used == 0 {
        return None;
      }
      if IsRehashing() {
        RehashStep();
      }
      r := Get(k);
    }

    // The two-table search shared by dictFind, dictGenericDelete and _dictKeyIndex.
    method Get(k: Key) returns (r: Option<Val>)
      requires Valid()
      ensures r == if k in model then Some(model[k]) else None
    {
      if ht0.buckets == [] {
        MissingIf(hash, model, ht0, ht1, k);
        return None;
      }
      var c := ht0.buckets[Slot(hash(k), |ht0.buckets|)];
      var i := Search(c, k);
      if i < |c| {
        FoundIff(hash, model, ht0, ht1, k, c[i].1);
        return Some(c[i].1);
      }
      if IsRehashing() {
        c := ht1.buckets[Slot(hash(k), |ht1.buckets|)];
        i := Search(c, k);
        if i < |c| {
          FoundIff(hash, model, ht0, ht1, k, c[i].1);
          return Some(c[i].1);
        }
      }
      MissingIf(hash, model, ht0, ht1, k);
      return None;
    }

    /** dictGenericDelete */
    method Delete(k: Key) returns (ok: bool)
      requires Valid()
      modifies this
      ensures Valid() && iterators == old(iterators)
      ensures ok <==> k in old(model)
      ensures model == old(model) - {k}
      ensures iterators == 0 && IsRehashing() ==> rehashidx > old(rehashidx)
      ensures iterators > 0 ==> rehashidx == old(rehashidx)
      ensures iterators > 0 && !ok ==> ht0 == old(ht0) && ht1 == old(ht1)
      ensures iterators > 0 && ok ==>
        (|| (ht1 == old(ht1) && CutFrom(old(ht0), ht0, k))
         || (ht0 == old(ht0) && CutFrom(old(ht1), ht1, k)))
    {
      if ht0.buckets == [] {
        MissingIf(hash, model, ht0, ht1, k);
        return false;
      }
      if IsRehashing() {
        RehashStep();
      }
      ok := Unlink(k);
    }

    // The search loop of dictGenericDelete.
    method Unlink(k: Key) returns (ok: bool)
      requires Valid() && ht0.buckets != []
      modifies this`ht0, this`ht1, this`model
      ensures Valid() && (ok <==> k in old(model)) && model == old(model) - {k}
      ensures !ok ==> ht0 == old(ht0) && ht1 == old(ht1)
      ensures ok ==>
        (|| (ht1 == old(ht1) && CutFrom(old(ht0), ht0, k))
         || (ht0 == old(ht0) && CutFrom(old(ht1), ht1, k)))
    {
      var b := Slot(hash(k), |ht0.buckets|);
      var i := Search(ht0.buckets[b], k);
      if i < |ht0.buckets[b]| {
        CutFirst(hash, model, ht0, ht1, b, i);
        Replace(Shrink(ht0, b, Cut(ht0.buckets[b], i)), ht1, model - {k});
        return true;
      }
      if IsRehashing() {
        ok := UnlinkFromNew(k);
      } else {
        MissingIf(hash, model, ht0, ht1, k);
        ok := false;
      }
    }

    // The tables after an entry has been linked or unlinked.
    method Replace(t0: Table, t1: Table, ghost m: map<Key, Val>)
      requires Represents(hash, m, t0, t1)
      requires |t0.buckets| == |ht0.buckets| && |t1.buckets| == |ht1.buckets|
      requires IsRehashing() ==> 0 <= rehashidx < |ht0.buckets| && ht1.buckets != []
      requires IsRehashing() ==> forall b :: 0 <= b < rehashidx ==> t0.buckets[b] == []
      requires !IsRehashing() ==> ht1 == t1 == EMPTY
      modifies this`ht0, this`ht1, this`model
      ensures ht0 == t0 && ht1 == t1 && model == m && Valid()
    {
      ht0, ht1 := t0, t1;
      model := m;
    }

    // The second round of the loop in dictGenericDelete.
    method UnlinkFromNew(k: Key) returns (ok: bool)
      requires Valid() && IsRehashing()
      requires forall e :: e in ht0.buckets[Slot(hash(k), |ht0.buckets|)] ==> e.0 != k
      modifies this`ht0, this`ht1, this`model
      ensures Valid() && (ok <==> k in old(model)) && model == old(model) - {k} && ht0 == old(ht0)
      ensures if ok then CutFrom(old(ht1), ht1, k) else ht1 == old(ht1)
    {
      var b := Slot(hash(k), |ht1.buckets|);
      var i := Search(ht1.buckets[b], k);
      if i < |ht1.buckets[b]| {
        CutSecond(hash, model, ht0, ht1, b, i);
        Replace(ht0, Shrink(ht1, b, Cut(ht1.buckets[b], i)), model - {k});
        return true;
      }
      MissingIf(hash, model, ht0, ht1, k);
      return false;
    }
  
    /** dictExpand: a second table is set up, or the first one; no entry moves. */
    method Expand(size: nat) returns (ok: bool)
      requires Valid() && size <= MaxBuckets()
      modifies this`ht0, this`ht1, this`rehashidx
      ensures Valid()
      ensures ok <==> !old(IsRehashing()) && old(ht0.used) <= size && NextPower(size) != old(|ht0.buckets|)
      ensures !ok ==> ht0 == old(ht0) && ht1 == old(ht1) && rehashidx == old(rehashidx)
      ensures ok ==> ht0.buckets != []
      ensures SetUp(old(ht0), old(ht1), old(IsRehashing()), ht0, ht1, IsRehashing())
      ensures ok && old(ht0.buckets == []) ==> !IsRehashing() && |ht0.buckets| == NextPower(size)
      ensures ok && old(ht0.buckets != []) ==> ht0 == old(ht0) && rehashidx == 0 && |ht1.buckets| == NextPower(size)
    {
      var realsize := FindNextPower(size);
      if IsRehashing() || ht0.used > size {
        return false;
      }
      if realsize == |ht0.buckets| {
        return false;
      }
      var t := Table(seq(realsize, i => []), 0);
      SizeFits(size);
      FreshTable(hash, model, t);
      if ht0.buckets == [] {
        FreshFirst(hash, model, ht0, t);
        ht0 := t;
      } else {
        FreshSecond(hash, model, ht0, t);
        ht1 := t;
        rehashidx := 0;
      }
      return true;
    }

    /**
      dictResize: shrink or grow to the smallest power of two that fits.  With more than INT_MAX
      entries the count does not survive the cast to int, and nothing is resized.
    */
    method Resize(canResize: bool) returns (ok: bool)
      requires Valid()
      modifies this`ht0, this`ht1, this`rehashidx
      ensures Valid()
      ensures ok <==> canResize && !old(IsRehashing()) && old(ht0.used) <= INT_MAX &&
                      FittingSize(old(ht0.used)) != old(|ht0.buckets|)
      ensures !ok ==> ht0 == old(ht0) && ht1 == old(ht1) && rehashidx == old(rehashidx)
      ensures ok && old(ht0.buckets == []) ==> !IsRehashing() && |ht0.buckets| == FittingSize(old(ht0.used))
      ensures ok && old(ht0.buckets != []) ==> ht0 == old(ht0) && |ht1.buckets| == FittingSize(ht0.used)
      ensures SetUp(old(ht0), old(ht1), old(IsRehashing()), ht0, ht1, IsRehashing())
      ensures ok && old(ht0.buckets != []) ==> |ht1.buckets| >= ht0.used && rehashidx == 0
    {
      if !canResize || IsRehashing() {
        return false;
      }
      IntFits();
      var minimal := Int32(ht0.used);
      if minimal < INITIAL_SIZE {
        minimal := INITIAL_SIZE;
      }
      ok := Expand(minimal);
    }

    // _dictExpandIfNeeded
    method ExpandIfNeeded(canResize: bool)
      requires Valid() && ht0.used <= MaxEntries()
      modifies this`ht0, this`ht1, this`rehashidx
      ensures Valid() && ht0.buckets != []
      ensures SetUp(old(ht0), old(ht1), old(IsRehashing()), ht0, ht1, IsRehashing())
      ensures old(ht0.buckets != []) ==> ht0 == old(ht0)
      ensures old(IsRehashing()) ==> ht1 == old(ht1) && rehashidx == old(rehashidx)
      ensures IsRehashing() <==> old(IsRehashing()) || IsFull(old(ht0), canResize)
      ensures TargetSize() == old(TakingSize(canResize))
      ensures IsRehashing() && !old(IsRehashing()) ==> rehashidx == 0
    {
      if IsRehashing() {
        return;
      }
      if |ht0.buckets| == 0 {
        SmallFits();
        var ok := Expand(INITIAL_SIZE);
        assert ok;
        return;
      }
      if ht0.used >= |ht0.buckets| && (canResize || ht0.used / |ht0.buckets| > FORCE_RESIZE_RATIO) {
        assert 2 * MaxEntries() == MaxBuckets();
        var ok := Expand(2 * ht0.used);
        assert ok;
      }
    }

    // The size of the table that new entries go to
    function TargetSize(): nat
      reads this
    {
      if IsRehashing() then |ht1.buckets| else |ht0.buckets|
    }

    /** What that size is once _dictExpandIfNeeded has run */
    function TakingSize(canResize: bool): (size: nat)
      requires Valid()
      reads this
      ensures IsPow2(size)
    {
      if IsRehashing() then |ht1.buckets|
      else if ht0.buckets == [] then 4
      else if IsFull(ht0, canResize) then NextPower(2 * ht0.used)
      else |ht0.buckets|
    }

    /** The bucket that a new entry for this key belongs in */
    function TakingSlot(k: Key, canResize: bool): nat
      requires Valid()
      reads this
    {
      Slot(hash(k), TakingSize(canResize))
    }

    /**
      dictAdd.  The bucket is held in an int, so an absent key is added if and only if its bucket is at most
      INT_MAX.  It is taken for a present one in bucket UINT_MAX, and written before the table in the others.
      Where no rehash step comes first, the bucket is known beforehand.
    */
    method Add(k: Key, v: Val, canResize: bool) returns (r: AddResult)
      requires Valid() && |model| <= MaxEntries()
      modifies this
      ensures Valid() && iterators == old(iterators) && IsPow2(TargetSize())
      ensures r.Added? <==> k !in old(model) && Slot(hash(k), TargetSize()) <= INT_MAX
      ensures r.Refused? <==> k in old(model) || Slot(hash(k), TargetSize()) == UINT_MAX
      ensures model == if r.Added? then old(model)[k := v] else old(model)
      ensures iterators > 0 || !old(IsRehashing()) ==> TargetSize() == old(TakingSize(canResize))
      ensures iterators > 0 || !old(IsRehashing()) ==>
        AddedInPlace(old(ht0), old(ht1), old(IsRehashing()), ht0, ht1, IsRehashing(), r.Added?, (k, v))
      ensures !old(IsRehashing()) ==> (IsRehashing() <==> IsFull(old(ht0), canResize))
      ensures iterators == 0 && old(IsRehashing()) && rehashidx > 0 ==> rehashidx > old(rehashidx)
    {
      if IsRehashing() {
        RehashStep();
      }
      r := AddRaw(k, v, canResize);
    }

    // dictAddRaw after the rehash step
    method AddRaw(k: Key, v: Val, canResize: bool) returns (r: AddResult)
      requires Valid() && |model| <= MaxEntries()
      modifies this`ht0, this`ht1, this`rehashidx, this`model
      ensures Valid() && TargetSize() == old(TakingSize(canResize))
      ensures r.Added? <==> k !in old(model) && old(TakingSlot(k, canResize)) <= INT_MAX
      ensures r.Refused? <==> k in old(model) || old(TakingSlot(k, canResize)) == UINT_MAX
      ensures model == if r.Added? then old(model)[k := v] else old(model)
      ensures AddedInPlace(old(ht0), old(ht1), old(IsRehashing()), ht0, ht1, IsRehashing(), r.Added?, (k, v))
      ensures IsRehashing() <==> old(IsRehashing()) || IsFull(old(ht0), canResize)
      ensures IsRehashing() ==> rehashidx == if old(IsRehashing()) then old(rehashidx) else 0
    {
      ExpandIfNeeded(canResize);
      r := Insert(k, v);
    }

    // dictAddRaw from the search for the key on
    method Insert(k: Key, v: Val) returns (r: AddResult)
      requires Valid() && ht0.buckets != [] && IsPow2(TargetSize())
      modifies this`ht0, this`ht1, this`model
      ensures Valid() && TargetSize() == old(TargetSize())
      ensures r.Added? <==> k !in old(model) && Slot(hash(k), old(TargetSize())) <= INT_MAX
      ensures r.Refused? <==> k in old(model) || Slot(hash(k), old(TargetSize())) == UINT_MAX
      ensures model == if r.Added? then old(model)[k := v] else old(model)
      ensures if r.Added? then Linked(old(ht0), old(ht1), IsRehashing(), ht0, ht1, (k, v))
              else ht0 == old(ht0) && ht1 == old(ht1)
    {
      var index := KeyIndex(k);
      CastSlot(Slot(hash(k), TargetSize()));
      if index == -1 {
        return Refused;
      }
      if index < 0 {
        return Outside;
      }
      Link(k, v);
      return Added;
    }

    // _dictKeyIndex after the table has been expanded
    method KeyIndex(k: Key) returns (index: int)
      requires Valid() && ht0.buckets != []
      ensures IsPow2(TargetSize()) && index == if k in model then -1 else Int32(Slot(hash(k), TargetSize()))
      ensures Slot(hash(k), TargetSize()) <= UINT_MAX
    {
      SlotAtMost(hash(k), TargetSize());
      var found := Get(k);
      if found.Some? {
        return -1;
      }
      var idx := Slot(hash(k), TargetSize());
      return Int32(idx);
    }

    // The insertion at the front of a chain of dictAddRaw.
    method Link(k: Key, v: Val)
      requires Valid() && ht0.buckets != [] && k !in model
      modifies this`ht0, this`ht1, this`model
      ensures Valid() && model == old(model)[k := v]
      ensures Linked(old(ht0), old(ht1), IsRehashing(), ht0, ht1, (k, v))
    {
      if IsRehashing() {
        AddSecond(hash, model, ht0, ht1, k, v);
        Replace(ht0, Push(ht1, Slot(hash(k), |ht1.buckets|), (k, v)), model[k := v]);
      } else {
        AddFirst(hash, model, ht0, ht1, k, v);
        Replace(Push(ht0, Slot(hash(k), |ht0.buckets|), (k, v)), ht1, model[k := v]);
        ghost var b := Slot(hash(k), |old(ht0.buckets)|);
        assert ht0.buckets == old(ht0).buckets[b := [(k, v)] + old(ht0).buckets[b]];
      }
    }
  }

  /** Without a rehash an entry that is added leaves the size of the first table as it is. */
  lemma SameSize(t: Table, u: Table, re: bool, t': Table, u': Table, re': bool, e: (Key, Val))
    requires AddedInPlace(t, u, re, t', u', re', true, e) && t.buckets != [] && !re && !re'
    ensures |t'.buckets| == |t.buckets|
  {
  }

  // --- more entries than an int can count ------------------------------------------------------

  lemma NextPowerOf(p: nat)
    requires p >= 2
    ensures NextPower(Pow2(p)) == Pow2(p)
  {
    var q := Log2(NextPower(Pow2(p)));
    if q > p {
      Pow2Monotone(p + 1, q);
    } else {
      Pow2Monotone(q, p);
    }
  }

  // The powers that matter here
  lemma Large()
    ensures Pow2(31) == INT_MAX + 1 && Pow2(32) == UINT_MAX + 1 && Pow2(33) == 4 * Pow2(31)
    ensures Pow2(32) <= Pow2(33) <= MaxEntries() <= MaxBuckets()
  {
    HalfOf32();
    assert Pow2(33) == 2 * Pow2(32);
    Pow2Monotone(33, WIDTH - 5);
    Pow2Monotone(WIDTH - 5, WIDTH - 4);
  }

  ghost predicate Sized(d: Dict, size: nat, used: nat)
    reads d
  {
    d.Valid() && !d.IsRehashing() && |d.ht0.buckets| == size && d.ht0.used == used
  }

  method AddWithRoom(d: Dict, k: Key, v: Val, ghost size: nat)
    requires Sized(d, size, |d.model|) && |d.model| < size && |d.model| <= MaxEntries() && k !in d.model
    requires size <= INT_MAX || d.hash(k) <= INT_MAX
    modifies d
    ensures d.model == old(d.model)[k := v] && Sized(d, size, |d.model|)
  {
    ghost var t, u, re := d.ht0, d.ht1, d.IsRehashing();
    SlotAtMost(d.hash(k), size);
    var r := d.Add(k, v, true);
    SameSize(t, u, re, d.ht0, d.ht1, d.IsRehashing(), (k, v));
  }

  ghost predicate FirstKeys(model: map<Key, Val>, key: nat -> Key, n: nat) {
    |model| == n && forall k :: k in model ==> exists i :: 0 <= i < n && key(i) == k
  }

  lemma OneMoreKey(model: map<Key, Val>, key: nat -> Key, n: nat, v: Val)
    requires FirstKeys(model, key, n) && forall i, j :: key(i) == key(j) ==> i == j
    ensures key(n) !in model && FirstKeys(model[key(n) := v], key, n + 1)
  {
    var model' := model[key(n) := v];
    assert model'.Keys == model.Keys + {key(n)};
  }

  method Fill(d: Dict, key: nat -> Key, v: Val, n: nat, ghost size: nat)
    requires Sized(d, size, 0) && n <= size && n <= MaxEntries() && forall i, j :: key(i) == key(j) ==> i == j
    requires forall k :: d.hash(k) <= INT_MAX
    modifies d
    ensures Sized(d, size, n)
  {
    var i := 0;
    while i < n
      invariant i <= n && FirstKeys(d.model, key, i) && Sized(d, size, i)
    {
      OneMoreKey(d.model, key, i, v);
      AddWithRoom(d, key(i), v, size);
      i := i + 1;
    }
  }

  method NewTable(hash: Key -> Unsigned, p: nat) returns (d: Dict)
    requires 2 <= p && Pow2(p) <= MaxBuckets()
    ensures fresh(d) && Sized(d, Pow2(p), 0) && d.hash == hash && d.model == map[]
  {
    NextPowerOf(p);
    d := new Dict(hash);
    var ok := d.Expand(Pow2(p));
  }

  /** A table of 2^33 buckets with 2^31 entries, which should shrink to 2^31 buckets, is left as it is. */
  method ShrinkRefused(hash: Key -> Unsigned, key: nat -> Key, v: Val) returns (d: Dict, ok: bool)
    requires (forall i, j :: key(i) == key(j) ==> i == j) && forall k :: hash(k) <= INT_MAX
    ensures Sized(d, 4 * (INT_MAX + 1), INT_MAX + 1) && FittingSize(INT_MAX + 1) == INT_MAX + 1
    ensures !ok
  {
    Large();
    NextPowerOf(31);
    d := NewTable(hash, 33);
    Fill(d, key, v, INT_MAX + 1, Pow2(33));
    ok := d.Resize(true);
  }

  lemma {:induction false} LowSmall(h: nat, p: nat)
    requires h < Pow2(p)
    ensures Low(h, p) == h
  {
    if p > 0 {
      LowSmall(h / 2, p - 1);
    }
  }

  /** In a table of 2^32 buckets every key with a hash value above INT_MAX is lost: an empty one refuses the last. */
  method AbsentIsRefused(hash: Key -> Unsigned, k: Key, v: Val) returns (d: Dict, r: AddResult)
    requires hash(k) > INT_MAX
    ensures d.Valid() && d.model == map[] && r == if hash(k) == UINT_MAX then Refused else Outside
  {
    Large();
    d := NewTable(hash, 32);
    Log2OfPow2(32);
    LowSmall(hash(k), 32);
    r := d.Add(k, v, true);
  }
}
