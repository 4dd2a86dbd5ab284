/**
  The bucket tables of project/network/redis/redis-3.2/src/dict.c as values, and what
  it means for a pair of them to stand for one finite map while entries migrate.
*/
module HashTable {
  import opened CInt
  import opened Words
  import opened ScanOrder

  type Key(==, !new)
  type Val(!new)
  type Chain = seq<(Key, Val)>

  datatype Table = Table(buckets: seq<Chain>, used: nat)

  const EMPTY: Table := Table([], 0)

  function Log2(s: nat): nat {
    if s <= 1 then 0 else 1 + Log2(s / 2)
  }

  predicate IsPow2(s: nat) {
    s == Pow2(Log2(s))
  }

  lemma {:induction false} Log2OfPow2(p: nat)
    ensures Log2(Pow2(p)) == p && IsPow2(Pow2(p))
  {
    if p > 0 {
      Log2OfPow2(p - 1);
      assert Pow2(p) / 2 == Pow2(p - 1);
    }
  }

  /** hash & sizemask */
  function Slot(h: nat, size: nat): (b: nat)
    requires IsPow2(size)
    ensures b < size && b == Low(h, Log2(size))
  {
    LowIsAnd(h, Log2(size));
    And(h, size - 1)
  }

  function Total(buckets: seq<Chain>): nat {
    if buckets == [] then 0 else |buckets[0]| + Total(buckets[1..])
  }

  lemma {:induction false} TotalUpdate(buckets: seq<Chain>, b: nat, c: Chain)
    requires b < |buckets|
    ensures Total(buckets[b := c]) == Total(buckets) - |buckets[b]| + |c|
    ensures Total(buckets) >= |buckets[b]|
  {
    if b == 0 {
      assert buckets[0 := c][1..] == buckets[1..];
    } else {
      TotalUpdate(buckets[1..], b - 1, c);
      assert buckets[b := c][1..] == buckets[1..][b - 1 := c];
    }
  }

  lemma {:induction false} TotalZero(buckets: seq<Chain>)
    ensures Total(buckets) == 0 <==> forall b :: 0 <= b < |buckets| ==> buckets[b] == []
  {
    if buckets != [] {
      TotalZero(buckets[1..]);
      assert forall b :: 0 < b < |buckets| ==> buckets[b] == buckets[1..][b - 1];
      assert forall b :: 0 <= b < |buckets[1..]| ==> buckets[1..][b] == buckets[b + 1];
    }
  }

  ghost predicate NoDup(c: Chain) {
    forall i, j :: 0 <= i < j < |c| ==> c[i].0 != c[j].0
  }

  ghost predicate InMap(model: map<Key, Val>, e: (Key, Val)) {
    e.0 in model && model[e.0] == e.1
  }

  /** Everything in bucket b belongs there and is in the map. */
  ghost predicate ChainOk(hash: Key -> Unsigned, model: map<Key, Val>, c: Chain, b: nat, size: nat)
    requires IsPow2(size)
  {
    NoDup(c) && forall i :: 0 <= i < |c| ==> InMap(model, c[i]) && Slot(hash(c[i].0), size) == b
  }

  ghost predicate TableOk(hash: Key -> Unsigned, model: map<Key, Val>, t: Table) {
    && t.used == Total(t.buckets)
    && (t.buckets != [] ==>
          && IsPow2(|t.buckets|) && Log2(|t.buckets|) <= WIDTH
          && forall b :: 0 <= b < |t.buckets| ==> ChainOk(hash, model, t.buckets[b], b, |t.buckets|))
  }

  ghost predicate Holds(hash: Key -> Unsigned, t: Table, e: (Key, Val)) {
    t.buckets != [] && IsPow2(|t.buckets|) && e in t.buckets[Slot(hash(e.0), |t.buckets|)]
  }

  /** The two tables together are the map: each entry sits in exactly one of them, and nothing else does. */
  ghost predicate Represents(hash: Key -> Unsigned, model: map<Key, Val>, t0: Table, t1: Table) {
    && TableOk(hash, model, t0) && TableOk(hash, model, t1)
    && (forall k :: k in model ==> Holds(hash, t0, (k, model[k])) != Holds(hash, t1, (k, model[k])))
    && |model| == t0.used + t1.used
  }

  function Push(t: Table, b: nat, e: (Key, Val)): Table
    requires b < |t.buckets|
  {
    Table(t.buckets[b := [e] + t.buckets[b]], t.used + 1)
  }

  function Shrink(t: Table, b: nat, c: Chain): Table
    requires b < |t.buckets| && t.used > 0
  {
    Table(t.buckets[b := c], t.used - 1)
  }

  /** Adding a new key at the front of its chain adds it to the map. */
  lemma PushOk(hash: Key -> Unsigned, model: map<Key, Val>, t: Table, k: Key, v: Val)
    requires TableOk(hash, model, t) && t.buckets != [] && k !in model
    ensures var b := Slot(hash(k), |t.buckets|); var t' := Push(t, b, (k, v));
      && TableOk(hash, model[k := v], t') && Holds(hash, t', (k, v))
      && forall e: (Key, Val) :: e.0 != k ==> (Holds(hash, t', e) <==> Holds(hash, t, e))
  {
    var b := Slot(hash(k), |t.buckets|);
    var t' := Push(t, b, (k, v));
    TotalUpdate(t.buckets, b, t'.buckets[b]);
    forall a | 0 <= a < |t'.buckets| ensures ChainOk(hash, model[k := v], t'.buckets[a], a, |t'.buckets|) {
      assert ChainOk(hash, model, t.buckets[a], a, |t.buckets|);
    }
  }

  lemma WidenOk(hash: Key -> Unsigned, model: map<Key, Val>, t: Table, k: Key, v: Val)
    requires TableOk(hash, model, t) && k !in model
    ensures TableOk(hash, model[k := v], t) && !Holds(hash, t, (k, v))
  {
    forall a | 0 <= a < |t.buckets| ensures ChainOk(hash, model[k := v], t.buckets[a], a, |t.buckets|) {
      assert ChainOk(hash, model, t.buckets[a], a, |t.buckets|);
    }
  }

  lemma AddFirst(hash: Key -> Unsigned, model: map<Key, Val>, t0: Table, t1: Table, k: Key, v: Val)
    requires Represents(hash, model, t0, t1) && k !in model && t0.buckets != []
    ensures Represents(hash, model[k := v], Push(t0, Slot(hash(k), |t0.buckets|), (k, v)), t1)
  {
    WidenOk(hash, model, t1, k, v);
    assert model[k := v].Keys == model.Keys + {k};
    PushOk(hash, model, t0, k, v);
  }

  lemma AddSecond(hash: Key -> Unsigned, model: map<Key, Val>, t0: Table, t1: Table, k: Key, v: Val)
    requires Represents(hash, model, t0, t1) && k !in model && t1.buckets != []
    ensures Represents(hash, model[k := v], t0, Push(t1, Slot(hash(k), |t1.buckets|), (k, v)))
  {
    SwapRepresents(hash, model, t0, t1);
    AddFirst(hash, model, t1, t0, k, v);
    SwapRepresents(hash, model[k := v], Push(t1, Slot(hash(k), |t1.buckets|), (k, v)), t0);
  }

  function Cut(c: Chain, i: nat): Chain
    requires i < |c|
  {
    c[..i] + c[i + 1..]
  }

  /** Unlinking one entry removes its key from the map. */
  lemma CutOk(hash: Key -> Unsigned, model: map<Key, Val>, t: Table, b: nat, i: nat)
    requires TableOk(hash, model, t) && b < |t.buckets| && i < |t.buckets[b]|
    ensures t.used > 0
    ensures var e := t.buckets[b][i]; var t' := Shrink(t, b, Cut(t.buckets[b], i));
      && TableOk(hash, model - {e.0}, t') && Holds(hash, t, e) && !Holds(hash, t', e)
      && forall d: (Key, Val) :: d.0 != e.0 ==> (Holds(hash, t', d) <==> Holds(hash, t, d))
  {
    var c := t.buckets[b];
    var e, c' := c[i], Cut(c, i);
    TotalUpdate(t.buckets, b, c');
    var t' := Shrink(t, b, c');
    assert ChainOk(hash, model, c, b, |t.buckets|);
    CutChain(c, i);
    forall a | 0 <= a < |t'.buckets| ensures ChainOk(hash, model - {e.0}, t'.buckets[a], a, |t'.buckets|) {
      assert ChainOk(hash, model, t.buckets[a], a, |t.buckets|);
    }
  }

  lemma CutChain(c: Chain, i: nat)
    requires i < |c| && NoDup(c)
    ensures NoDup(Cut(c, i))
    ensures forall j :: 0 <= j < |Cut(c, i)| ==> Cut(c, i)[j] in c && Cut(c, i)[j].0 != c[i].0
    ensures forall d: (Key, Val) :: d.0 != c[i].0 ==> (d in Cut(c, i) <==> d in c)
  {
    var c' := Cut(c, i);
    assert forall j :: 0 <= j < |c'| ==> c'[j] == if j < i then c[j] else c[j + 1];
    assert forall j :: 0 <= j < |c| && j != i ==> c[j] == if j < i then c'[j] else c'[j - 1];
  }

  lemma NarrowOk(hash: Key -> Unsigned, model: map<Key, Val>, t: Table, k: Key)
    requires TableOk(hash, model, t) && k in model && !Holds(hash, t, (k, model[k]))
    ensures TableOk(hash, model - {k}, t)
  {
    forall a | 0 <= a < |t.buckets| ensures ChainOk(hash, model - {k}, t.buckets[a], a, |t.buckets|) {
      assert ChainOk(hash, model, t.buckets[a], a, |t.buckets|);
    }
  }

  lemma SwapRepresents(hash: Key -> Unsigned, model: map<Key, Val>, t0: Table, t1: Table)
    requires Represents(hash, model, t0, t1)
    ensures Represents(hash, model, t1, t0)
  {
  }

  lemma CutFirst(hash: Key -> Unsigned, model: map<Key, Val>, t0: Table, t1: Table, b: nat, i: nat)
    requires Represents(hash, model, t0, t1) && b < |t0.buckets| && i < |t0.buckets[b]|
    ensures t0.used > 0 && t0.buckets[b][i].0 in model
    ensures Represents(hash, model - {t0.buckets[b][i].0}, Shrink(t0, b, Cut(t0.buckets[b], i)), t1)
  {
    var e := t0.buckets[b][i];
    assert ChainOk(hash, model, t0.buckets[b], b, |t0.buckets|);
    CutOk(hash, model, t0, b, i);
    NarrowOk(hash, model, t1, e.0);
    assert (model - {e.0}).Keys == model.Keys - {e.0};
  }

  lemma CutSecond(hash: Key -> Unsigned, model: map<Key, Val>, t0: Table, t1: Table, b: nat, i: nat)
    requires Represents(hash, model, t0, t1) && b < |t1.buckets| && i < |t1.buckets[b]|
    ensures t1.used > 0 && t1.buckets[b][i].0 in model
    ensures Represents(hash, model - {t1.buckets[b][i].0}, t0, Shrink(t1, b, Cut(t1.buckets[b], i)))
  {
    SwapRepresents(hash, model, t0, t1);
    CutFirst(hash, model, t1, t0, b, i);
    SwapRepresents(hash, model - {t1.buckets[b][i].0}, Shrink(t1, b, Cut(t1.buckets[b], i)), t0);
  }

  /** One entry moved by dictRehash: the map is untouched. */
  lemma MoveRepresents(hash: Key -> Unsigned, model: map<Key, Val>, t0: Table, t1: Table, b: nat)
    requires Represents(hash, model, t0, t1) && b < |t0.buckets| && t0.buckets[b] != [] && t1.buckets != []
    ensures t0.used > 0
    ensures var e := t0.buckets[b][0];
      Represents(hash, model, Shrink(t0, b, t0.buckets[b][1..]), Push(t1, Slot(hash(e.0), |t1.buckets|), e))
  {
    var e := t0.buckets[b][0];
    FrontInMap(hash, model, t0, b);
    CutFirst(hash, model, t0, t1, b, 0);
    assert Cut(t0.buckets[b], 0) == t0.buckets[b][1..];
    AddBack(hash, model, Shrink(t0, b, t0.buckets[b][1..]), t1, e.0, e.1);
  }

  lemma AddBack(hash: Key -> Unsigned, model: map<Key, Val>, t0: Table, t1: Table, k: Key, v: Val)
    requires InMap(model, (k, v)) && Represents(hash, model - {k}, t0, t1) && t1.buckets != []
    ensures Represents(hash, model, t0, Push(t1, Slot(hash(k), |t1.buckets|), (k, v)))
  {
    AddSecond(hash, model - {k}, t0, t1, k, v);
    assert (model - {k})[k := v] == model;
  }

  lemma FrontInMap(hash: Key -> Unsigned, model: map<Key, Val>, t: Table, b: nat)
    requires TableOk(hash, model, t) && b < |t.buckets| && t.buckets[b] != []
    ensures InMap(model, t.buckets[b][0])
  {
    assert ChainOk(hash, model, t.buckets[b], b, |t.buckets|);
  }

  /** An old table without entries can be dropped. */
  lemma EmptyRepresents(hash: Key -> Unsigned, model: map<Key, Val>, t0: Table, t1: Table)
    requires Represents(hash, model, t0, t1) && t0.used == 0
    ensures Represents(hash, model, t1, EMPTY)
  {
    TotalZero(t0.buckets);
    forall k | k in model ensures Holds(hash, t1, (k, model[k])) {
      assert !Holds(hash, t0, (k, model[k]));
    }
  }

  /** A key's entry is in one of its two chains exactly when the key is in the map. */
  lemma FoundIff(hash: Key -> Unsigned, model: map<Key, Val>, t0: Table, t1: Table, k: Key, v: Val)
    requires Represents(hash, model, t0, t1)
    ensures Holds(hash, t0, (k, v)) || Holds(hash, t1, (k, v)) <==> InMap(model, (k, v))
  {
    if Holds(hash, t0, (k, v)) {
      var b := Slot(hash(k), |t0.buckets|);
      assert ChainOk(hash, model, t0.buckets[b], b, |t0.buckets|);
    }
    if Holds(hash, t1, (k, v)) {
      var b := Slot(hash(k), |t1.buckets|);
      assert ChainOk(hash, model, t1.buckets[b], b, |t1.buckets|);
    }
  }

  /** A key that neither of its chains has is not in the map. */
  lemma MissingIf(hash: Key -> Unsigned, model: map<Key, Val>, t0: Table, t1: Table, k: Key)
    requires Represents(hash, model, t0, t1)
    requires t0.buckets == [] || forall e :: e in t0.buckets[Slot(hash(k), |t0.buckets|)] ==> e.0 != k
    requires t1.buckets == [] || forall e :: e in t1.buckets[Slot(hash(k), |t1.buckets|)] ==> e.0 != k
    ensures k !in model && model - {k} == model
  {
  }

  /** _dictNextPower: the smallest power of two that is at least 4 and at least the size asked for. */
  function NextPower(size: nat): (r: nat)
    ensures r >= size && r >= 4 && IsPow2(r) && (r > 4 ==> r < 2 * size)
  {
    NextPowerFrom(size, 2)
  }

  function NextPowerFrom(size: nat, p: nat): (r: nat)
    requires p >= 2 && (p == 2 || Pow2(p - 1) < size)
    ensures r >= size && r >= Pow2(p) && IsPow2(r) && (r > 4 ==> r < 2 * size)
    decreases size - Pow2(p)
  {
    Log2OfPow2(p);
    if Pow2(p) >= size then Pow2(p) else NextPowerFrom(size, p + 1)
  }

  lemma FreshTable(hash: Key -> Unsigned, model: map<Key, Val>, t: Table)
    requires t.used == 0 && IsPow2(|t.buckets|) && Log2(|t.buckets|) <= WIDTH
    requires forall b :: 0 <= b < |t.buckets| ==> t.buckets[b] == []
    ensures TableOk(hash, model, t)
    ensures forall e: (Key, Val) :: !Holds(hash, t, e)
  {
    TotalZero(t.buckets);
  }

  lemma FreshFirst(hash: Key -> Unsigned, model: map<Key, Val>, t0: Table, t: Table)
    requires Represents(hash, model, t0, EMPTY) && t0.buckets == [] && t.used == 0
    requires TableOk(hash, model, t)
    ensures Represents(hash, model, t, EMPTY)
  {
  }

  lemma FreshSecond(hash: Key -> Unsigned, model: map<Key, Val>, t0: Table, t: Table)
    requires Represents(hash, model, t0, EMPTY) && t.used == 0 && TableOk(hash, model, t)
    requires forall e: (Key, Val) :: !Holds(hash, t, e)
    ensures Represents(hash, model, t0, t)
  {
  }

  lemma Log2Below(r: nat, n: nat)
    requires IsPow2(r) && r < Pow2(n)
    ensures Log2(r) < n
  {
    if Log2(r) >= n {
      Pow2Monotone(n, Log2(r));
    }
  }

  lemma Log2Ordered(s0: nat, s1: nat)
    requires IsPow2(s0) && IsPow2(s1) && s0 <= s1
    ensures Log2(s0) <= Log2(s1)
  {
    if s0 < s1 {
      Log2Below(s0, Log2(s1));
    }
  }

  // --- what an operation does to the chains while no entry moves ------------------------------

  /** An entry with key k has been cut out of one chain. */
  ghost predicate CutFrom(t: Table, t': Table, k: Key) {
    exists b: nat, i: nat ::
      && b < |t.buckets| && i < |t.buckets[b]| && t.buckets[b][i].0 == k
      && t'.buckets == t.buckets[b := Cut(t.buckets[b], i)]
  }

  ghost predicate Bare(t: Table) {
    forall b :: 0 <= b < |t.buckets| ==> t.buckets[b] == []
  }

  /** The tables are as they were, or one has been set up: the first if there was none, else the second. */
  ghost predicate SetUp(t0: Table, t1: Table, rehashing: bool, u0: Table, u1: Table, rehashing': bool) {
    || (u0 == t0 && u1 == t1 && rehashing' == rehashing)
    || (!rehashing && !rehashing' && t0.buckets == [] && Bare(u0) && u1 == t1)
    || (!rehashing && rehashing' && u0 == t0 && t1 == EMPTY && Bare(u1))
  }

  /** An entry has been put at the front of a chain. */
  ghost predicate PushedTo(t: Table, t': Table, e: (Key, Val)) {
    exists b: nat :: b < |t.buckets| && t'.buckets == t.buckets[b := [e] + t.buckets[b]]
  }

  /** ... in the second table during a rehash. */
  ghost predicate Linked(t0: Table, t1: Table, rehashing: bool, t0': Table, t1': Table, e: (Key, Val)) {
    if rehashing then t0' == t0 && PushedTo(t1, t1', e) else t1' == t1 && PushedTo(t0, t0', e)
  }

  ghost predicate AddedInPlace(t0: Table, t1: Table, rehashing: bool, t0': Table, t1': Table, rehashing': bool,
                               added: bool, e: (Key, Val)) {
    exists u0, u1 ::
      && SetUp(t0, t1, rehashing, u0, u1, rehashing')
      && if added then Linked(u0, u1, rehashing', t0', t1', e) else t0' == u0 && t1' == u1
  }
}
