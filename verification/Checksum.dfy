/**
  Cyclic checksums over any register type: what the table-driven loop of
  project/network/redis/redis-3.2/src/crc64.c:173-181 promises, from the few laws it rests on.
*/
module Checksum {

  /**
    Registers W and bytes B: addition (exclusive or) of both, the shift by a byte, the lowest byte,
    a table, and the register that eight given bytes make up.
  */
  datatype Register<!W, !B> = Register(
    add: (W, W) -> W,
    zero: W,
    next: W -> W,
    low: W -> B,
    plus: (B, B) -> B,
    none: B,
    tab: B -> W,
    word: seq<B> -> W)

  function Step<W, B>(r: Register<W, B>, crc: W, b: B): W {
    r.add(r.tab(r.plus(r.low(crc), b)), r.next(crc))
  }

  function Feed<W, B>(r: Register<W, B>, crc: W, s: seq<B>): W
    decreases |s|
  {
    if s == [] then crc else Feed(r, Step(r, crc, s[0]), s[1..])
  }

  /** The lowest k bytes, lowest first. */
  function Bytes<W, B>(r: Register<W, B>, x: W, k: nat): (s: seq<B>)
    ensures |s| == k
    decreases k
  {
    if k == 0 then [] else [r.low(x)] + Bytes(r, r.next(x), k - 1)
  }

  function Shifts<W, B>(r: Register<W, B>, x: W, k: nat): W
    decreases k
  {
    if k == 0 then x else Shifts(r, r.next(x), k - 1)
  }

  // The laws, by name, for the registers they are about

  predicate Associates<W(==), B>(r: Register<W, B>, a: W, b: W, c: W) {
    r.add(r.add(a, b), c) == r.add(a, r.add(b, c))
  }

  predicate Commutes<W(==), B>(r: Register<W, B>, a: W, b: W) {
    r.add(a, b) == r.add(b, a)
  }

  predicate SelfInverse<W(==), B>(r: Register<W, B>, a: W) {
    r.add(a, a) == r.zero && r.add(a, r.zero) == a
  }

  predicate Neutral<W, B(==)>(r: Register<W, B>, x: B) {
    r.plus(x, r.none) == x
  }

  predicate Cancels<W, B(==)>(r: Register<W, B>, x: B, y: B, b: B) {
    r.plus(x, b) == r.plus(y, b) ==> x == y
  }

  predicate Additive<W(==), B(==)>(r: Register<W, B>, a: W, b: W) {
    r.next(r.add(a, b)) == r.add(r.next(a), r.next(b)) && r.low(r.add(a, b)) == r.plus(r.low(a), r.low(b))
  }

  predicate MadeOfParts<W(==), B(==)>(r: Register<W, B>, a: W, b: W) {
    r.next(a) == r.next(b) && r.low(a) == r.low(b) ==> a == b
  }

  predicate HasEightBytes<W(==), B>(r: Register<W, B>, x: W) {
    Shifts(r, x, 8) == r.zero
  }

  predicate Spells<W, B(==)>(r: Register<W, B>, s: seq<B>) {
    |s| == 8 ==> Bytes(r, r.word(s), 8) == s
  }

  /** No entry becomes another by adding a shifted register. */
  predicate Distinct<W(==), B(==)>(r: Register<W, B>, i: B, j: B, a: W, b: W) {
    r.add(r.tab(i), r.next(a)) == r.add(r.tab(j), r.next(b)) ==> i == j
  }

  ghost predicate Laws<W(!new), B(!new)>(r: Register<W, B>) {
    && (forall a, b, c :: Associates(r, a, b, c))
    && (forall a, b :: Commutes(r, a, b))
    && (forall a :: SelfInverse(r, a))
    && (forall x :: Neutral(r, x))
    && (forall x, y, b :: Cancels(r, x, y, b))
    && (forall a, b :: Additive(r, a, b))
    && (forall a, b :: MadeOfParts(r, a, b))
    && (forall x :: HasEightBytes(r, x))
    && (forall s :: Spells(r, s))
    && (forall i, j, a, b :: Distinct(r, i, j, a, b))
    && r.tab(r.none) == r.zero && r.next(r.zero) == r.zero && r.low(r.zero) == r.none
  }

  lemma {:induction false} FeedAppend<W, B>(r: Register<W, B>, crc: W, a: seq<B>, b: seq<B>)
    ensures Feed(r, crc, a + b) == Feed(r, Feed(r, crc, a), b)
    decreases |a|
  {
    if a == [] {
      assert a + b == b;
    } else {
      assert (a + b)[1..] == a[1..] + b;
      FeedAppend(r, Step(r, crc, a[0]), a[1..], b);
    }
  }

  lemma FeedOne<W, B>(r: Register<W, B>, crc: W, a: B, rest: seq<B>)
    ensures Feed(r, crc, [a] + rest) == Feed(r, Step(r, crc, a), rest)
  {
    assert ([a] + rest)[1..] == rest;
  }

  lemma FeedThree<W, B>(r: Register<W, B>, crc: W, a: B, b: B, c: B, rest: seq<B>)
    ensures Feed(r, crc, [a, b, c] + rest) == Feed(r, Step(r, Step(r, Step(r, crc, a), b), c), rest)
  {
    FeedOne(r, crc, a, [b, c] + rest);
    FeedOne(r, Step(r, crc, a), b, [c] + rest);
    FeedOne(r, Step(r, Step(r, crc, a), b), c, rest);
    assert [a, b, c] + rest == [a] + ([b, c] + rest) && [b, c] + rest == [b] + ([c] + rest);
  }

  lemma Cancel<W(!new), B(!new)>(r: Register<W, B>, t: W, a: W, b: W)
    requires Laws(r) && r.add(t, a) == r.add(t, b)
    ensures a == b
  {
    assert Associates(r, t, t, a) && Associates(r, t, t, b) && SelfInverse(r, t);
    assert Commutes(r, r.zero, a) && Commutes(r, r.zero, b) && SelfInverse(r, a) && SelfInverse(r, b);
  }

  /** From the new register and the byte the old register can be told. */
  lemma StepInjective<W(!new), B(!new)>(r: Register<W, B>, a: W, b: W, x: B)
    requires Laws(r) && Step(r, a, x) == Step(r, b, x)
    ensures a == b
  {
    var i, j := r.plus(r.low(a), x), r.plus(r.low(b), x);
    assert Distinct(r, i, j, a, b);
    Cancel(r, r.tab(i), r.next(a), r.next(b));
    assert Cancels(r, r.low(a), r.low(b), x) && MadeOfParts(r, a, b);
  }

  lemma {:induction false} FeedInjective<W(!new), B(!new)>(r: Register<W, B>, a: W, b: W, s: seq<B>)
    requires Laws(r) && Feed(r, a, s) == Feed(r, b, s)
    ensures a == b
    decreases |s|
  {
    if s != [] {
      FeedInjective(r, Step(r, a, s[0]), Step(r, b, s[0]), s[1..]);
      StepInjective(r, a, b, s[0]);
    }
  }

  /** k zero bytes. */
  function Zeros<W, B>(r: Register<W, B>, x: W, k: nat): W
    decreases k
  {
    if k == 0 then x else Zeros(r, Step(r, x, r.none), k - 1)
  }

  lemma StepAdd<W(!new), B(!new)>(r: Register<W, B>, c: W, x: W)
    requires Laws(r)
    ensures Step(r, r.add(c, x), r.none) == r.add(Step(r, c, r.low(x)), r.next(x))
  {
    var i := r.plus(r.low(c), r.low(x));
    assert Additive(r, c, x) && Neutral(r, i) && Associates(r, r.tab(i), r.next(c), r.next(x));
  }

  /** Feeding bytes one by one is feeding zeros to a register to which they were added at once. */
  lemma {:induction false} FeedBytes<W(!new), B(!new)>(r: Register<W, B>, c: W, x: W, k: nat)
    requires Laws(r)
    ensures r.add(Feed(r, c, Bytes(r, x, k)), Shifts(r, x, k)) == Zeros(r, r.add(c, x), k)
    decreases k
  {
    if k > 0 {
      StepAdd(r, c, x);
      assert Bytes(r, x, k)[1..] == Bytes(r, r.next(x), k - 1);
      FeedBytes(r, Step(r, c, r.low(x)), r.next(x), k - 1);
    }
  }

  lemma {:induction false} ZerosInjective<W(!new), B(!new)>(r: Register<W, B>, a: W, b: W, k: nat)
    requires Laws(r) && Zeros(r, a, k) == Zeros(r, b, k)
    ensures a == b
    decreases k
  {
    if k > 0 {
      ZerosInjective(r, Step(r, a, r.none), Step(r, b, r.none), k - 1);
      StepInjective(r, a, b, r.none);
    }
  }

  lemma FeedWord<W(!new), B(!new)>(r: Register<W, B>, c: W, s: seq<B>)
    requires Laws(r) && |s| == 8
    ensures Feed(r, c, s) == Zeros(r, r.add(c, r.word(s)), 8)
  {
    FeedBytes(r, c, r.word(s), 8);
    assert Spells(r, s) && HasEightBytes(r, r.word(s)) && SelfInverse(r, Feed(r, c, s));
  }

  /** Different eight bytes leave different registers. */
  lemma WindowInjective<W(!new), B(!new)>(r: Register<W, B>, c: W, s: seq<B>, s': seq<B>)
    requires Laws(r) && |s| == |s'| == 8 && Feed(r, c, s) == Feed(r, c, s')
    ensures s == s'
  {
    FeedWord(r, c, s);
    FeedWord(r, c, s');
    ZerosInjective(r, r.add(c, r.word(s)), r.add(c, r.word(s')), 8);
    Cancel(r, c, r.word(s), r.word(s'));
    assert Spells(r, s) && Spells(r, s');
  }

  lemma {:induction false} ZerosOfZero<W(!new), B(!new)>(r: Register<W, B>, k: nat)
    requires Laws(r)
    ensures Zeros(r, r.zero, k) == r.zero
  {
    if k > 0 {
      assert SelfInverse(r, r.zero) && Neutral(r, r.none) && Step(r, r.zero, r.none) == r.zero;
      ZerosOfZero(r, k - 1);
    }
  }

  lemma OwnBytes<W(!new), B(!new)>(r: Register<W, B>, c: W)
    requires Laws(r)
    ensures Feed(r, c, Bytes(r, c, 8)) == r.zero
  {
    FeedBytes(r, c, c, 8);
    ZerosOfZero(r, 8);
    assert HasEightBytes(r, c) && SelfInverse(r, c) && SelfInverse(r, Feed(r, c, Bytes(r, c, 8)));
  }

  /** A register becomes zero exactly when it is fed its own bytes. */
  lemma ZeroIffOwnBytes<W(!new), B(!new)>(r: Register<W, B>, c: W, s: seq<B>)
    requires Laws(r) && |s| == 8
    ensures Feed(r, c, s) == r.zero <==> s == Bytes(r, c, 8)
  {
    OwnBytes(r, c);
    if Feed(r, c, s) == r.zero {
      WindowInjective(r, c, s, Bytes(r, c, 8));
    }
  }

  /** Two strings that differ in eight bytes in a row leave different registers. */
  lemma BurstDetected<W(!new), B(!new)>(r: Register<W, B>, c: W, a: seq<B>, s: seq<B>, s': seq<B>, b: seq<B>)
    requires Laws(r) && |s| == |s'| == 8 && s != s'
    ensures Feed(r, c, a + s + b) != Feed(r, c, a + s' + b)
  {
    FeedAppend(r, c, a, s);
    FeedAppend(r, c, a, s');
    FeedAppend(r, c, a + s, b);
    FeedAppend(r, c, a + s', b);
    var m := Feed(r, c, a);
    if Feed(r, c, a + s + b) == Feed(r, c, a + s' + b) {
      FeedInjective(r, Feed(r, m, s), Feed(r, m, s'), b);
      WindowInjective(r, m, s, s');
    }
  }
}
