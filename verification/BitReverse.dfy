/**
  rev of project/network/redis/redis-3.2/src/dict.c:775-783: bits are reversed by swapping
  halves, then quarters, and so on down to single bits.
*/
module BitReverse {
  import opened Words
  import opened ScanOrder

  predicate On(v: nat, i: nat) {
    Bit(v, i) == 1
  }

  // --- bits of the operators ---------------------------------------------------------------

  lemma {:induction false} BitAnd(a: nat, b: nat, i: nat)
    ensures On(And(a, b), i) <==> On(a, i) && On(b, i)
    decreases i
  {
    if a == 0 || b == 0 {
      BitZero(i);
    } else if i > 0 {
      BitAnd(a / 2, b / 2, i - 1);
    }
  }

  lemma {:induction false} BitZero(i: nat)
    ensures !On(0, i)
  {
    if i > 0 {
      BitZero(i - 1);
    }
  }

  lemma {:induction false} BitOr(a: nat, b: nat, i: nat)
    ensures On(Or(a, b), i) <==> On(a, i) || On(b, i)
    decreases i
  {
    BitZero(i);
    if a != 0 && b != 0 && i > 0 {
      BitOr(a / 2, b / 2, i - 1);
    }
  }

  lemma {:induction false} BitXor(a: nat, b: nat, i: nat)
    ensures On(Xor(a, b), i) <==> On(a, i) != On(b, i)
    decreases i
  {
    XorHalf(a, b);
    if i > 0 {
      BitXor(a / 2, b / 2, i - 1);
    }
  }

  lemma {:induction false} BitNot(a: nat, n: nat, i: nat)
    requires a < Pow2(n) && i < n
    ensures On(Not(a, n), i) <==> !On(a, i)
    decreases i
  {
    NotHalf(a, n);
    if i > 0 {
      BitNot(a / 2, n - 1, i - 1);
    }
  }

  lemma NotHalf(a: nat, n: nat)
    requires n > 0 && a < Pow2(n)
    ensures a / 2 < Pow2(n - 1) && Not(a, n) / 2 == Not(a / 2, n - 1) && Not(a, n) % 2 == 1 - a % 2
  {
  }

  lemma {:induction false} BitRight(v: nat, s: nat, i: nat)
    ensures On(Right(v, s), i) <==> On(v, i + s)
    decreases s
  {
    if s > 0 {
      BitRight(v / 2, s - 1, i);
    }
  }

  /** v << s, before it is cut to the width of a word */
  function Left(v: nat, s: nat): nat {
    if s == 0 then v else 2 * Left(v, s - 1)
  }

  lemma {:induction false} BitLeft(v: nat, s: nat, i: nat)
    ensures On(Left(v, s), i) <==> i >= s && On(v, i - s)
    decreases s
  {
    if s > 0 && i > 0 {
      BitLeft(v, s - 1, i - 1);
    }
  }

  lemma {:induction false} BitMod(v: nat, n: nat, i: nat)
    requires i < n
    ensures On(v % Pow2(n), i) <==> On(v, i)
    decreases i
  {
    ModBit(v, n);
    if i > 0 {
      BitMod(v / 2, n - 1, i - 1);
    }
  }

  /** A word is determined by its bits. */
  lemma {:induction false} SameBits(a: nat, b: nat, n: nat)
    requires a < Pow2(n) && b < Pow2(n) && forall i: nat | i < n :: On(a, i) == On(b, i)
    ensures a == b
  {
    if n > 0 {
      forall i: nat | i < n - 1
        ensures On(a / 2, i) == On(b / 2, i)
      {
        assert On(a, i + 1) == On(b, i + 1);
      }
      SameBits(a / 2, b / 2, n - 1);
      assert On(a, 0) == On(b, 0);
    }
  }

  // --- one round ------------------------------------------------------------------------------

  /** Is i in an even block of s bits? */
  predicate Even(i: nat, s: nat)
    requires s > 0
  {
    (i / s) % 2 == 0
  }

  /** The place of i when blocks of s bits have been put in the opposite order, among n bits. */
  function Mirror(i: nat, s: nat, n: nat): int
    requires s > 0
  {
    n - s - s * (i / s) + i % s
  }

  lemma Halved(q: nat, h: nat, b: nat)
    requires h == q / 2 && b == q % 2
    ensures q == 2 * h + b && b < 2
  {
  }

  lemma TwiceTimes(s: nat, h: nat, b: nat)
    ensures s * (2 * h + b) == (2 * s) * h + s * b
  {
  }

  // The same place in blocks of s bits and in blocks twice as large
  lemma DoubleBlock(i: nat, s: nat, h: nat, b: nat, r: nat)
    requires s > 0 && b < 2 && r < s && i == s * (2 * h + b) + r
    ensures i / (2 * s) == h && i % (2 * s) == s * b + r
  {
    TwiceTimes(s, h, b);
    BitTimes(s, b);
    DivModUnique(i, 2 * s, h, s * b + r);
  }

  lemma BitTimes(s: nat, b: nat)
    requires b < 2
    ensures s * b == if b == 1 then s else 0
  {
  }

  /** A place and its block, twice as large blocks below. */
  lemma Blocks(i: nat, s: nat, q: nat, r: nat)
    requires s > 0 && i == s * q + r && r < s
    ensures i / s == q && i % s == r
    ensures i / (2 * s) == q / 2 && i % (2 * s) == r + if q % 2 == 1 then s else 0
  {
    DivModUnique(i, s, q, r);
    Halved(q, q / 2, q % 2);
    DoubleBlock(i, s, q / 2, q % 2, r);
    BitTimes(s, q % 2);
  }

  lemma MirrorOf(s: nat, q: nat, q': nat, r: nat, n: nat)
    requires s > 0 && q' == (if q % 2 == 0 then q + 1 else q - 1)
    ensures n - 2 * s - 2 * s * (q' / 2) + (r + if q' % 2 == 1 then s else 0) == n - s - s * q + r
  {
    var h := q / 2;
    assert q' / 2 == h && q == 2 * h + q % 2;
    assert s * q == 2 * s * h + s * (q % 2);
  }

  lemma MirrorSwaps(i: nat, s: nat, n: nat, j: nat)
    requires s > 0 && j == (if Even(i, s) then i + s else i - s)
    ensures Mirror(j, 2 * s, n) == Mirror(i, s, n)
  {
    var q, r := i / s, i % s;
    var q' := if q % 2 == 0 then q + 1 else q - 1;
    assert j == s * q' + r;
    Blocks(j, s, q', r);
    MirrorOf(s, q, q', r, n);
  }

  /** A block of t bits that begins below n ends there too. */
  lemma BlockFits(i: nat, t: nat, m: nat, h: nat, r: nat)
    requires t > 0 && i == t * h + r && r < t && i < t * m
    ensures t * h + t <= t * m
  {
    if h >= m {
      AtLeastTimes(t, h, m);
    }
    AtLeastTimes(t, m, h + 1);
  }

  lemma EvenHasNext(i: nat, s: nat, n: nat)
    requires s > 0 && i < n && n % (2 * s) == 0 && Even(i, s)
    ensures i + s < n
  {
    Blocks(i, s, i / s, i % s);
    BlockFits(i, 2 * s, n / (2 * s), i / (2 * s), i % (2 * s));
  }

  lemma OddHasPrevious(i: nat, s: nat)
    requires s > 0 && !Even(i, s)
    ensures i >= s
  {
    if i < s {
      SmallMod(i, s);
    }
  }

  /** mask before the round for blocks of s bits: the even blocks of 2 * s bits */
  ghost predicate MaskOk(mask: nat, s: nat, n: nat)
    requires s > 0
  {
    mask < Pow2(n) && forall i: nat | i < n :: On(mask, i) <==> Even(i, s)
  }

  lemma Before(i: nat, s: nat)
    requires 0 < s <= i
    ensures i / s > 0 && (i - s) / (2 * s) == (i / s - 1) / 2
  {
    var q, r := i / s, i % s;
    assert i == s * q + r;
    assert i - s == s * (q - 1) + r;
    DivModUnique(i - s, s, q - 1, r);
    Blocks(i - s, s, q - 1, r);
  }

  lemma HalfParity(q: nat)
    ensures q > 0 ==> (q % 2 == 0 <==> ((q / 2) % 2 == 0) != (((q - 1) / 2) % 2 == 0))
  {
  }

  lemma EvenChanges(i: nat, s: nat)
    requires s > 0
    ensures Even(i, s) <==> Even(i, 2 * s) != (i >= s && Even(i - s, 2 * s))
  {
    Blocks(i, s, i / s, i % s);
    HalfParity(i / s);
    if i >= s {
      Before(i, s);
    } else {
      SmallMod(i, s);
    }
  }

  /** mask ^= mask << s */
  lemma MaskRound(mask: nat, s: nat, n: nat)
    requires s > 0 && MaskOk(mask, 2 * s, n)
    ensures MaskOk(Xor(mask, Left(mask, s) % Pow2(n)), s, n)
  {
    var shifted := Left(mask, s) % Pow2(n);
    XorBounded(mask, shifted, n);
    forall i: nat | i < n
      ensures On(Xor(mask, shifted), i) <==> Even(i, s)
    {
      BitXor(mask, shifted, i);
      BitMod(Left(mask, s), n, i);
      BitLeft(mask, s, i);
      EvenChanges(i, s);
    }
  }

  /** Bit i is the one that was at its mirror place. */
  ghost predicate Mirrored(v0: nat, v: nat, s: nat, n: nat)
    requires s > 0
  {
    v < Pow2(n) && forall i: nat | i < n :: 0 <= Mirror(i, s, n) < n && (On(v, i) <==> On(v0, Mirror(i, s, n)))
  }

  function Swapped(v: nat, mask: nat, s: nat, n: nat): nat
    requires mask < Pow2(n)
  {
    Or(And(Right(v, s), mask), And(Left(v, s) % Pow2(n), Not(mask, n)))
  }

  lemma BitSwapped(v: nat, mask: nat, s: nat, n: nat, i: nat)
    requires s > 0 && MaskOk(mask, s, n) && i < n && n % (2 * s) == 0
    ensures Even(i, s) ==> i + s < n && (On(Swapped(v, mask, s, n), i) <==> On(v, i + s))
    ensures !Even(i, s) ==> i >= s && (On(Swapped(v, mask, s, n), i) <==> On(v, i - s))
  {
    if Even(i, s) {
      EvenHasNext(i, s, n);
    } else {
      OddHasPrevious(i, s);
    }
    BitOr(And(Right(v, s), mask), And(Left(v, s) % Pow2(n), Not(mask, n)), i);
    BitAnd(Right(v, s), mask, i);
    BitAnd(Left(v, s) % Pow2(n), Not(mask, n), i);
    BitRight(v, s, i);
    BitMod(Left(v, s), n, i);
    BitLeft(v, s, i);
    BitNot(mask, n, i);
  }

  lemma {:induction false} OrBelow(a: nat, b: nat, n: nat)
    requires a < Pow2(n) && b < Pow2(n)
    ensures Or(a, b) < Pow2(n)
    decreases n
  {
    if a != 0 && b != 0 {
      OrBelow(a / 2, b / 2, n - 1);
    }
  }

  /** One round of the loop. */
  lemma SwapRound(v0: nat, v: nat, mask: nat, s: nat, n: nat)
    requires s > 0 && n % (2 * s) == 0 && Mirrored(v0, v, 2 * s, n) && MaskOk(mask, s, n)
    ensures Mirrored(v0, Swapped(v, mask, s, n), s, n)
  {
    AndBelow(Right(v, s), mask);
    AndBelow(Left(v, s) % Pow2(n), Not(mask, n));
    OrBelow(And(Right(v, s), mask), And(Left(v, s) % Pow2(n), Not(mask, n)), n);
    forall i: nat | i < n
      ensures 0 <= Mirror(i, s, n) < n && (On(Swapped(v, mask, s, n), i) <==> On(v0, Mirror(i, s, n)))
    {
      BitSwapped(v, mask, s, n, i);
      MirrorSwaps(i, s, n, if Even(i, s) then i + s else i - s);
    }
  }

  lemma Start(v0: nat, n: nat)
    requires n > 0 && v0 < Pow2(n)
    ensures MaskOk(Pow2(n) - 1, n, n) && Mirrored(v0, v0, n, n)
  {
    forall i: nat | i < n
      ensures On(Pow2(n) - 1, i) && Even(i, n) && Mirror(i, n, n) == i
    {
      SmallMod(i, n);
      BitZero(i);
      BitNot(0, n, i);
    }
  }

  lemma Finish(v0: nat, v: nat, n: nat)
    requires n > 0 && v0 < Pow2(n) && Mirrored(v0, v, 1, n)
    ensures v == Reverse(v0, n)
  {
    ReverseBelow(v0, n);
    forall i: nat | i < n
      ensures On(v, i) == On(Reverse(v0, n), i)
    {
      ReverseBits(v0, n, i);
      assert Mirror(i, 1, n) == n - 1 - i;
    }
    SameBits(v, Reverse(v0, n), n);
  }

  lemma Divides(j: nat, k: nat)
    requires 0 < j <= k
    ensures Pow2(j) == 2 * Pow2(j - 1) && Pow2(k) % (2 * Pow2(j - 1)) == 0
  {
    Pow2Sum(j, k - j);
    DivModUnique(Pow2(k), Pow2(j), Pow2(k - j), 0);
  }

  /** rev, for words of n bits, a power of two */
  method Rev(v0: nat, n: nat, ghost k: nat) returns (v: nat)
    requires n == Pow2(k) && v0 < Pow2(n)
    ensures v == Reverse(v0, n)
  {
    var s: nat, mask: nat := n, Pow2(n) - 1;
    v := v0;
    Start(v0, n);
    ghost var j: nat := k;
    while s / 2 > 0
      invariant s == Pow2(j) && j <= k && MaskOk(mask, s, n) && Mirrored(v0, v, s, n)
      decreases s
    {
      Divides(j, k);
      s, j := s / 2, j - 1;
      mask, v := Round(v0, v, mask, s, n);
    }
    Finish(v0, v, n);
  }

  // One turn of the loop
  method Round(ghost v0: nat, v: nat, mask: nat, s: nat, n: nat) returns (mask': nat, v': nat)
    requires s > 0 && n % (2 * s) == 0 && MaskOk(mask, 2 * s, n) && Mirrored(v0, v, 2 * s, n)
    ensures MaskOk(mask', s, n) && Mirrored(v0, v', s, n)
  {
    MaskRound(mask, s, n);
    mask' := Xor(mask, Left(mask, s) % Pow2(n));
    SwapRound(v0, v, mask', s, n);
    v' := Or(And(Right(v, s), mask'), And(Left(v, s) % Pow2(n), Not(mask', n)));
  }
}
