/**
  The order in which dictScan of project/network/redis/redis-3.2/src/dict.c visits
  hash values, and when one call visits all it should.

  `Reverse(h, n)` is the place of the hash value h in that order.  The claim behind
  the cursor v is that everything placed before v has been visited; it does not
  mention the table, so it survives any resize.
*/
module ScanOrder {
  import opened Words

  /** The cursor after v for a table of 2^p buckets: an increment carried from the top bit down. */
  function Next(v: nat, p: nat): (r: nat)
    ensures r < Pow2(p)
  {
    if p == 0 then 0 else
      var r := Next(v / 2, p - 1);
      if r != 0 then 2 * r + v % 2 else if v % 2 == 0 then 1 else 0
  }

  lemma {:induction false} ReverseBelow(v: nat, n: nat)
    ensures Reverse(v, n) < Pow2(n)
  {
    if n > 0 {
      ReverseBelow(v / 2, n - 1);
    }
  }

  // A number read as its top bit and the rest.
  lemma {:induction false} ReverseTop(hi: nat, lo: nat, n: nat)
    requires hi < 2 && lo < Pow2(n)
    ensures Reverse(Place(hi, n) + lo, n + 1) == hi + 2 * Reverse(lo, n)
  {
    if n > 0 {
      var x := Place(hi, n) + lo;
      assert x % 2 == lo % 2 && x / 2 == Place(hi, n - 1) + lo / 2;
      ReverseTop(hi, lo / 2, n - 1);
    }
  }

  lemma {:induction false} ReverseTwice(v: nat, n: nat)
    requires v < Pow2(n)
    ensures Reverse(Reverse(v, n), n) == v
  {
    if n > 0 {
      ReverseBelow(v / 2, n - 1);
      ReverseTop(v % 2, Reverse(v / 2, n - 1), n - 1);
      ReverseTwice(v / 2, n - 1);
    }
  }

  /** Bit i of the reversal is bit n - 1 - i of the word. */
  lemma {:induction false} ReverseBits(v: nat, n: nat, i: nat)
    requires i < n
    ensures Bit(Reverse(v, n), i) == Bit(v, n - 1 - i)
  {
    ReverseBelow(v / 2, n - 1);
    if i == n - 1 {
      TopBit(v % 2, Reverse(v / 2, n - 1), n - 1);
    } else {
      LowBit(v % 2, Reverse(v / 2, n - 1), n - 1, i);
      ReverseBits(v / 2, n - 1, i);
    }
  }

  lemma {:induction false} TopBit(hi: nat, lo: nat, n: nat)
    requires hi < 2 && lo < Pow2(n)
    ensures Bit(Place(hi, n) + lo, n) == hi
  {
    if n > 0 {
      var x := Place(hi, n) + lo;
      assert x / 2 == Place(hi, n - 1) + lo / 2;
      TopBit(hi, lo / 2, n - 1);
    }
  }

  lemma {:induction false} LowBit(hi: nat, lo: nat, n: nat, i: nat)
    requires hi < 2 && lo < Pow2(n) && i < n
    ensures Bit(Place(hi, n) + lo, i) == Bit(lo, i)
  {
    var x := Place(hi, n) + lo;
    assert x / 2 == Place(hi, n - 1) + lo / 2 && x % 2 == lo % 2;
    if i > 0 {
      LowBit(hi, lo / 2, n - 1, i - 1);
    }
  }

  // v with every bit from p up to n - 1 set.
  function Filled(v: nat, p: nat, n: nat): (r: nat)
    requires p <= n
    ensures r < Pow2(n)
  {
    if p == 0 then Pow2(n) - 1 else v % 2 + 2 * Filled(v / 2, p - 1, n - 1)
  }

  lemma {:induction false} FilledIsOr(v: nat, p: nat, n: nat)
    requires p <= n && v < Pow2(n)
    ensures Filled(v, p, n) == Or(v, Span(p, n))
  {
    if p == 0 {
      OrFull(v, n);
    } else {
      FilledIsOr(v / 2, p - 1, n - 1);
      OrEven(v, Span(p - 1, n - 1));
    }
  }

  function Increment(x: nat, n: nat): nat {
    if x + 1 == Pow2(n) then 0 else x + 1
  }

  lemma IncrementIsPlus(x: nat, n: nat)
    requires x < Pow2(n)
    ensures Increment(x, n) == Plus(x, 1, n)
  {
    if x + 1 == Pow2(n) {
      SelfMod(Pow2(n));
    } else {
      SmallMod(x + 1, Pow2(n));
    }
  }

  /** Lines 928-935 of dict.c compute Next. */
  lemma CursorStep(v: nat, p: nat, n: nat)
    requires p <= n && v < Pow2(n)
    ensures Pow2(p) <= Pow2(n)
    ensures Reverse(Plus(Reverse(Or(v, Not(Pow2(p) - 1, n)), n), 1, n), n) == Next(v, p)
  {
    Pow2Monotone(p, n);
    assert Not(Pow2(p) - 1, n) == Span(p, n);
    FilledIsOr(v, p, n);
    ReverseBelow(Filled(v, p, n), n);
    IncrementIsPlus(Reverse(Filled(v, p, n), n), n);
    StepFilled(v, p, n);
  }

  lemma {:induction false} StepFilled(v: nat, p: nat, n: nat)
    requires p <= n
    ensures Reverse(Increment(Reverse(Filled(v, p, n), n), n), n) == Next(v, p)
    decreases n
  {
    if p == 0 {
      ReverseFull(n);
      ReverseZero(n);
    } else {
      var b := Filled(v / 2, p - 1, n - 1);
      StepFilled(v / 2, p - 1, n - 1);
      ReverseBelow(b, n - 1);
      ReverseDouble(v % 2, b, n);
      StepUp(v, p, n, Filled(v, p, n), Reverse(b, n - 1));
    }
  }

  /** The step on one more bit, from the step on the others */
  lemma StepUp(v: nat, p: nat, n: nat, x: nat, rb: nat)
    requires 0 < p <= n && rb < Pow2(n - 1) && Reverse(x, n) == Place(v % 2, n - 1) + rb
    requires Reverse(Increment(rb, n - 1), n - 1) == Next(v / 2, p - 1)
    ensures Reverse(Increment(Reverse(x, n), n), n) == Next(v, p)
  {
    CarryIn(v % 2, rb, n - 1);
  }

  lemma ReverseDouble(b: nat, v: nat, n: nat)
    requires b < 2 && n > 0
    ensures Reverse(b + 2 * v, n) == Place(b, n - 1) + Reverse(v, n - 1)
  {
    assert (b + 2 * v) % 2 == b && (b + 2 * v) / 2 == v;
  }

  lemma CarryIn(v0: nat, rb: nat, n: nat)
    requires v0 < 2 && rb < Pow2(n)
    ensures var r := Reverse(Increment(rb, n), n);
      Reverse(Increment(Place(v0, n) + rb, n + 1), n + 1)
        == if r != 0 then 2 * r + v0 else if v0 == 0 then 1 else 0
  {
    if rb + 1 < Pow2(n) {
      ReverseTop(v0, rb + 1, n);
      NonZero(rb + 1, n);
    } else {
      ReverseZero(n);
      if v0 == 0 {
        ReverseTop(1, 0, n);
      } else {
        ReverseZero(n + 1);
      }
    }
  }

  lemma SelfMod(s: nat)
    requires s > 0
    ensures s % s == 0
  {
  }

  lemma {:induction false} ReverseZero(n: nat)
    ensures Reverse(0, n) == 0
  {
    if n > 0 {
      ReverseZero(n - 1);
    }
  }

  lemma NonZero(v: nat, n: nat)
    requires 0 < v < Pow2(n)
    ensures Reverse(v, n) != 0
  {
    ReverseTwice(v, n);
    ReverseZero(n);
  }

  lemma {:induction false} ReverseFull(n: nat)
    ensures Reverse(Pow2(n) - 1, n) == Pow2(n) - 1
  {
    if n > 0 {
      assert (Pow2(n) - 1) % 2 == 1 && (Pow2(n) - 1) / 2 == Pow2(n - 1) - 1;
      ReverseFull(n - 1);
    }
  }

  // --- what one call visits ------------------------------------------------------

  /** The p lowest bits: the bucket of a hash value in a table of 2^p buckets. */
  function Low(v: nat, p: nat): (r: nat)
    ensures r < Pow2(p)
  {
    if p == 0 then 0 else v % 2 + 2 * Low(v / 2, p - 1)
  }

  lemma {:induction false} LowIsAnd(v: nat, p: nat)
    ensures And(v, Pow2(p) - 1) == Low(v, p) == v % Pow2(p)
  {
    AndMask(v, p);
    if p > 0 {
      LowIsAnd(v / 2, p - 1);
      ModStep(v, p);
    }
  }

  /** The bits from p0 up to p1 - 1, read as a number. */
  function Mid(v: nat, p0: nat, p1: nat): nat
    requires p0 <= p1
  {
    if p0 == 0 then Low(v, p1) else Mid(v / 2, p0 - 1, p1 - 1)
  }

  /** Of the form 2^j - 1. */
  predicate AllOnes(y: nat) {
    y == 0 || (y % 2 == 1 && AllOnes(y / 2))
  }

  /** The test on a cursor that a caller can make: y & (y + 1) == 0. */
  lemma {:induction false} AllOnesTest(y: nat)
    ensures AllOnes(y) <==> And(y, y + 1) == 0
  {
    if y % 2 == 1 {
      AllOnesTest(y / 2);
      assert (y + 1) / 2 == y / 2 + 1 && (y + 1) % 2 == 0;
    } else if y > 0 {
      assert (y + 1) / 2 == y / 2 && (y + 1) % 2 == 1;
      AndSelf(y / 2);
    }
  }

  lemma {:induction false} AndSelf(y: nat)
    ensures And(y, y) == y
  {
    if y > 0 {
      AndSelf(y / 2);
    }
  }

  /** h is placed between the cursor v and the next one. */
  predicate Due(v: nat, h: nat, p: nat, n: nat) {
    && Reverse(v, n) <= Reverse(h, n)
    && (Next(v, p) == 0 || Reverse(h, n) < Reverse(Next(v, p), n))
  }

  /** One call passes over hash values of a single bucket of the smaller table. */
  lemma {:induction false} DueIsOneBucket(v: nat, h: nat, p: nat, n: nat)
    requires p <= n && Due(v, h, p, n)
    ensures Low(h, p) == Low(v, p)
    decreases p
  {
    if p > 0 {
      var r := Next(v / 2, p - 1);
      ReverseBelow(v / 2, n - 1);
      ReverseBelow(h / 2, n - 1);
      ReverseBelow(r, n - 1);
      assert Next(v, p) / 2 == r;
      if v % 2 == h % 2 {
        DueIsOneBucket(v / 2, h / 2, p - 1, n - 1);
      } else if v % 2 == 0 {
        ReverseZero(n - 1);
      }
    }
  }

  lemma {:induction false} BucketIsBounded(v: nat, h: nat, p: nat, n: nat)
    requires p <= n && Low(h, p) == Low(v, p)
    ensures Next(v, p) == 0 || Reverse(h, n) < Reverse(Next(v, p), n)
    decreases p
  {
    if p > 0 {
      var r := Next(v / 2, p - 1);
      ReverseBelow(h / 2, n - 1);
      BucketIsBounded(v / 2, h / 2, p - 1, n - 1);
      assert Next(v, p) / 2 == r;
    }
  }

  /**
    What dictScan emits at cursor v: its bucket of the smaller table, and of the larger
    table the buckets that extend it, from that of v on in plain counting order.
  */
  predicate Visited(v: nat, h: nat, p0: nat, p1: nat) {
    Low(h, p0) == Low(v, p0) && Low(h, p1) >= Low(v, p1)
  }

  lemma {:induction false} GuardSuffices(v: nat, h: nat, p0: nat, p1: nat, n: nat)
    requires p0 <= p1 <= n && Low(h, p0) == Low(v, p0) && AllOnes(Mid(v, p0, p1))
    requires Reverse(v, n) <= Reverse(h, n)
    ensures Low(h, p1) >= Low(v, p1)
    decreases p1
  {
    if p1 > 0 && Low(v, p1) > 0 {
      ReverseBelow(v / 2, n - 1);
      ReverseBelow(h / 2, n - 1);
      if v % 2 == h % 2 {
        GuardSuffices(v / 2, h / 2, if p0 > 0 then p0 - 1 else 0, p1 - 1, n - 1);
      }
    }
  }

  /** When the guard fails some hash value is passed over without being visited. */
  lemma {:induction false} GuardNeeded(v: nat, p0: nat, p1: nat, n: nat) returns (h: nat)
    requires p0 <= p1 <= n && !AllOnes(Mid(v, p0, p1))
    ensures h < Pow2(p1) && Low(h, p0) == Low(v, p0)
    ensures Reverse(v, n) < Reverse(h, n) && Low(h, p1) < Low(v, p1)
    decreases p1
  {
    if p0 == 0 && v % 2 == 0 {
      h := 1;
      ReverseBelow(v / 2, n - 1);
      LowOne(p1);
    } else {
      var h' := GuardNeeded(v / 2, if p0 > 0 then p0 - 1 else 0, p1 - 1, n - 1);
      h := 2 * h' + v % 2;
    }
  }

  lemma LowOne(p: nat)
    requires p > 0
    ensures Low(1, p) == 1
  {
    LowZero(p - 1);
  }

  lemma {:induction false} LowZero(p: nat)
    ensures Low(0, p) == 0
  {
    if p > 0 {
      LowZero(p - 1);
    }
  }

  ghost predicate NothingSkipped(v: nat, p0: nat, p1: nat, n: nat) {
    forall h: nat | h < Pow2(n) :: Due(v, h, p0, n) ==> Visited(v, h, p0, p1)
  }

  /** A call visits every hash value its cursor passes over exactly when the guard holds. */
  lemma NothingSkippedIff(v: nat, p0: nat, p1: nat, n: nat)
    requires p0 <= p1 <= n
    ensures NothingSkipped(v, p0, p1, n) <==> AllOnes(Mid(v, p0, p1))
  {
    if AllOnes(Mid(v, p0, p1)) {
      forall h: nat | h < Pow2(n) && Due(v, h, p0, n) ensures Visited(v, h, p0, p1) {
        DueIsOneBucket(v, h, p0, n);
        GuardSuffices(v, h, p0, p1, n);
      }
    } else {
      var h := GuardNeeded(v, p0, p1, n);
      Pow2Monotone(p1, n);
      BucketIsBounded(v, h, p0, n);
      assert Due(v, h, p0, n) && !Visited(v, h, p0, p1);
    }
  }

  /** With equal tables, with one twice the other, and at cursors that fit the smaller table, it holds. */
  lemma {:induction false} GuardHolds(v: nat, p0: nat, p1: nat)
    requires p0 <= p1 && (p1 <= p0 + 1 || v < Pow2(p0))
    ensures AllOnes(Mid(v, p0, p1))
    decreases p0
  {
    if p0 > 0 {
      GuardHolds(v / 2, p0 - 1, p1 - 1);
    } else if v < Pow2(p0) {
      LowZero(p1);
    } else {
      assert Low(v, p1) < 2;
    }
  }

  // --- the walk over the larger table ------------------------------------------------

  // Adding 2^p to a word of n bits.
  function BumpAt(v: nat, p: nat, n: nat): (r: nat)
    requires p <= n && v < Pow2(n)
    ensures r < Pow2(n)
  {
    if p == 0 then Increment(v, n) else v % 2 + 2 * BumpAt(v / 2, p - 1, n - 1)
  }

  lemma {:induction false} BumpAtIsSum(v: nat, p: nat, n: nat)
    requires p <= n && v < Pow2(n)
    ensures BumpAt(v, p, n) == Plus(v, Pow2(p), n)
  {
    if p == 0 {
      IncrementIsPlus(v, n);
    } else {
      BumpAtIsSum(v / 2, p - 1, n - 1);
      HalvedSum(v, p, n);
    }
  }

  lemma HalvedSum(v: nat, p: nat, n: nat)
    requires 0 < p <= n
    ensures Plus(v, Pow2(p), n) == v % 2 + 2 * Plus(v / 2, Pow2(p - 1), n - 1)
  {
    var x := v + Pow2(p);
    assert x % 2 == v % 2 && x / 2 == v / 2 + Pow2(p - 1);
    ModStep(x, n);
  }

  lemma {:induction false} LowOfIncrement(v: nat, p: nat, n: nat)
    requires p <= n && v < Pow2(n)
    ensures Low(Increment(v, n), p) == if Low(v, p) + 1 < Pow2(p) then Low(v, p) + 1 else 0
  {
    if p > 0 {
      LowOfIncrement(v / 2, p - 1, n - 1);
      if v % 2 == 1 {
        assert Increment(v, n) / 2 == Increment(v / 2, n - 1) && Increment(v, n) % 2 == 0;
      }
    }
  }

  /** One turn of the inner loop goes from one expansion to the next, or back below the smaller size. */
  lemma {:induction false} BumpLow(v: nat, p0: nat, p1: nat, n: nat)
    requires p0 <= p1 <= n && v < Pow2(n)
    ensures var v', c := BumpAt(v, p0, n), Low(v, p1);
      && Low(v', p0) == Low(v, p0) <= c
      && Low(v', p1) == if c + Pow2(p0) < Pow2(p1) then c + Pow2(p0) else Low(v, p0)
  {
    if p0 == 0 {
      LowOfIncrement(v, p1, n);
    } else {
      BumpLow(v / 2, p0 - 1, p1 - 1, n - 1);
      BumpLowFrom(v, BumpAt(v, p0, n), v / 2, BumpAt(v / 2, p0 - 1, n - 1), p0, p1);
    }
  }

  lemma LowStep(v: nat, d: nat, h: nat, p: nat)
    requires v == d + 2 * h && d < 2 && p > 0
    ensures Low(v, p) == d + 2 * Low(h, p - 1)
  {
    Halves(v, d, h);
  }

  // From the halves h of v and h' of v'
  lemma BumpLowFrom(v: nat, v': nat, h: nat, h': nat, p0: nat, p1: nat)
    requires 0 < p0 <= p1 && v == v % 2 + 2 * h && v' == v % 2 + 2 * h'
    requires Low(h', p0 - 1) == Low(h, p0 - 1) <= Low(h, p1 - 1)
    requires Low(h', p1 - 1) ==
             if Low(h, p1 - 1) + Pow2(p0 - 1) < Pow2(p1 - 1) then Low(h, p1 - 1) + Pow2(p0 - 1) else Low(h, p0 - 1)
    ensures Low(v', p0) == Low(v, p0) <= Low(v, p1)
    ensures Low(v', p1) == if Low(v, p1) + Pow2(p0) < Pow2(p1) then Low(v, p1) + Pow2(p0) else Low(v, p0)
  {
    LowStep(v, v % 2, h, p0);
    LowStep(v, v % 2, h, p1);
    LowStep(v', v % 2, h', p0);
    LowStep(v', v % 2, h', p1);
    BumpStep(v % 2, Low(h, p0 - 1), Low(h, p1 - 1), Low(h', p1 - 1), Pow2(p0 - 1), Pow2(p1 - 1));
  }

  // The same with one bit more at the low end: l and c before, c' after, s and t the two sizes
  lemma BumpStep(d: nat, l: nat, c: nat, c': nat, s: nat, t: nat)
    requires d < 2 && l <= c && c' == if c + s < t then c + s else l
    ensures d + 2 * c' == if d + 2 * c + 2 * s < 2 * t then d + 2 * c + 2 * s else d + 2 * l
  {
  }

  /** Numbers with the same p lowest bits are at least 2^p apart. */
  lemma {:induction false} SameLowApart(b: nat, c: nat, p: nat)
    requires Low(b, p) == Low(c, p) && b > c
    ensures b >= c + Pow2(p)
  {
    if p > 0 {
      SameLowApart(b / 2, c / 2, p - 1);
    }
  }

  /** Lines 921-925 of dict.c: the next value of v, and whether the loop goes on. */
  lemma LoopTurn(v: nat, p0: nat, p1: nat, n: nat)
    requires p0 <= p1 <= n && v < Pow2(n)
    ensures Pow2(p0) <= Pow2(n)
    ensures var m0, m1 := Pow2(p0) - 1, Pow2(p1) - 1;
      var v' := Or(And(Plus(Or(v, m0), 1, n), Not(m0, n)), And(v, m0));
      && v' < Pow2(n) && Low(v', p0) == Low(v, p0)
      && (And(v', Xor(m0, m1)) == 0 <==> Low(v, p1) + Pow2(p0) >= Pow2(p1))
      && (And(v', Xor(m0, m1)) != 0 ==> Low(v', p1) == Low(v, p1) + Pow2(p0))
  {
    BumpedIs(v, Pow2(p0) - 1, p0, n);
    Bumped(v, BumpAt(v, p0, n), p0, p1, n, Xor(Pow2(p0) - 1, Pow2(p1) - 1));
  }

  lemma BumpedIs(v: nat, m0: nat, p0: nat, n: nat)
    requires p0 <= n && v < Pow2(n) && m0 == Pow2(p0) - 1
    ensures m0 + 1 <= Pow2(n) && Or(And(Plus(Or(v, m0), 1, n), Not(m0, n)), And(v, m0)) == BumpAt(v, p0, n)
  {
    BumpAbove(v, p0, n);
    BumpAtIsSum(v, p0, n);
  }

  lemma Bumped(v: nat, v': nat, p0: nat, p1: nat, n: nat, mask: nat)
    requires p0 <= p1 <= n && v < Pow2(n) && v' == BumpAt(v, p0, n) && mask == Xor(Pow2(p0) - 1, Pow2(p1) - 1)
    ensures v' < Pow2(n) && Low(v', p0) == Low(v, p0)
    ensures And(v', mask) == 0 <==> Low(v, p1) + Pow2(p0) >= Pow2(p1)
    ensures And(v', mask) != 0 ==> Low(v', p1) == Low(v, p1) + Pow2(p0)
  {
    BumpAtIsSum(v, p0, n);
    BumpLow(v, p0, p1, n);
    XorMasks(p0, p1);
    AndSpan(v', p0, p1);
    LowIsAnd(v', p0);
    LowIsAnd(v', p1);
  }

  lemma {:induction false} LowOfLow(v: nat, p0: nat, p1: nat)
    requires p0 <= p1
    ensures Low(Low(v, p1), p0) == Low(v, p0)
  {
    if p0 > 0 {
      var u := Low(v / 2, p1 - 1);
      assert Low(v, p1) / 2 == u && Low(v, p1) % 2 == v % 2;
      LowOfLow(v / 2, p0 - 1, p1 - 1);
    }
  }

  lemma {:induction false} NextOfLow(v: nat, w: nat, p: nat)
    requires Low(v, p) == Low(w, p)
    ensures Next(v, p) == Next(w, p)
  {
    if p > 0 {
      NextOfLow(v / 2, w / 2, p - 1);
    }
  }

  /** In its own table's order each cursor is one place after the last. */
  lemma NextPlace(v: nat, p: nat)
    ensures Reverse(Next(v, p), p) == Increment(Reverse(v, p), p)
  {
    StepFilled(v, p, p);
    FilledIsLow(v, p);
    ReverseOfLow(v, p);
    ReverseBelow(v, p);
    ReverseTwice(Increment(Reverse(v, p), p), p);
  }

  lemma {:induction false} FilledIsLow(v: nat, p: nat)
    ensures Filled(v, p, p) == Low(v, p)
  {
    if p > 0 {
      FilledIsLow(v / 2, p - 1);
    }
  }

  lemma {:induction false} ReverseOfLow(v: nat, p: nat)
    ensures Reverse(Low(v, p), p) == Reverse(v, p)
  {
    if p > 0 {
      ReverseOfLow(v / 2, p - 1);
      ReverseDouble(v % 2, Low(v / 2, p - 1), p);
    }
  }
}
