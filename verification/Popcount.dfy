/**
  redisPopcount of project/network/redis/redis-3.2/src/bitops.c:40-92: the bits of seven words
  are added up side by side in byte lanes, without one lane running over into the next.
  The table bitsinbyte is checked entry by entry.
*/
module Popcount {
  import opened Words

  function Ones(v: nat): nat {
    if v == 0 then 0 else v % 2 + Ones(v / 2)
  }

  function Total(s: seq<Byte>): nat {
    if s == [] then 0 else Ones(s[0]) + Total(s[1..])
  }

  // --- the table ---------------------------------------------------------------------------------

  // Sixteen entries of bitsinbyte in a row
  function Row(h: nat): (r: seq<nat>)
    requires h < 16
    ensures |r| == 16
  {
    match h
    case 0 => [0, 1, 1, 2, 1, 2, 2, 3, 1, 2, 2, 3, 2, 3, 3, 4]
    case 1 => [1, 2, 2, 3, 2, 3, 3, 4, 2, 3, 3, 4, 3, 4, 4, 5]
    case 2 => [1, 2, 2, 3, 2, 3, 3, 4, 2, 3, 3, 4, 3, 4, 4, 5]
    case 3 => [2, 3, 3, 4, 3, 4, 4, 5, 3, 4, 4, 5, 4, 5, 5, 6]
    case 4 => [1, 2, 2, 3, 2, 3, 3, 4, 2, 3, 3, 4, 3, 4, 4, 5]
    case 5 => [2, 3, 3, 4, 3, 4, 4, 5, 3, 4, 4, 5, 4, 5, 5, 6]
    case 6 => [2, 3, 3, 4, 3, 4, 4, 5, 3, 4, 4, 5, 4, 5, 5, 6]
    case 7 => [3, 4, 4, 5, 4, 5, 5, 6, 4, 5, 5, 6, 5, 6, 6, 7]
    case 8 => [1, 2, 2, 3, 2, 3, 3, 4, 2, 3, 3, 4, 3, 4, 4, 5]
    case 9 => [2, 3, 3, 4, 3, 4, 4, 5, 3, 4, 4, 5, 4, 5, 5, 6]
    case 10 => [2, 3, 3, 4, 3, 4, 4, 5, 3, 4, 4, 5, 4, 5, 5, 6]
    case 11 => [3, 4, 4, 5, 4, 5, 5, 6, 4, 5, 5, 6, 5, 6, 6, 7]
    case 12 => [2, 3, 3, 4, 3, 4, 4, 5, 3, 4, 4, 5, 4, 5, 5, 6]
    case 13 => [3, 4, 4, 5, 4, 5, 5, 6, 4, 5, 5, 6, 5, 6, 6, 7]
    case 14 => [3, 4, 4, 5, 4, 5, 5, 6, 4, 5, 5, 6, 5, 6, 6, 7]
    case _ => [4, 5, 5, 6, 5, 6, 6, 7, 5, 6, 6, 7, 6, 7, 7, 8]
  }

  function BitsInByte(b: Byte): nat {
    Row(b / 16)[b % 16]
  }

  lemma LowestOne(v: nat)
    ensures Ones(v) == v % 2 + Ones(v / 2)
  {
  }

  lemma OnesOfNibble(n: nat)
    requires n < 16
    ensures Ones(n) == NibbleSum(n)
  {
    LowestOne(n);
    LowestOne(n / 2);
    LowestOne(n / 4);
    LowestOne(n / 8);
    assert n / 2 / 2 == n / 4 && n / 4 / 2 == n / 8 && Ones(n / 8 / 2) == 0;
  }

  lemma OnesOfNibbles(b: nat, h: nat, n: nat)
    requires b == 16 * h + n && n < 16
    ensures Ones(b) == Ones(h) + Ones(n)
  {
    LowestOne(b);
    LowestOne(b / 2);
    LowestOne(b / 4);
    LowestOne(b / 8);
    TwoNibbles(b, h, n);
    OnesOfNibble(n);
  }

  lemma TwoNibbles(b: nat, h: nat, n: nat)
    requires b == 16 * h + n && n < 16
    ensures b / 2 / 2 == b / 4 && b / 4 / 2 == b / 8 && b / 8 / 2 == h
    ensures b % 2 == n % 2 && b / 2 % 2 == n / 2 % 2 && b / 4 % 2 == n / 4 % 2 && b / 8 % 2 == n / 8
  {
  }

  // The number of ones in four bits
  function NibbleSum(n: nat): nat {
    n % 2 + n / 2 % 2 + n / 4 % 2 + n / 8
  }

  // The counts for four bits, with k ones before them
  function After(k: nat): seq<nat> {
    [k, k + 1, k + 1, k + 2, k + 1, k + 2, k + 2, k + 3, k + 1, k + 2, k + 2, k + 3, k + 2, k + 3, k + 3, k + 4]
  }

  lemma AfterAt(k: nat, n: nat)
    requires n < 16
    ensures After(k)[n] == k + NibbleSum(n)
  {
    match n
    case 0 => case 1 => case 2 => case 3 => case 4 => case 5 => case 6 => case 7 =>
    case 8 => case 9 => case 10 => case 11 => case 12 => case 13 => case 14 => case 15 =>
  }

  lemma LowRow(h: nat)
    requires h < 8
    ensures Row(h) == After(NibbleSum(h))
  {
    match h
    case 0 => case 1 => case 2 => case 3 => case 4 => case 5 => case 6 => case 7 =>
  }

  lemma HighRow(h: nat)
    requires 8 <= h < 16
    ensures Row(h) == After(NibbleSum(h))
  {
    match h
    case 8 => case 9 => case 10 => case 11 => case 12 => case 13 => case 14 => case 15 =>
  }

  lemma RowAt(h: nat, n: nat)
    requires h < 16 && n < 16
    ensures Row(h)[n] == NibbleSum(h) + NibbleSum(n)
  {
    if h < 8 {
      LowRow(h);
    } else {
      HighRow(h);
    }
    AfterAt(NibbleSum(h), n);
  }

  /** Every entry is the number of ones in its index. */
  lemma TableCounts(b: Byte)
    ensures BitsInByte(b) == Ones(b)
  {
    RowAt(b / 16, b % 16);
    OnesOfNibble(b / 16);
    OnesOfNibble(b % 16);
    OnesOfNibbles(b, b / 16, b % 16);
  }

  // --- bitwise and -----------------------------------------------------------------------------

  lemma {:induction false} AndLeft(a: nat, b: nat)
    ensures And(a, b) <= a
  {
    if a != 0 && b != 0 {
      AndLeft(a / 2, b / 2);
    }
  }

  /** A mask below 2^p sees only the p lowest bits. */
  lemma AndLow(u: nat, m: nat, p: nat)
    requires m < Pow2(p)
    ensures And(u, m) == And(u % Pow2(p), m)
  {
    AndBelow(u, m);
    AndMod(u, m, p);
    SmallMod(m, Pow2(p));
    SmallMod(And(u, m), Pow2(p));
  }

  // --- one word ------------------------------------------------------------------------------

  // n bytes with the same value
  function Repeated(b: nat, n: nat): nat {
    if n == 0 then 0 else b + 256 * Repeated(b, n - 1)
  }

  /** The numbers of ones in these bytes, in the same places. */
  function Counts(s: seq<Byte>): nat {
    if s == [] then 0 else Ones(s[0]) + 256 * Counts(s[1..])
  }

  // aux - ((aux >> 1) & 0x55555555)
  function Pairs(x: nat, n: nat): nat {
    AndLeft(x / 2, Repeated(0x55, n));
    x - And(x / 2, Repeated(0x55, n))
  }

  // (aux & 0x33333333) + ((aux >> 2) & 0x33333333)
  function Nibbles(x: nat, n: nat): nat {
    And(x, Repeated(0x33, n)) + And(x / 4, Repeated(0x33, n))
  }

  // (aux + (aux >> 4)) & 0x0F0F0F0F
  function Lanes(x: nat, n: nat): nat {
    And(x + x / 16, Repeated(0x0f, n))
  }

  lemma RepeatedByte(b: nat, n: nat)
    requires b < 256
    ensures Repeated(b, n + 1) % 256 == b && Repeated(b, n + 1) / 256 == Repeated(b, n) && Repeated(b, 1) == b
  {
  }

  // The low byte of a word after a shift by one and by two bits
  lemma ShiftedOne(u: nat, a: nat, x: nat)
    requires u == a + 256 * x && a < 256
    ensures (u / 2) % 256 == a / 2 + 128 * (x % 2) && (u / 2) / 256 == x / 2
  {
    assert u / 2 == a / 2 + 128 * x;
    assert x == x % 2 + 2 * (x / 2);
    DivModUnique(u / 2, 256, x / 2, a / 2 + 128 * (x % 2));
  }

  lemma ShiftedTwo(u: nat, a: nat, x: nat)
    requires u == a + 256 * x && a < 256
    ensures (u / 4) % 256 == a / 4 + 64 * (x % 4) && (u / 4) / 256 == x / 4
  {
    assert u / 4 == a / 4 + 64 * x;
    assert x == x % 4 + 4 * (x / 4);
    DivModUnique(u / 4, 256, x / 4, a / 4 + 64 * (x % 4));
  }

  lemma Folded(u: nat, a: nat, x: nat, low: nat)
    requires u == a + 256 * x && a < 256 && low == a + a / 16 + 16 * (x % 16) && low < 256
    ensures (u + u / 16) % 256 == low && (u + u / 16) / 256 == x + x / 16
  {
    assert u / 16 == a / 16 + 16 * x;
    assert x == x % 16 + 16 * (x / 16);
    DivModUnique(u + u / 16, 256, x + x / 16, low);
  }

  lemma PairsByte(u: nat, a: nat, x: nat, n: nat)
    requires u == a + 256 * x && a < 256
    ensures Pairs(u, n + 1) == Pairs(a, 1) + 256 * Pairs(x, n)
  {
    RepeatedByte(0x55, n);
    ShiftedOne(u, a, x);
    var low := a / 2 + 128 * (x % 2);
    AndByte(u / 2, Repeated(0x55, n + 1), low, x / 2, 0x55, Repeated(0x55, n));
    LowPart(low, a / 2, 0x55, 7, x % 2);
  }

  /** Bits that were shifted in do not show under the mask. */
  lemma LowPart(u: nat, a: nat, m: nat, p: nat, t: nat)
    requires a < Pow2(p) && m < Pow2(p) && u == a + Pow2(p) * t
    ensures And(u, m) == And(a, m)
  {
    AndLow(u, m, p);
    DivModUnique(u, Pow2(p), t, a);
  }

  lemma NibblesByte(u: nat, a: nat, x: nat, n: nat)
    requires u == a + 256 * x && a < 256
    ensures Nibbles(u, n + 1) == Nibbles(a, 1) + 256 * Nibbles(x, n)
  {
    RepeatedByte(0x33, n);
    ShiftedTwo(u, a, x);
    DivModUnique(u, 256, x, a);
    AndByte(u, Repeated(0x33, n + 1), a, x, 0x33, Repeated(0x33, n));
    var low := a / 4 + 64 * (x % 4);
    AndByte(u / 4, Repeated(0x33, n + 1), low, x / 4, 0x33, Repeated(0x33, n));
    LowPart(low, a / 4, 0x33, 6, x % 4);
  }

  /** No carry from one byte to the next, because the nibbles are at most 4. */
  lemma LanesByte(u: nat, a: nat, x: nat, n: nat)
    requires u == a + 256 * x && a % 16 <= 4 && a / 16 <= 4 && x % 16 <= 4
    ensures Lanes(u, n + 1) == Lanes(a, 1) + 256 * Lanes(x, n)
  {
    RepeatedByte(0x0f, n);
    var low := a + a / 16 + 16 * (x % 16);
    LowFits(a, x % 16, low);
    Folded(u, a, x, low);
    LanesFrom(u + u / 16, low, x + x / 16, a + a / 16, x % 16, Repeated(0x0f, n + 1), Repeated(0x0f, n));
  }

  lemma LanesFrom(y: nat, low: nat, high: nat, k: nat, t: nat, mask: nat, rest: nat)
    requires y % 256 == low && y / 256 == high && mask % 256 == 0x0f && mask / 256 == rest && low == k + 16 * t
    ensures And(y, mask) == And(k, 0x0f) + 256 * And(high, rest)
  {
    AndByte(y, mask, low, high, 0x0f, rest);
    SameUnderMask(low, k, t);
  }

  lemma LowFits(a: nat, t: nat, low: nat)
    requires a % 16 <= 4 && a / 16 <= 4 && t <= 4 && low == a + a / 16 + 16 * t
    ensures a < 256 && low < 256
  {
    assert a == a % 16 + 16 * (a / 16);
  }

  lemma And0F(v: nat)
    ensures And(v, 0x0f) == v % 16
  {
    AndMask(v, 4);
    assert Pow2(4) == 16;
  }

  lemma SameUnderMask(u: nat, k: nat, t: nat)
    requires u == k + 16 * t
    ensures And(u, 0x0f) == And(k, 0x0f)
  {
    Mod16(u, k, t);
    And0F(u);
    And0F(k);
  }

  lemma Mod16(u: nat, k: nat, t: nat)
    requires u == k + 16 * t
    ensures u % 16 == k % 16
  {
  }

  // --- one byte --------------------------------------------------------------------------------

  lemma AndOdd(v: nat, h: nat)
    ensures And(v, 2 * h + 1) == v % 2 + 2 * And(v / 2, h)
  {
    OddHalf(h);
    AndHalf(v, 2 * h + 1);
    FromHalf(And(v, 2 * h + 1), v % 2, And(v / 2, h));
  }

  lemma OddHalf(h: nat)
    ensures (2 * h + 1) / 2 == h && (2 * h + 1) % 2 == 1
  {
  }

  lemma FromHalf(v: nat, d: nat, h: nat)
    requires v % 2 == d && v / 2 == h
    ensures v == d + 2 * h
  {
  }

  lemma And55Step(v: nat, q: nat, h: nat)
    requires q == v / 4
    ensures And(v, 4 * h + 1) == v % 2 + 4 * And(q, h)
  {
    AndOdd(v, 2 * h);
    AndEven(v / 2, h);
  }

  lemma And55(v: nat)
    ensures And(v, 0x55) == v % 2 + 4 * ((v / 4) % 2) + 16 * ((v / 16) % 2) + 64 * ((v / 64) % 2)
  {
    var q1, q2, q3 := v / 4, v / 16, v / 64;
    And55Step(v, q1, 0x15);
    And55Step(q1, q2, 0x5);
    And55Step(q2, q3, 0x1);
    And55Step(q3, q3 / 4, 0);
  }

  lemma And3Step(v: nat, q: nat, h: nat)
    requires q == v / 4
    ensures And(v, 4 * h + 3) == v % 4 + 4 * And(q, h)
  {
    ModFour(v);
    AndOdd(v, 2 * h + 1);
    AndOdd(v / 2, h);
  }

  lemma ModFour(v: nat)
    ensures v % 4 == v % 2 + 2 * ((v / 2) % 2) && (v / 2) / 2 == v / 4
  {
  }

  lemma AndQuad(v: nat, q: nat, h: nat)
    requires q == v / 4
    ensures And(v, 4 * h) == 4 * And(q, h)
  {
    AndEven(v, 2 * h);
    AndEven(v / 2, h);
  }

  lemma And33(v: nat)
    ensures And(v, 0x33) == v % 4 + 16 * ((v / 16) % 4)
  {
    var q1, q2 := v / 4, v / 16;
    And3Step(v, q1, 0xc);
    AndQuad(q1, q2, 0x3);
    And3Step(q2, v / 64, 0);
  }

  // Digits of base four, and of their sums
  lemma HalfDigit(v: nat, d: nat, q: nat)
    requires v == d + 4 * q && d < 4
    ensures (v / 2) % 2 == d / 2 && (v / 2) / 4 == q / 2
  {
    assert v / 2 == d / 2 + 2 * q;
  }

  lemma Quotients(v: nat)
    ensures (v / 4) / 4 == v / 16 && (v / 16) / 4 == v / 64
  {
  }

  lemma HalfDigits(a: nat, d0: nat, d1: nat, d2: nat, d3: nat)
    requires d0 < 4 && d1 < 4 && d2 < 4 && d3 < 4 && a == d0 + 4 * d1 + 16 * d2 + 64 * d3
    ensures (a / 2) % 2 == d0 / 2 && ((a / 2) / 4) % 2 == d1 / 2
    ensures ((a / 2) / 16) % 2 == d2 / 2 && ((a / 2) / 64) % 2 == d3 / 2
  {
    var q1, q2 := d1 + 4 * d2 + 16 * d3, d2 + 4 * d3;
    HalfDigit(a, d0, q1);
    HalfDigit(q1, d1, q2);
    HalfDigit(q2, d2, d3);
    HalfDigit(d3, d3, 0);
    Quotients(a / 2);
  }

  lemma QuarterDigits(p: nat, c0: nat, c1: nat, c2: nat, c3: nat)
    requires c0 < 4 && c1 < 4 && c2 < 4 && c3 < 4 && p == c0 + 4 * c1 + 16 * c2 + 64 * c3
    ensures p % 4 == c0 && (p / 16) % 4 == c2 && (p / 4) % 4 == c1 && ((p / 4) / 16) % 4 == c3
  {
    assert p / 4 == c1 + 4 * c2 + 16 * c3;
    assert p / 16 == c2 + 4 * c3;
  }

  /** Two bits each. */
  lemma BytePairs(a: nat, d0: nat, d1: nat, d2: nat, d3: nat)
    requires d0 < 4 && d1 < 4 && d2 < 4 && d3 < 4 && a == d0 + 4 * d1 + 16 * d2 + 64 * d3
    ensures Pairs(a, 1) == (d0 - d0 / 2) + 4 * (d1 - d1 / 2) + 16 * (d2 - d2 / 2) + 64 * (d3 - d3 / 2)
  {
    HalfDigits(a, d0, d1, d2, d3);
    And55(a / 2);
    RepeatedByte(0x55, 0);
  }

  /** Four bits each. */
  lemma ByteNibbles(p: nat, c0: nat, c1: nat, c2: nat, c3: nat)
    requires c0 < 3 && c1 < 3 && c2 < 3 && c3 < 3 && p == c0 + 4 * c1 + 16 * c2 + 64 * c3
    ensures Nibbles(p, 1) == (c0 + c1) + 16 * (c2 + c3)
  {
    QuarterDigits(p, c0, c1, c2, c3);
    And33(p);
    And33(p / 4);
    RepeatedByte(0x33, 0);
  }

  lemma FoldedDigits(n: nat, e0: nat, e1: nat)
    requires e0 <= 4 && e1 <= 4 && n == e0 + 16 * e1
    ensures (n + n / 16) % 16 == e0 + e1 && n % 16 == e0 && n / 16 == e1
  {
  }

  /** All eight. */
  lemma ByteFolded(n: nat, e0: nat, e1: nat)
    requires e0 <= 4 && e1 <= 4 && n == e0 + 16 * e1
    ensures Lanes(n, 1) == e0 + e1
  {
    FoldedDigits(n, e0, e1);
    And0F(n + n / 16);
    RepeatedByte(0x0f, 0);
  }

  lemma OnesStep(v: nat, d: nat, q: nat)
    requires v == d + 4 * q && d < 4
    ensures Ones(v) == (d - d / 2) + Ones(q)
  {
    assert v % 2 == d % 2 && v / 2 == d / 2 + 2 * q;
    assert (v / 2) % 2 == d / 2 && (v / 2) / 2 == q;
  }

  lemma ByteOnes(a: nat, d0: nat, d1: nat, d2: nat, d3: nat)
    requires d0 < 4 && d1 < 4 && d2 < 4 && d3 < 4 && a == d0 + 4 * d1 + 16 * d2 + 64 * d3
    ensures Ones(a) == (d0 - d0 / 2) + (d1 - d1 / 2) + (d2 - d2 / 2) + (d3 - d3 / 2)
  {
    OnesStep(a, d0, d1 + 4 * d2 + 16 * d3);
    OnesStep(d1 + 4 * d2 + 16 * d3, d1, d2 + 4 * d3);
    OnesStep(d2 + 4 * d3, d2, d3);
    OnesStep(d3, d3, 0);
  }

  lemma Digits(a: nat) returns (d0: nat, d1: nat, d2: nat, d3: nat)
    requires a < 256
    ensures d0 < 4 && d1 < 4 && d2 < 4 && d3 < 4 && a == d0 + 4 * d1 + 16 * d2 + 64 * d3
  {
    var q1 := a / 4;
    var q2 := q1 / 4;
    d0, d1, d2, d3 := a % 4, q1 % 4, q2 % 4, q2 / 4;
    assert a == d0 + 4 * q1 && q1 == d1 + 4 * q2 && q2 == d2 + 4 * d3;
  }

  /** The steps on a single byte add up its bits. */
  lemma ByteLanes(a: nat) returns (p: nat, n: nat)
    requires a < 256
    ensures p == Pairs(a, 1) && p < 256 && n == Nibbles(p, 1) && n % 16 <= 4 && n / 16 <= 4
    ensures Lanes(n, 1) == Ones(a) <= 8
  {
    var d0, d1, d2, d3 := Digits(a);
    BytePairs(a, d0, d1, d2, d3);
    ByteOnes(a, d0, d1, d2, d3);
    p, n := FromDigits(Pairs(a, 1), d0 - d0 / 2, d1 - d1 / 2, d2 - d2 / 2, d3 - d3 / 2);
  }

  lemma FromDigits(x: int, c0: nat, c1: nat, c2: nat, c3: nat) returns (p: nat, n: nat)
    requires c0 < 3 && c1 < 3 && c2 < 3 && c3 < 3 && x == c0 + 4 * c1 + 16 * c2 + 64 * c3
    ensures p == x && p < 256 && n == Nibbles(p, 1) && n % 16 <= 4 && n / 16 <= 4
    ensures Lanes(n, 1) == c0 + c1 + c2 + c3
  {
    p := x;
    ByteNibbles(p, c0, c1, c2, c3);
    n := Nibbles(p, 1);
    ByteFolded(n, c0 + c1, c2 + c3);
    FoldedDigits(n, c0 + c1, c2 + c3);
  }

  // --- a word is its bytes ------------------------------------------------------------------------

  function Pairs8(b: Byte): Byte {
    Pairs(b, 1)
  }

  function Nibbles8(b: Byte): Byte {
    AndBelow(b, 0x33);
    AndBelow(b / 4, 0x33);
    Nibbles(b, 1)
  }

  function Lanes8(b: Byte): Byte {
    AndBelow(b + b / 16, 0x0f);
    Lanes(b, 1)
  }

  function Each(f: Byte -> Byte, s: seq<Byte>): (r: seq<Byte>)
    ensures |r| == |s|
  {
    seq(|s|, i requires 0 <= i < |s| => f(s[i]))
  }

  lemma EachRest(f: Byte -> Byte, s: seq<Byte>)
    requires s != []
    ensures Each(f, s)[0] == f(s[0]) && Each(f, s)[1..] == Each(f, s[1..])
  {
  }

  lemma {:induction false} PairsWord(s: seq<Byte>, n: nat)
    requires n == |s|
    ensures Pairs(Join(s), n) == Join(Each(Pairs8, s))
    decreases n
  {
    if n > 0 {
      EachRest(Pairs8, s);
      PairsWord(s[1..], n - 1);
      PairsByte(Join(s), s[0], Join(s[1..]), n - 1);
    }
  }

  lemma {:induction false} NibblesWord(s: seq<Byte>, n: nat)
    requires n == |s|
    ensures Nibbles(Join(s), n) == Join(Each(Nibbles8, s))
    decreases n
  {
    if n > 0 {
      EachRest(Nibbles8, s);
      NibblesWord(s[1..], n - 1);
      NibblesByte(Join(s), s[0], Join(s[1..]), n - 1);
    }
  }

  predicate Small(b: Byte) {
    b % 16 <= 4 && b / 16 <= 4
  }

  lemma LowNibble(s: seq<Byte>)
    requires s != [] ==> Small(s[0])
    ensures Join(s) % 16 <= 4
  {
    if s != [] {
      Mod16(Join(s), s[0], 16 * Join(s[1..]));
    }
  }

  lemma {:induction false} LanesWord(s: seq<Byte>, n: nat)
    requires n == |s| && forall i :: 0 <= i < |s| ==> Small(s[i])
    ensures Lanes(Join(s), n) == Join(Each(Lanes8, s))
    decreases n
  {
    if n > 0 {
      EachRest(Lanes8, s);
      LanesWord(s[1..], n - 1);
      LowNibble(s[1..]);
      LanesByte(Join(s), s[0], Join(s[1..]), n - 1);
    }
  }

  lemma ByteSteps(b: Byte)
    ensures Small(Nibbles8(Pairs8(b))) && Lanes8(Nibbles8(Pairs8(b))) == Ones(b)
  {
    var p, n := ByteLanes(b);
  }

  lemma {:induction false} CountsAre(s: seq<Byte>, t: seq<Byte>)
    requires |t| == |s| && forall i :: 0 <= i < |s| ==> t[i] == Ones(s[i])
    ensures Join(t) == Counts(s)
  {
    if s != [] {
      CountsAre(s[1..], t[1..]);
    }
  }

  /** The steps on a word leave in each byte the number of ones that were there. */
  lemma WordLanes(s: seq<Byte>, n: nat)
    requires n == |s|
    ensures Lanes(Nibbles(Pairs(Join(s), n), n), n) == Counts(s)
  {
    var p := Each(Pairs8, s);
    var m := Each(Nibbles8, p);
    var l := Each(Lanes8, m);
    PairsWord(s, n);
    NibblesWord(p, n);
    forall i | 0 <= i < |s|
      ensures Small(m[i]) && l[i] == Ones(s[i])
    {
      ByteSteps(s[i]);
    }
    LanesWord(m, n);
    CountsAre(s, l);
  }

  // --- seven words at a time ---------------------------------------------------------------------

  /** The code's steps on one word of four bytes. */
  function Reduce(w: nat): nat {
    Lanes(Nibbles(Pairs(w, 4), 4), 4)
  }

  lemma ReduceCounts(s: seq<Byte>, i: nat)
    requires i + 4 <= |s|
    ensures Reduce(Join(s[i..i + 4])) ==
            Ones(s[i]) + 0x100 * Ones(s[i + 1]) + 0x1_0000 * Ones(s[i + 2]) + 0x100_0000 * Ones(s[i + 3])
  {
    var w := s[i..i + 4];
    WordLanes(w, 4);
    assert w[1..][1..] == w[2..] && w[2..][1..] == w[3..] && w[3..][1..] == [];
    assert Counts(w) == Ones(w[0]) + 256 * Counts(w[1..]);
    assert Counts(w[1..]) == Ones(w[1]) + 256 * Counts(w[2..]);
    assert Counts(w[2..]) == Ones(w[2]) + 256 * Counts(w[3..]);
    assert Counts(w[3..]) == Ones(w[3]);
  }

  /** The multiplication adds up the four lanes in the topmost byte. */
  lemma Gather(a: nat, b: nat, c: nat, d: nat, sum: nat)
    requires a <= 56 && b <= 56 && c <= 56 && d <= 56 && sum == a + 0x100 * b + 0x1_0000 * c + 0x100_0000 * d
    ensures ((sum * 0x0101_0101) % 0x1_0000_0000) / 0x100_0000 == a + b + c + d
  {
    var low := a + 0x100 * (a + b) + 0x1_0000 * (a + b + c);
    var high := (b + c + d) + 0x100 * (c + d) + 0x1_0000 * d;
    assert sum * 0x0101_0101 == 0x1_0000_0000 * high + (0x100_0000 * (a + b + c + d) + low);
    DivModUnique(sum * 0x0101_0101, 0x1_0000_0000, high, 0x100_0000 * (a + b + c + d) + low);
    DivModUnique(0x100_0000 * (a + b + c + d) + low, 0x100_0000, a + b + c + d, low);
  }

  lemma OnesBounded(a: nat)
    requires a < 256
    ensures Ones(a) <= 8
  {
    var p, n := ByteLanes(a);
  }

  /** Four running sums, one for each lane. */
  ghost predicate LanesAre(sum: nat, s: seq<Byte>, i: nat, k: nat, a: nat, b: nat, c: nat, d: nat) {
    && i + 4 * k <= |s| && a <= 8 * k && b <= 8 * k && c <= 8 * k && d <= 8 * k
    && sum == a + 0x100 * b + 0x1_0000 * c + 0x100_0000 * d
    && a + b + c + d == Total(s[i..i + 4 * k])
  }

  lemma {:induction false} TotalJoin(a: seq<Byte>, b: seq<Byte>)
    ensures Total(a + b) == Total(a) + Total(b)
  {
    if a == [] {
      assert a + b == b;
    } else {
      assert (a + b)[1..] == a[1..] + b;
      TotalJoin(a[1..], b);
    }
  }

  lemma TotalFour(w: seq<Byte>)
    requires |w| == 4
    ensures Total(w) == Ones(w[0]) + Ones(w[1]) + Ones(w[2]) + Ones(w[3])
  {
    assert w[1..][1..] == w[2..] && w[2..][1..] == w[3..] && w[3..][1..] == [];
    assert Total(w) == Ones(w[0]) + Total(w[1..]);
    assert Total(w[1..]) == Ones(w[1]) + Total(w[2..]);
    assert Total(w[2..]) == Ones(w[2]) + Total(w[3..]);
  }

  lemma TotalNext(s: seq<Byte>, i: nat, j: nat)
    requires i <= j && j + 4 <= |s|
    ensures Total(s[i..j + 4]) == Total(s[i..j]) + Ones(s[j]) + Ones(s[j + 1]) + Ones(s[j + 2]) + Ones(s[j + 3])
  {
    assert s[i..j + 4] == s[i..j] + s[j..j + 4];
    TotalJoin(s[i..j], s[j..j + 4]);
    TotalFour(s[j..j + 4]);
  }

  // r is a reduced word, o0 to o3 the numbers of ones in its bytes
  ghost predicate Reduced(s: seq<Byte>, j: nat, r: nat, o0: nat, o1: nat, o2: nat, o3: nat) {
    && j + 4 <= |s| && o0 == Ones(s[j]) && o1 == Ones(s[j + 1]) && o2 == Ones(s[j + 2]) && o3 == Ones(s[j + 3])
    && o0 <= 8 && o1 <= 8 && o2 <= 8 && o3 <= 8 && r == o0 + 0x100 * o1 + 0x1_0000 * o2 + 0x100_0000 * o3
  }

  lemma NextLanes(sum: nat, s: seq<Byte>, i: nat, k: nat, a: nat, b: nat, c: nat, d: nat,
                  r: nat, o0: nat, o1: nat, o2: nat, o3: nat)
    requires LanesAre(sum, s, i, k, a, b, c, d) && Reduced(s, i + 4 * k, r, o0, o1, o2, o3)
    ensures LanesAre(sum + r, s, i, k + 1, a + o0, b + o1, c + o2, d + o3)
  {
    TotalNext(s, i, i + 4 * k);
  }

  // Lines 64-77 for one word, and its summand in line 78
  method ReduceWord(s: seq<Byte>, j: nat) returns (r: nat, ghost o0: nat, ghost o1: nat, ghost o2: nat, ghost o3: nat)
    requires j + 4 <= |s|
    ensures Reduced(s, j, r, o0, o1, o2, o3)
  {
    r := Reduce(Join(s[j..j + 4]));
    o0, o1, o2, o3 := Ones(s[j]), Ones(s[j + 1]), Ones(s[j + 2]), Ones(s[j + 3]);
    ReduceCounts(s, j);
    OnesBounded(s[j]);
    OnesBounded(s[j + 1]);
    OnesBounded(s[j + 2]);
    OnesBounded(s[j + 3]);
  }

  /** Lines 54-86: 28 bytes */
  method CountBlock(s: seq<Byte>, i: nat) returns (bits: nat)
    requires i + 28 <= |s|
    ensures bits == Total(s[i..i + 28])
  {
    var sum: nat := 0;
    ghost var a: nat, b: nat, c: nat, d: nat := 0, 0, 0, 0;
    var k: nat := 0;
    while k < 7
      invariant k <= 7 && LanesAre(sum, s, i, k, a, b, c, d)
    {
      var r, o0, o1, o2, o3 := ReduceWord(s, i + 4 * k);
      NextLanes(sum, s, i, k, a, b, c, d, r, o0, o1, o2, o3);
      sum := sum + r;
      a, b, c, d := a + o0, b + o1, c + o2, d + o3;
      k := k + 1;
    }
    Gather(a, b, c, d, sum);
    bits := ((sum * 0x0101_0101) % 0x1_0000_0000) / 0x100_0000;
  }

  method CountByte(s: seq<Byte>, i: nat, before: nat) returns (bits: nat)
    requires i < |s| && before == Total(s[..i])
    ensures bits == Total(s[..i + 1])
  {
    TotalMore(s, i, 1);
    TableCounts(s[i]);
    bits := before + BitsInByte(s[i]);
  }

  /** redisPopcount, for a string at any address */
  method CountOnes(s: seq<Byte>, addr: nat) returns (bits: nat)
    ensures bits == Total(s)
  {
    bits := 0;
    var i := 0;
    while (addr + i) % 4 != 0 && i < |s|
      invariant i <= |s| && bits == Total(s[..i])
      decreases |s| - i
    {
      bits := CountByte(s, i, bits);
      i := i + 1;
    }
    while |s| - i >= 28
      invariant i <= |s| && bits == Total(s[..i])
    {
      TotalMore(s, i, 28);
      var block := CountBlock(s, i);
      bits := bits + block;
      i := i + 28;
    }
    while i < |s|
      invariant i <= |s| && bits == Total(s[..i])
    {
      bits := CountByte(s, i, bits);
      i := i + 1;
    }
    assert s[..i] == s;
  }

  lemma TotalMore(s: seq<Byte>, i: nat, k: nat)
    requires i + k <= |s|
    ensures Total(s[..i + k]) == Total(s[..i]) + Total(s[i..i + k])
    ensures k == 1 ==> Total(s[i..i + k]) == Ones(s[i])
  {
    assert s[..i + k] == s[..i] + s[i..i + k];
    TotalJoin(s[..i], s[i..i + k]);
    if k == 1 {
      assert s[i..i + k][1..] == [];
    }
  }
}
