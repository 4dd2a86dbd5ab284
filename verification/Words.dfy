/**
  Machine words as natural numbers, with the bitwise operators of C defined bit by
  bit, and the bit reversal behind the SCAN cursor of
  project/network/redis/redis-3.2/src/dict.c.
*/
module Words {

  function Pow2(n: nat): (r: nat)
    ensures r >= 1
  {
    if n == 0 then 1 else 2 * Pow2(n - 1)
  }

  // The width of PORT_ULONG; lemmas are stated for every width n.
  const WIDTH: nat := 64

  function And(a: nat, b: nat): nat {
    if a == 0 || b == 0 then 0 else (if a % 2 == 1 then b % 2 else 0) + 2 * And(a / 2, b / 2)
  }

  function Or(a: nat, b: nat): nat
    decreases a + b
  {
    if a == 0 then b else if b == 0 then a
    else (if a % 2 + b % 2 > 0 then 1 else 0) + 2 * Or(a / 2, b / 2)
  }

  function Xor(a: nat, b: nat): nat
    decreases a + b
  {
    if a == 0 then b else if b == 0 then a else (a + b) % 2 + 2 * Xor(a / 2, b / 2)
  }

  function Not(a: nat, n: nat): nat
    requires a < Pow2(n)
  {
    Pow2(n) - 1 - a
  }

  // Addition wraps around.
  function Plus(a: nat, b: nat, n: nat): nat {
    (a + b) % Pow2(n)
  }

  type Byte = x: nat | x < 256

  /** The number with these bytes, lowest first. */
  function Join(s: seq<Byte>): nat {
    if s == [] then 0 else s[0] + 256 * Join(s[1..])
  }

  // The bit b in place n.
  function Place(b: nat, n: nat): nat {
    if b == 1 then Pow2(n) else 0
  }

  /** The n lowest bits of `v` in the opposite order. */
  function Reverse(v: nat, n: nat): nat {
    if n == 0 then 0 else Place(v % 2, n - 1) + Reverse(v / 2, n - 1)
  }

  function Bit(v: nat, i: nat): nat {
    if i == 0 then v % 2 else Bit(v / 2, i - 1)
  }

  // --- arithmetic forms of the operators on masks ---------------------------------

  lemma Pow2Sum(a: nat, b: nat)
    ensures Pow2(a + b) == Pow2(a) * Pow2(b)
  {
    if a > 0 {
      Pow2Sum(a - 1, b);
      assert Pow2(a + b) == 2 * Pow2(a - 1 + b);
    }
  }

  // Splitting off the lowest bit of a remainder by a power of two.
  lemma ModStep(v: nat, p: nat)
    requires p > 0
    ensures v % Pow2(p) == v % 2 + 2 * ((v / 2) % Pow2(p - 1))
    ensures v / Pow2(p) == (v / 2) / Pow2(p - 1)
  {
    var s := Pow2(p - 1);
    var q, r := (v / 2) / s, (v / 2) % s;
    assert v == (2 * s) * q + (v % 2 + 2 * r);
    DivModUnique(v, 2 * s, q, v % 2 + 2 * r);
  }

  lemma DivModUnique(v: int, s: nat, q: int, r: nat)
    requires s > 0 && v == s * q + r && r < s
    ensures v / s == q && v % s == r
  {
    var q', r' := v / s, v % s;
    Apart(s, q', r', q, r);
    Apart(s, q, r, q', r');
  }

  lemma SmallMod(v: nat, s: nat)
    requires v < s
    ensures v % s == v && v / s == 0
  {
    DivModUnique(v, s, 0, v);
  }

  lemma Apart(s: nat, q: int, r: nat, q': int, r': nat)
    requires s * q + r == s * q' + r' && r < s && r' < s
    ensures q <= q'
  {
    if q > q' {
      assert s * q - s * q' == s * (q - q');
      AtLeast(s, q - q');
    }
  }

  lemma AtLeast(s: nat, d: int)
    requires d >= 1
    ensures s * d >= s
  {
  }

  lemma {:induction false} AndMask(v: nat, p: nat)
    ensures And(v, Pow2(p) - 1) == v % Pow2(p)
  {
    if p > 0 {
      ModStep(v, p);
      AndMask(v / 2, p - 1);
      assert (Pow2(p) - 1) % 2 == 1 && (Pow2(p) - 1) / 2 == Pow2(p - 1) - 1;
    }
  }

  lemma {:induction false} OrMask(v: nat, p: nat)
    ensures Or(v, Pow2(p) - 1) == v - v % Pow2(p) + Pow2(p) - 1
  {
    if p > 0 {
      ModStep(v, p);
      OrMask(v / 2, p - 1);
      assert (Pow2(p) - 1) % 2 == 1 && (Pow2(p) - 1) / 2 == Pow2(p - 1) - 1;
    }
  }

  /** The word with exactly the bits from p up to q - 1 set. */
  function Span(p: nat, q: nat): (r: nat)
    requires p <= q
    ensures r == Pow2(q) - Pow2(p)
  {
    if p == 0 then Pow2(q) - 1 else 2 * Span(p - 1, q - 1)
  }

  lemma {:induction false} AndSpan(v: nat, p: nat, q: nat)
    requires p <= q
    ensures And(v, Span(p, q)) == v % Pow2(q) - v % Pow2(p)
  {
    if p == 0 {
      AndMask(v, q);
    } else {
      ModStep(v, p);
      ModStep(v, q);
      AndSpan(v / 2, p - 1, q - 1);
      AndEven(v, Span(p - 1, q - 1));
    }
  }

  lemma AndEven(v: nat, b: nat)
    ensures And(v, 2 * b) == 2 * And(v / 2, b)
  {
  }

  lemma OrEven(v: nat, b: nat)
    ensures Or(v, 2 * b) == v % 2 + 2 * Or(v / 2, b)
  {
  }

  lemma {:induction false} OrSpan(v: nat, p: nat, q: nat)
    requires p <= q && v < Pow2(q)
    ensures Or(v, Span(p, q)) == v % Pow2(p) + Span(p, q)
  {
    if p == 0 {
      OrFull(v, q);
    } else {
      assert v / 2 < Pow2(q - 1);
      OrSpan(v / 2, p - 1, q - 1);
      ModStep(v, p);
      OrEven(v, Span(p - 1, q - 1));
    }
  }

  lemma OrFull(v: nat, q: nat)
    requires v < Pow2(q)
    ensures Or(v, Pow2(q) - 1) == Pow2(q) - 1
  {
    OrMask(v, q);
    SmallMod(v, Pow2(q));
  }

  lemma {:induction false} XorMasks(p: nat, q: nat)
    requires p <= q
    ensures Xor(Pow2(p) - 1, Pow2(q) - 1) == Span(p, q)
  {
    if p > 0 {
      XorMasks(p - 1, q - 1);
      XorOdd(Pow2(p - 1) - 1, Pow2(q - 1) - 1);
    }
  }

  lemma XorOdd(a: nat, b: nat)
    ensures Xor(2 * a + 1, 2 * b + 1) == 2 * Xor(a, b)
  {
    assert (2 * a + 1) / 2 == a && (2 * b + 1) / 2 == b && (2 * a + 1 + (2 * b + 1)) % 2 == 0;
  }

  lemma {:induction false} OrDisjoint(a: nat, b: nat, p: nat)
    requires a % Pow2(p) == 0 && b < Pow2(p)
    ensures Or(a, b) == a + b
  {
    if p > 0 {
      ModStep(a, p);
      OrDisjoint(a / 2, b / 2, p - 1);
    }
  }

  lemma {:induction false} Pow2Monotone(p: nat, q: nat)
    requires p <= q
    ensures Pow2(p) <= Pow2(q)
  {
    if p > 0 {
      Pow2Monotone(p - 1, q - 1);
    }
  }

  /** Line 922 of dict.c: the bits above the smaller mask are incremented, those inside it kept. */
  lemma BumpAbove(v: nat, p: nat, n: nat)
    requires p <= n && v < Pow2(n)
    ensures Pow2(p) <= Pow2(n)
    ensures var m := Pow2(p) - 1; Or(And(Plus(Or(v, m), 1, n), Not(m, n)), And(v, m)) == (v + Pow2(p)) % Pow2(n)
  {
    var m := Pow2(p) - 1;
    Pow2Monotone(p, n);
    assert Not(m, n) == Span(p, n);
    AndMask(v, p);
    OrMask(v, p);
    var t := Plus(Or(v, m), 1, n);
    BumpModulo(v, p, n);
    AndSpan(t, p, n);
    OrDisjoint(t, v % Pow2(p), p);
  }

  lemma BumpModulo(v: nat, p: nat, n: nat)
    requires p <= n && v < Pow2(n)
    ensures var t := (v - v % Pow2(p) + Pow2(p)) % Pow2(n);
      t % Pow2(p) == 0 && t + v % Pow2(p) == (v + Pow2(p)) % Pow2(n) && t < Pow2(n) && t % Pow2(n) == t
  {
    Pow2Sum(p, n - p);
    BumpMultiple(v, Pow2(p), Pow2(n - p), Pow2(n));
  }

  lemma BumpMultiple(v: nat, s: nat, k: nat, m: nat)
    requires s > 0 && m == s * k && v < m
    ensures var t := (v - v % s + s) % m;
      t % s == 0 && t + v % s == (v + s) % m && t < m && t % m == t
  {
    MultipleBelow(v, s, k);
    SmallMod((v - v % s + s) % m, m);
  }

  // v lies below s * k, so the multiple of s after it is at most s * k.
  lemma MultipleBelow(v: nat, s: nat, k: nat)
    requires s > 0 && v < s * k
    ensures (v - v % s) % s == 0 && v - v % s + s <= s * k
    ensures ((v - v % s + s) % (s * k)) % s == 0
    ensures (v + s) % (s * k) == (v - v % s + s) % (s * k) + v % s
  {
    var q, r := v / s, v % s;
    assert v == s * q + r;
    if q >= k {
      AtLeastTimes(s, q, k);
    }
    DivModUnique(s * q, s, q, 0);
    var t := s * q + s;
    assert t == s * (q + 1);
    DivModUnique(s * (q + 1), s, q + 1, 0);
    AtLeastTimes(s, k, q + 1);
    if q + 1 < k {
      AtLeastTimes(s, k, q + 2);
      assert s * (q + 2) == t + s;
      DivModUnique(t, s * k, 0, t);
      DivModUnique(t + r, s * k, 0, t + r);
    } else {
      DivModUnique(t, s * k, 1, 0);
      AtLeastTimes(s, k, 1);
      DivModUnique(t + r, s * k, 1, r);
    }
  }

  lemma AtLeastTimes(s: nat, a: int, b: int)
    requires a >= b
    ensures s * a >= s * b
  {
    assert s * a - s * b == s * (a - b);
  }

  // --- exclusive or ---------------------------------------------------------------------------

  lemma Halves(x: nat, d: nat, h: nat)
    requires x == d + 2 * h && d < 2
    ensures x / 2 == h && x % 2 == d
  {
  }

  lemma Parity(a: nat, b: nat)
    ensures (a + b) % 2 == (a % 2 + b % 2) % 2
  {
  }

  lemma XorHalf(a: nat, b: nat)
    ensures Xor(a, b) / 2 == Xor(a / 2, b / 2) && Xor(a, b) % 2 == (a % 2 + b % 2) % 2
  {
    if a != 0 && b != 0 {
      Parity(a, b);
      Halves(Xor(a, b), (a + b) % 2, Xor(a / 2, b / 2));
    }
  }

  lemma SameHalves(x: nat, y: nat)
    requires x / 2 == y / 2 && x % 2 == y % 2
    ensures x == y
  {
  }

  /** The p lowest bits are dropped. */
  function Right(v: nat, p: nat): nat
    decreases p
  {
    if p == 0 then v else Right(v / 2, p - 1)
  }

  lemma {:induction false} XorRight(a: nat, b: nat, p: nat)
    ensures Right(Xor(a, b), p) == Xor(Right(a, p), Right(b, p))
    decreases p
  {
    if p > 0 {
      XorHalf(a, b);
      XorRight(a / 2, b / 2, p - 1);
    }
  }

  lemma {:induction false} RightMore(v: nat, p: nat, q: nat)
    ensures Right(v, p + q) == Right(Right(v, p), q)
    decreases p
  {
    if p > 0 {
      RightMore(v / 2, p - 1, q);
    }
  }

  lemma RightByte(v: nat)
    ensures Right(v, 8) == v / 256
  {
    assert Right(v, 2) == v / 4;
    RightMore(v, 2, 2);
    assert Right(v / 4, 2) == v / 16;
    RightMore(v, 4, 4);
    RightMore(v / 16, 2, 2);
    assert Right(v / 16, 2) == v / 64 && Right(v / 64, 2) == v / 256;
  }

  // The remainder, bit by bit
  lemma ModBit(v: nat, p: nat)
    requires p > 0
    ensures (v % Pow2(p)) / 2 == (v / 2) % Pow2(p - 1) && (v % Pow2(p)) % 2 == v % 2
  {
    ModStep(v, p);
  }

  lemma {:induction false} XorMod(a: nat, b: nat, p: nat)
    ensures Xor(a, b) % Pow2(p) == Xor(a % Pow2(p), b % Pow2(p))
    decreases p
  {
    if p > 0 {
      var x, a', b' := Xor(a, b), a % Pow2(p), b % Pow2(p);
      XorHalf(a, b);
      XorHalf(a', b');
      ModBit(a, p);
      ModBit(b, p);
      ModBit(x, p);
      XorMod(a / 2, b / 2, p - 1);
      SameHalves(x % Pow2(p), Xor(a', b'));
    }
  }

  lemma XorBounded(a: nat, b: nat, p: nat)
    requires a < Pow2(p) && b < Pow2(p)
    ensures Xor(a, b) < Pow2(p)
  {
    XorMod(a, b, p);
    SmallMod(a, Pow2(p));
    SmallMod(b, Pow2(p));
  }

  lemma {:induction false} AndBelow(a: nat, b: nat)
    ensures And(a, b) <= b
  {
    if a != 0 && b != 0 {
      AndBelow(a / 2, b / 2);
    }
  }

  // --- bitwise and, byte by byte ---------------------------------------------------------------

  lemma AndHalf(a: nat, b: nat)
    ensures And(a, b) / 2 == And(a / 2, b / 2) && And(a, b) % 2 == if a % 2 == 1 && b % 2 == 1 then 1 else 0
  {
  }

  lemma {:induction false} AndRight(a: nat, b: nat, p: nat)
    ensures Right(And(a, b), p) == And(Right(a, p), Right(b, p))
    decreases p
  {
    if p > 0 {
      AndHalf(a, b);
      AndRight(a / 2, b / 2, p - 1);
    }
  }

  lemma {:induction false} AndMod(a: nat, b: nat, p: nat)
    ensures And(a, b) % Pow2(p) == And(a % Pow2(p), b % Pow2(p))
    decreases p
  {
    if p > 0 {
      var x, a', b' := And(a, b), a % Pow2(p), b % Pow2(p);
      AndHalf(a, b);
      AndHalf(a', b');
      ModBit(a, p);
      ModBit(b, p);
      ModBit(x, p);
      AndMod(a / 2, b / 2, p - 1);
      SameHalves(x % Pow2(p), And(a', b'));
    }
  }

  lemma AndParts(u: nat, w: nat)
    ensures And(u, w) % 256 == And(u % 256, w % 256) && And(u, w) / 256 == And(u / 256, w / 256)
  {
    AndMod(u, w, 8);
    AndRight(u, w, 8);
    RightByte(u);
    RightByte(w);
    RightByte(And(u, w));
    assert Pow2(8) == 256;
  }

  lemma Recompose(v: nat, low: nat, high: nat)
    requires v % 256 == low && v / 256 == high
    ensures v == low + 256 * high
  {
  }

  lemma AndByte(u: nat, w: nat, a: nat, x: nat, m: nat, y: nat)
    requires u % 256 == a && u / 256 == x && w % 256 == m && w / 256 == y
    ensures And(u, w) == And(a, m) + 256 * And(x, y)
  {
    AndParts(u, w);
    Recompose(And(u, w), And(a, m), And(x, y));
  }
}
