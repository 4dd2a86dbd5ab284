/**
  Integers of any width at any bit of a string: the BITFIELD functions of
  project/network/redis/redis-3.2/src/bitops.c, for widths of 1 to 63 bits.  Bit 0 is the most
  significant bit of the first byte.
*/
module BitField {
  import opened Words

  // --- bits --------------------------------------------------------------------------------

  /** 1 << (7 - r) */
  function Mask(r: nat): bv8
    requires r < 8
  {
    match r
    case 0 => 0x80 case 1 => 0x40 case 2 => 0x20 case 3 => 0x10
    case 4 => 0x08 case 5 => 0x04 case 6 => 0x02 case _ => 0x01
  }

  predicate BitOf(b: bv8, r: nat)
    requires r < 8
  {
    b & Mask(r) != 0
  }

  function WithBit(b: bv8, r: nat, v: bool): bv8
    requires r < 8
  {
    (b & !Mask(r)) | (if v then Mask(r) else 0)
  }

  lemma WithBitSets(b: bv8, r: nat, v: bool, q: nat)
    requires r < 8 && q < 8
    ensures BitOf(WithBit(b, r, v), q) == if q == r then v else BitOf(b, q)
  {
  }

  /** The bits of a byte as a number, the most significant one first */
  predicate Digit(b: bv8, r: nat)
    requires r < 8
  {
    Right(b as nat, 7 - r) % 2 == 1
  }

  /** Dropping digits is division. */
  lemma {:induction false} RightIsDiv(n: nat, k: nat)
    ensures Right(n, k) == n / Pow2(k)
    decreases k
  {
    if k > 0 {
      RightIsDiv(n / 2, k - 1);
      HalfFirst(n, Pow2(k - 1));
    } else {
      DivOne(n, Pow2(0));
    }
  }

  lemma HalfFirst(n: nat, m: nat)
    requires m > 0
    ensures n / (2 * m) == n / 2 / m
  {
    var q, r := n / 2 / m, n / 2 % m;
    assert n / 2 == m * q + r;
    assert n == (2 * m) * q + (2 * r + n % 2);
    DivModUnique(n, 2 * m, q, 2 * r + n % 2);
  }

  /** The digit in plain arithmetic */
  lemma DigitIs(b: bv8, r: nat)
    requires r < 8
    ensures Digit(b, r) <==> (b as nat) / Pow2(7 - r) % 2 == 1
  {
    RightIsDiv(b as nat, 7 - r);
  }

  lemma Powers()
    ensures Pow2(0) == 1 && Pow2(1) == 2 && Pow2(2) == 4 && Pow2(3) == 8
    ensures Pow2(4) == 16 && Pow2(5) == 32 && Pow2(6) == 64 && Pow2(7) == 128 && Pow2(8) == 256
  {
  }

  lemma HighMasks(b: bv8)
    ensures b & 0x80 != 0 <==> (b as nat) / 128 % 2 == 1
    ensures b & 0x40 != 0 <==> (b as nat) / 64 % 2 == 1
  {
  }

  lemma MiddleMasks(b: bv8)
    ensures b & 0x20 != 0 <==> (b as nat) / 32 % 2 == 1
    ensures b & 0x10 != 0 <==> (b as nat) / 16 % 2 == 1
  {
  }

  lemma FourthMask(b: bv8)
    ensures b & 0x08 != 0 <==> (b as nat) / 8 % 2 == 1
  {
  }

  lemma ThirdMask(b: bv8)
    ensures b & 0x04 != 0 <==> (b as nat) / 4 % 2 == 1
  {
  }

  lemma SecondMask(b: bv8)
    ensures b & 0x02 != 0 <==> (b as nat) / 2 % 2 == 1
  {
  }

  lemma LastMask(b: bv8)
    ensures b & 0x01 != 0 <==> (b as nat) % 2 == 1
  {
  }

  /** The mask tests the digit. */
  lemma MaskIsDigit(b: bv8, r: nat)
    requires r < 8
    ensures BitOf(b, r) == Digit(b, r)
  {
    DigitIs(b, r);
    Powers();
    HighMasks(b);
    MiddleMasks(b);
    FourthMask(b);
    ThirdMask(b);
    SecondMask(b);
    LastMask(b);
  }

  /** Bit i of a string: bit 0 is the most significant digit of the first byte. */
  predicate BitAt(p: seq<bv8>, i: nat)
    requires i < 8 * |p|
  {
    Digit(p[i / 8], i % 8)
  }

  lemma SetOneBit(p: seq<bv8>, i: nat, v: bool, k: nat)
    requires i < 8 * |p| && k < 8 * |p|
    ensures BitAt(p[i / 8 := WithBit(p[i / 8], i % 8, v)], k) == if k == i then v else BitAt(p, k)
  {
    WithBitSets(p[i / 8], i % 8, v, k % 8);
    MaskIsDigit(p[k / 8], k % 8);
    MaskIsDigit(WithBit(p[i / 8], i % 8, v), k % 8);
  }

  /** The number in the given bits, the first one being the most significant. */
  function Field(p: seq<bv8>, offset: nat, bits: nat): nat
    requires offset + bits <= 8 * |p|
  {
    if bits == 0 then 0 else 2 * Field(p, offset, bits - 1) + if BitAt(p, offset + bits - 1) then 1 else 0
  }

  lemma {:induction false} FieldBounded(p: seq<bv8>, offset: nat, bits: nat)
    requires offset + bits <= 8 * |p|
    ensures Field(p, offset, bits) < Pow2(bits)
  {
    if bits > 0 {
      FieldBounded(p, offset, bits - 1);
    }
  }

  predicate SameBit(p: seq<bv8>, offset: nat, q: seq<bv8>, offset': nat, j: nat) {
    offset + j < 8 * |p| && offset' + j < 8 * |q| && BitAt(p, offset + j) == BitAt(q, offset' + j)
  }

  /** A field is determined by its bits. */
  lemma {:induction false} FieldSame(p: seq<bv8>, offset: nat, q: seq<bv8>, offset': nat, bits: nat)
    requires offset + bits <= 8 * |p| && offset' + bits <= 8 * |q|
    requires forall j: nat :: j < bits ==> SameBit(p, offset, q, offset', j)
    ensures Field(p, offset, bits) == Field(q, offset', bits)
  {
    if bits > 0 {
      assert SameBit(p, offset, q, offset', bits - 1);
      FieldSame(p, offset, q, offset', bits - 1);
    }
  }

  lemma Doubled(x: nat, f: nat, y: nat, c: nat, z: nat)
    requires z == 2 * (x * f + y) + c
    ensures z == (2 * x) * f + (2 * y + c)
  {
  }

  lemma {:induction false} FieldSplit(p: seq<bv8>, o: nat, a: nat, b: nat)
    requires o + a + b <= 8 * |p|
    ensures Field(p, o, a + b) == Pow2(b) * Field(p, o, a) + Field(p, o + a, b)
    decreases b
  {
    if b > 0 {
      FieldSplit(p, o, a, b - 1);
      var c := if BitAt(p, o + a + b - 1) then 1 else 0;
      Doubled(Pow2(b - 1), Field(p, o, a), Field(p, o + a, b - 1), c, Field(p, o, a + b));
    }
  }

  lemma InByte(j: nat, k: nat)
    requires k < 8
    ensures (8 * j + k) / 8 == j && (8 * j + k) % 8 == k
  {
  }

  /** The first k digits of a byte */
  lemma {:induction false} BytePrefix(p: seq<bv8>, j: nat, k: nat)
    requires j < |p| && k <= 8
    ensures Field(p, 8 * j, k) == Right(p[j] as nat, 8 - k)
    decreases k
  {
    if k > 0 {
      BytePrefix(p, j, k - 1);
      ByteDigit(p, j, k - 1);
      LastDigit(p, 8 * j, k);
      OneMore(p[j] as nat, 8 - k);
      SameHalves(Field(p, 8 * j, k), Right(p[j] as nat, 8 - k));
    } else {
      ByteEnds(p[j]);
    }
  }

  lemma ByteDigit(p: seq<bv8>, j: nat, r: nat)
    requires j < |p| && r < 8
    ensures BitAt(p, 8 * j + r) == Digit(p[j], r)
  {
    InByte(j, r);
  }

  lemma OneMore(n: nat, k: nat)
    ensures Right(n, k + 1) == Right(n, k) / 2
  {
    RightMore(n, k, 1);
    assert Right(Right(n, k), 1) == Right(n, k) / 2;
  }

  lemma ByteEnds(b: bv8)
    ensures Right(b as nat, 8) == 0
  {
    RightIsDiv(b as nat, 8);
    Powers();
  }

  /** A whole byte is its number. */
  lemma ByteIs(p: seq<bv8>, j: nat)
    requires j < |p|
    ensures Field(p, 8 * j, 8) == p[j] as nat
  {
    BytePrefix(p, j, 8);
  }

  lemma DivOne(n: nat, m: nat)
    requires m == 1
    ensures n / m == n
  {
  }

  lemma FieldByte(p: seq<bv8>, j: nat)
    requires j < |p|
    ensures Field(p, 0, 8 * j + 8) == 256 * Field(p, 0, 8 * j) + p[j] as nat
  {
    FieldSplit(p, 0, 8 * j, 8);
    ByteIs(p, j);
    Powers();
  }

  /** A string as a number, the first byte most significant */
  function BigEndian(p: seq<bv8>): nat {
    if p == [] then 0 else 256 * BigEndian(p[..|p| - 1]) + p[|p| - 1] as nat
  }

  lemma {:induction false} FieldOfBytes(p: seq<bv8>, k: nat)
    requires k <= |p|
    ensures Field(p, 0, 8 * k) == BigEndian(p[..k])
  {
    if k > 0 {
      FieldOfBytes(p, k - 1);
      FieldByte(p, k - 1);
      assert p[..k][..k - 1] == p[..k - 1];
    }
  }

  /** The last b digits dropped, and alone */
  lemma {:induction false} FieldEnds(p: seq<bv8>, o: nat, a: nat, b: nat)
    requires o + a + b <= 8 * |p|
    ensures Right(Field(p, o, a + b), b) == Field(p, o, a) && Field(p, o, a + b) % Pow2(b) == Field(p, o + a, b)
    decreases b
  {
    if b > 0 {
      FieldEnds(p, o, a, b - 1);
      var f := Field(p, o, a + b);
      LastDigit(p, o, a + b);
      LastDigit(p, o + a, b);
      ModStep(f, b);
    }
  }

  lemma LastDigit(p: seq<bv8>, o: nat, bits: nat)
    requires 0 < bits && o + bits <= 8 * |p|
    ensures Field(p, o, bits) / 2 == Field(p, o, bits - 1)
    ensures Field(p, o, bits) % 2 == if BitAt(p, o + bits - 1) then 1 else 0
  {
  }

  lemma WholeField(p: seq<bv8>, whole: nat)
    requires whole == 8 * |p|
    ensures Field(p, 0, whole) == BigEndian(p)
  {
    FieldOfBytes(p, |p|);
    assert p[..|p|] == p;
  }

  /** The first digits of the number that the string is */
  lemma FirstDigits(p: seq<bv8>, kept: nat, rest: nat)
    requires kept + rest == 8 * |p|
    ensures Field(p, 0, kept) == BigEndian(p) / Pow2(rest)
  {
    WholeField(p, kept + rest);
    FieldEnds(p, 0, kept, rest);
    RightIsDiv(BigEndian(p), rest);
  }

  /** A field is a slice of the number that the string is. */
  lemma FieldIsSlice(p: seq<bv8>, offset: nat, bits: nat)
    requires offset + bits <= 8 * |p|
    ensures Field(p, offset, bits) == BigEndian(p) / Pow2(8 * |p| - offset - bits) % Pow2(bits)
  {
    FirstDigits(p, offset + bits, 8 * |p| - offset - bits);
    FieldEnds(p, 0, offset, bits);
  }

  // --- storing ------------------------------------------------------------------------------

  lemma {:induction false} AndPow2(v: nat, k: nat)
    ensures And(v, Pow2(k)) != 0 <==> Right(v, k) % 2 == 1
    decreases k
  {
    if k > 0 {
      AndEven(v, Pow2(k - 1));
      AndPow2(v / 2, k - 1);
    }
  }

  /** The bits of the field are those of the value, all others are as before. */
  ghost predicate Stored(p: seq<bv8>, p': seq<bv8>, offset: nat, bits: nat, value: nat) {
    && |p'| == |p| && offset + bits <= 8 * |p|
    && forall i :: 0 <= i < 8 * |p| ==>
      BitAt(p', i) == if offset <= i < offset + bits then Right(value, offset + bits - 1 - i) % 2 == 1 else BitAt(p, i)
  }

  /** So far: the first j bits. */
  ghost predicate PartlyStored(p: seq<bv8>, p': seq<bv8>, offset: nat, bits: nat, value: nat, j: nat) {
    && |p'| == |p| && j <= bits && offset + bits <= 8 * |p|
    && forall i :: 0 <= i < 8 * |p| ==>
      BitAt(p', i) == if offset <= i < offset + j then Right(value, offset + bits - 1 - i) % 2 == 1 else BitAt(p, i)
  }

  lemma StoreNext(p: seq<bv8>, p': seq<bv8>, offset: nat, bits: nat, value: nat, j: nat)
    requires PartlyStored(p, p', offset, bits, value, j) && j < bits
    ensures var i := offset + j; var v := And(value, Pow2(bits - 1 - j)) != 0;
      PartlyStored(p, p'[i / 8 := WithBit(p'[i / 8], i % 8, v)], offset, bits, value, j + 1)
  {
    var i := offset + j;
    var v := And(value, Pow2(bits - 1 - j)) != 0;
    AndPow2(value, bits - 1 - j);
    var p'' := p'[i / 8 := WithBit(p'[i / 8], i % 8, v)];
    forall k | 0 <= k < 8 * |p|
      ensures BitAt(p'', k) ==
              if offset <= k < offset + j + 1 then Right(value, offset + bits - 1 - k) % 2 == 1 else BitAt(p, k)
    {
      SetOneBit(p', i, v, k);
    }
  }

  /** setUnsignedBitfield */
  method SetUnsigned(p: array<bv8>, offset: nat, bits: nat, value: nat)
    requires offset + bits <= 8 * p.Length
    modifies p
    ensures Stored(old(p[..]), p[..], offset, bits, value)
  {
    ghost var before := p[..];
    var at := offset;
    var j := 0;
    while j < bits
      invariant j <= bits && at == offset + j
      invariant PartlyStored(before, p[..], offset, bits, value, j)
    {
      StoreNext(before, p[..], offset, bits, value, j);
      var bitval := And(value, Pow2(bits - 1 - j)) != 0;
      p[at / 8] := WithBit(p[at / 8], at % 8, bitval);
      at := at + 1;
      j := j + 1;
    }
  }

  /** getUnsignedBitfield: the field as a slice of the string's number */
  method GetUnsigned(p: seq<bv8>, offset: nat, bits: nat) returns (value: nat)
    requires offset + bits <= 8 * |p|
    ensures value == Field(p, offset, bits)
    ensures value == BigEndian(p) / Pow2(8 * |p| - offset - bits) % Pow2(bits)
  {
    FieldIsSlice(p, offset, bits);
    value := 0;
    var at := offset;
    var j := 0;
    while j < bits
      invariant j <= bits && at == offset + j && value == Field(p, offset, j)
    {
      MaskIsDigit(p[at / 8], at % 8);
      var bitval := if BitOf(p[at / 8], at % 8) then 1 else 0;
      value := 2 * value + bitval;
      at := at + 1;
      j := j + 1;
    }
  }

  lemma {:induction false} FieldOfStored(p: seq<bv8>, p': seq<bv8>, offset: nat, bits: nat, value: nat, k: nat)
    requires Stored(p, p', offset, bits, value) && k <= bits
    ensures Field(p', offset, k) == Right(value, bits - k) % Pow2(k)
  {
    if k > 0 {
      FieldOfStored(p, p', offset, bits, value, k - 1);
      var r := Right(value, bits - k);
      RightMore(value, bits - k, 1);
      assert Right(r, 1) == r / 2;
      ModStep(r, k);
      assert BitAt(p', offset + k - 1) == (r % 2 == 1);
    }
  }

  /** What was stored is read back, modulo the width. */
  lemma StoredIsRead(p: seq<bv8>, p': seq<bv8>, offset: nat, bits: nat, value: nat)
    requires Stored(p, p', offset, bits, value)
    ensures Field(p', offset, bits) == value % Pow2(bits)
  {
    FieldOfStored(p, p', offset, bits, value, bits);
  }

  /** Fields that do not overlap are left alone. */
  lemma StoredElsewhere(p: seq<bv8>, p': seq<bv8>, offset: nat, bits: nat, value: nat, other: nat, width: nat)
    requires Stored(p, p', offset, bits, value) && other + width <= 8 * |p|
    requires other + width <= offset || offset + bits <= other
    ensures Field(p', other, width) == Field(p, other, width)
  {
    FieldSame(p', other, p, other, width);
  }

  // --- signed fields -----------------------------------------------------------------------

  /** The numbers of a signed field. */
  predicate Fits(v: int, bits: nat)
    requires bits >= 1
  {
    0 - Pow2(bits - 1) <= v < Pow2(bits - 1)
  }

  /** The n-bit pattern of a signed number: the cast in setSignedBitfield. */
  function Pattern(value: int, n: nat): nat
    requires n >= 1 && Fits(value, n)
  {
    if value >= 0 then value else Pow2(n) + value
  }

  /** The signed number with this pattern. */
  function Signed(u: nat, n: nat): int
    requires n >= 1
  {
    if u < Pow2(n - 1) then u else u - Pow2(n)
  }

  // getSignedBitfield in words of n bits, from what getUnsignedBitfield returned
  function SignExtend(u: nat, bits: nat, n: nat): int
    requires 1 <= bits < n
  {
    Signed(if And(u, Pow2(bits - 1)) != 0 then Or(u, Span(bits, n)) else u, n)
  }

  lemma {:induction false} TopBit(u: nat, k: nat)
    requires u < Pow2(k + 1)
    ensures Right(u, k) == if u >= Pow2(k) then 1 else 0
    decreases k
  {
    if k > 0 {
      TopBit(u / 2, k - 1);
    }
  }

  lemma SignIs(u: nat, bits: nat)
    requires bits >= 1 && u < Pow2(bits)
    ensures And(u, Pow2(bits - 1)) != 0 <==> u >= Pow2(bits - 1)
  {
    AndPow2(u, bits - 1);
    TopBit(u, bits - 1);
  }

  lemma SpreadIs(u: nat, bits: nat, n: nat)
    requires 1 <= bits < n && u < Pow2(bits)
    ensures Pow2(bits) <= Pow2(n - 1) && Or(u, Span(bits, n)) == u + Pow2(n) - Pow2(bits)
  {
    Pow2Monotone(bits, n - 1);
    OrSpan(u, bits, n);
    SmallMod(u, Pow2(bits));
  }

  lemma SignExtendIs(u: nat, bits: nat, n: nat)
    requires 1 <= bits < n && u < Pow2(bits)
    ensures SignExtend(u, bits, n) == Signed(u, bits)
  {
    SignIs(u, bits);
    SpreadIs(u, bits, n);
  }

  lemma ModOfSum(s: nat, m: int, r: int)
    requires s > 0
    ensures (s * m + r) % s == r % s
  {
    var d := r / s;
    assert r == s * d + r % s;
    assert s * (m + d) == s * m + s * d;
    DivModUnique(s * m + r, s, m + d, r % s);
  }

  lemma Euclid(v: int, m: nat)
    requires m > 0
    ensures v == m * (v / m) + v % m
  {
  }

  lemma ModOfMultiple(v: int, s: nat, k: nat, m: nat)
    requires s > 0 && m > 0 && m == s * k
    ensures (v % m) % s == v % s
  {
    var d, r := v / m, v % m;
    Euclid(v, m);
    assert m * d == s * (k * d);
    ModOfSum(s, k * d, r);
  }

  lemma ModDown(v: int, p: nat, q: nat)
    requires p <= q
    ensures (v % Pow2(q)) % Pow2(p) == v % Pow2(p)
  {
    Pow2Sum(p, q - p);
    ModOfMultiple(v, Pow2(p), Pow2(q - p), Pow2(q));
  }

  lemma PatternMod(value: int, bits: nat, n: nat)
    requires 1 <= bits < n && Fits(value, n)
    ensures Pattern(value, n) % Pow2(bits) == value % Pow2(bits)
  {
    if value < 0 {
      Pow2Sum(bits, n - bits);
      ModOfSum(Pow2(bits), Pow2(n - bits), value);
    }
  }

  lemma SignedOfMod(value: int, bits: nat)
    requires bits >= 1 && Fits(value, bits)
    ensures Signed(value % Pow2(bits), bits) == value
  {
    if value >= 0 {
      SmallMod(value, Pow2(bits));
    } else {
      DivModUnique(value, Pow2(bits), -1, Pow2(bits) + value);
    }
  }

  /** Reading inverts storing for every number that fits. */
  lemma SignedRoundTrip(value: int, bits: nat, n: nat, u: nat)
    requires 1 <= bits < n && Fits(value, bits) && Fits(value, n) && u == Pattern(value, n) % Pow2(bits)
    ensures SignExtend(u, bits, n) == value
  {
    PatternMod(value, bits, n);
    SignedOfMod(value, bits);
    SignExtendIs(u, bits, n);
  }

  lemma FitsMore(value: int, bits: nat, n: nat)
    requires 1 <= bits <= n && Fits(value, bits)
    ensures Fits(value, n)
  {
    Pow2Monotone(bits - 1, n - 1);
  }

  /** setSignedBitfield, then getSignedBitfield */
  lemma SignedStoredIsRead(p: seq<bv8>, p': seq<bv8>, offset: nat, bits: nat, value: int)
    requires 1 <= bits <= 63 && Fits(value, bits) && Fits(value, 64) && Stored(p, p', offset, bits, Pattern(value, 64))
    ensures SignExtend(Field(p', offset, bits), bits, 64) == value
  {
    StoredIsRead(p, p', offset, bits, Pattern(value, 64));
    SignedRoundTrip(value, bits, 64, Field(p', offset, bits));
  }

  // --- overflow -----------------------------------------------------------------------------

  datatype Overflow = Wrap | Sat | Fail

  /** checkUnsignedBitfieldOverflow: the limit is only meant when the result is not 0 and the type is not Fail */
  method CheckUnsigned(value: nat, incr: int, bits: nat, kind: Overflow) returns (r: int, limit: nat)
    requires 1 <= bits <= 63 && value < Pow2(64) && Fits(incr, 64)
    ensures r == 0 <==> value < Pow2(bits) && 0 <= value + incr < Pow2(bits)
    ensures r != 0 && kind.Wrap? ==> limit == (value + incr) % Pow2(bits)
    ensures r != 0 && kind.Sat? ==> limit == if value < Pow2(bits) && incr < 0 then 0 else Pow2(bits) - 1
    ensures !kind.Wrap? ==> (r == -1 <==> value < Pow2(bits) && value + incr < 0) && -1 <= r <= 1
  {
    limit := 0;
    var max := Pow2(bits) - 1;
    var maxincr: int, minincr: int := max - value, 0 - value;
    if value > max || (incr > 0 && incr > maxincr) {
      if kind.Wrap? {
        limit := WrapUnsigned(value, incr, bits, 64);
      } else if kind.Sat? {
        limit := max;
      }
      return 1, limit;
    } else if incr < 0 && incr < minincr {
      if kind.Wrap? {
        limit := WrapUnsigned(value, incr, bits, 64);
        return 1, limit;
      } else if kind.Sat? {
        limit := 0;
      }
      return -1, limit;
    }
    return 0, limit;
  }

  // handle_wrap of checkUnsignedBitfieldOverflow: an n-bit sum, masked
  function WrapUnsigned(value: nat, incr: int, bits: nat, n: nat): (r: nat)
    requires 1 <= bits < n
    ensures r == (value + incr) % Pow2(bits)
  {
    AndMask((value + incr) % Pow2(n), bits);
    ModDown(value + incr, bits, n);
    And((value + incr) % Pow2(n), Pow2(bits) - 1)
  }

  // A difference as a signed number below `half`, which wraps
  function Wrapped(d: int, half: nat): int {
    if d >= half then d - 2 * half else if d < 0 - half then d + 2 * half else d
  }

  // The two tests of checkSignedBitfieldOverflow: 1 or -1 for the branch that is taken
  method Exceeds(value: int, incr: int, top: nat, half: nat) returns (r: int)
    requires 0 < 2 * top <= half && 0 - half <= value < half && 0 - half <= incr < half
    ensures -1 <= r <= 1 && (r == 0 <==> 0 - top <= value < top && 0 - top <= value + incr < top)
    ensures 0 - top <= value < top ==> (r == 1 <==> value + incr >= top) && (r == -1 <==> value + incr < 0 - top)
    ensures incr == 0 && r != 0 ==> (r == 1 <==> value >= 0 || value < top - half)
  {
    var max: int := top - 1;
    var min: int := 0 - max - 1;
    var maxincr, minincr := Wrapped(max - value, half), Wrapped(min - value, half);
    if value > max || incr > maxincr || (value >= 0 && incr > 0 && incr > maxincr) {
      return 1;
    } else if value < min || incr < minincr || (value < 0 && incr < 0 && incr < minincr) {
      return -1;
    }
    return 0;
  }

  /** So far below the field's range that the distance to its upper end does not fit 64 bits */
  predicate TooLow(value: int, bits: nat)
    requires bits >= 1
  {
    value < Pow2(bits - 1) - Pow2(63)
  }

  /**
    checkSignedBitfieldOverflow.  A value that is out of range itself is only checked with an increment
    of 0, by SET; one that is too low then saturates at the wrong end.
  */
  method CheckSigned(value: int, incr: int, bits: nat, kind: Overflow) returns (r: int, limit: int)
    requires 1 <= bits <= 63 && Fits(value, 64) && Fits(incr, 64)
    ensures r == 0 <==> Fits(value, bits) && Fits(value + incr, bits)
    ensures r != 0 && kind.Wrap? ==> limit == Signed((value + incr) % Pow2(bits), bits)
    ensures r != 0 && kind.Sat? && Fits(value, bits) ==>
      limit == if incr > 0 then Pow2(bits - 1) - 1 else 0 - Pow2(bits - 1)
    ensures r != 0 && kind.Sat? && incr == 0 ==>
      limit == if value >= 0 || TooLow(value, bits) then Pow2(bits - 1) - 1 else 0 - Pow2(bits - 1)
    ensures !kind.Wrap? && Fits(value, bits) ==>
      (r == 1 <==> value + incr >= Pow2(bits - 1)) && (r == -1 <==> value + incr < 0 - Pow2(bits - 1))
  {
    limit := 0;
    Pow2Monotone(bits - 1, 62);
    var max: int := Pow2(bits - 1) - 1;
    var min: int := 0 - max - 1;
    r := Exceeds(value, incr, Pow2(bits - 1), Pow2(63));
    if r != 0 {
      if kind.Wrap? {
        limit := WrapSigned(value, incr, bits, 64);
        return 1, limit;
      } else if kind.Sat? {
        limit := if r == 1 then max else min;
      }
    }
  }

  // handle_wrap of checkSignedBitfieldOverflow: an n-bit sum whose sign bit is spread or whose high bits are cleared
  function WrapSigned(value: int, incr: int, bits: nat, n: nat): (r: int)
    requires 1 <= bits < n
    ensures r == Signed((value + incr) % Pow2(bits), bits)
  {
    var c := (value + incr) % Pow2(n);
    WrapSignedIs(c, bits, n, c % Pow2(bits));
    ModDown(value + incr, bits, n);
    Spread(c, bits, n)
  }

  function Spread(c: nat, bits: nat, n: nat): int
    requires 1 <= bits < n
  {
    Signed(if And(c, Pow2(bits - 1)) != 0 then Or(c, Span(bits, n)) else And(c, Pow2(bits) - 1), n)
  }

  lemma SpreadParts(c: nat, bits: nat, n: nat, m: nat)
    requires 1 <= bits < n && c < Pow2(n) && m == c % Pow2(bits)
    ensures And(c, Pow2(bits - 1)) != 0 <==> m >= Pow2(bits - 1)
    ensures And(c, Pow2(bits) - 1) == m && Or(c, Span(bits, n)) == m + Span(bits, n)
  {
    AndPow2(c, bits - 1);
    SignBit(c, bits);
    AndMask(c, bits);
    OrSpan(c, bits, n);
  }

  lemma WrapSignedIs(c: nat, bits: nat, n: nat, m: nat)
    requires 1 <= bits < n && c < Pow2(n) && m == c % Pow2(bits)
    ensures Spread(c, bits, n) == Signed(m, bits)
  {
    SpreadParts(c, bits, n, m);
    SpreadSigned(bits, n, m);
  }

  lemma SpreadSigned(bits: nat, n: nat, m: nat)
    requires 1 <= bits < n && m < Pow2(bits)
    ensures Signed(m + Span(bits, n), n) == m - Pow2(bits) && Signed(m, n) == m
  {
    Pow2Monotone(bits, n - 1);
  }

  /** The topmost bit of a remainder. */
  lemma {:induction false} SignBit(c: nat, bits: nat)
    requires bits >= 1
    ensures Right(c, bits - 1) % 2 == 1 <==> c % Pow2(bits) >= Pow2(bits - 1)
    decreases bits
  {
    ModStep(c, bits);
    if bits > 1 {
      SignBit(c / 2, bits - 1);
    }
  }

  // --- INCRBY ---------------------------------------------------------------------------------

  datatype Reply<T> = Null | Number(value: T)

  /** Nothing but the field has changed. */
  ghost predicate OnlyField(p: seq<bv8>, p': seq<bv8>, offset: nat, bits: nat) {
    && |p'| == |p|
    && forall i :: 0 <= i < 8 * |p| && !(offset <= i < offset + bits) ==> BitAt(p', i) == BitAt(p, i)
  }

  /** The sum as an unsigned field holds it. */
  function Held(sum: int, bits: nat, kind: Overflow): nat {
    if 0 <= sum < Pow2(bits) then sum
    else if kind.Wrap? then sum % Pow2(bits)
    else if sum < 0 then 0 else Pow2(bits) - 1
  }

  lemma HeldFits(sum: int, bits: nat, kind: Overflow)
    ensures Held(sum, bits, kind) < Pow2(bits) && Held(sum, bits, kind) % Pow2(bits) == Held(sum, bits, kind)
  {
    SmallMod(Held(sum, bits, kind), Pow2(bits));
  }

  /** INCRBY on an unsigned field: lines 1041-1069 */
  method IncrUnsigned(p: array<bv8>, offset: nat, bits: nat, incr: int, kind: Overflow) returns (reply: Reply<nat>)
    requires 1 <= bits <= 63 && offset + bits <= 8 * p.Length && Fits(incr, 64)
    modifies p
    ensures var sum := Field(old(p[..]), offset, bits) + incr;
      if kind.Fail? && !(0 <= sum < Pow2(bits)) then reply == Null && p[..] == old(p[..])
      else
        && reply == Number(Held(sum, bits, kind)) && Field(p[..], offset, bits) == Held(sum, bits, kind)
        && OnlyField(old(p[..]), p[..], offset, bits)
  {
    var oldval := GetUnsigned(p[..], offset, bits);
    FieldBounded(p[..], offset, bits);
    var overflow, newval := NextUnsigned(oldval, incr, bits, kind);
    if overflow && kind.Fail? {
      return Null;
    }
    PutUnsigned(p, offset, bits, newval);
    return Number(newval);
  }

  // Lines 1049-1053
  method NextUnsigned(oldval: nat, incr: int, bits: nat, kind: Overflow) returns (overflow: bool, newval: nat)
    requires 1 <= bits <= 63 && oldval < Pow2(bits) && Fits(incr, 64)
    ensures overflow <==> !(0 <= oldval + incr < Pow2(bits))
    ensures !overflow || !kind.Fail? ==> newval == Held(oldval + incr, bits, kind) && newval % Pow2(bits) == newval
  {
    Pow2Monotone(bits, 64);
    var r, limit := CheckUnsigned(oldval, incr, bits, kind);
    HeldFits(oldval + incr, bits, kind);
    overflow := r != 0;
    newval := if overflow then limit else oldval + incr;
  }

  // setUnsignedBitfield with a value that fits
  method PutUnsigned(p: array<bv8>, offset: nat, bits: nat, value: nat)
    requires offset + bits <= 8 * p.Length && value % Pow2(bits) == value
    modifies p
    ensures Field(p[..], offset, bits) == value && OnlyField(old(p[..]), p[..], offset, bits)
  {
    ghost var before := p[..];
    SetUnsigned(p, offset, bits, value);
    StoredIsRead(before, p[..], offset, bits, value);
  }

  /** The sum as a signed field holds it. */
  function HeldSigned(sum: int, bits: nat, kind: Overflow): int
    requires bits >= 1
  {
    if Fits(sum, bits) then sum
    else if kind.Wrap? then Signed(sum % Pow2(bits), bits)
    else if sum < 0 then 0 - Pow2(bits - 1) else Pow2(bits - 1) - 1
  }

  lemma HeldSignedFits(sum: int, bits: nat, kind: Overflow)
    requires bits >= 1
    ensures Fits(HeldSigned(sum, bits, kind), bits)
  {
  }

  /** INCRBY on a signed field: lines 1011-1040 */
  method IncrSigned(p: array<bv8>, offset: nat, bits: nat, incr: int, kind: Overflow) returns (reply: Reply<int>)
    requires 1 <= bits <= 63 && offset + bits <= 8 * p.Length && Fits(incr, 64)
    modifies p
    ensures var sum := SignExtend(Field(old(p[..]), offset, bits), bits, 64) + incr;
      if kind.Fail? && !Fits(sum, bits) then reply == Null && p[..] == old(p[..])
      else
        && reply == Number(HeldSigned(sum, bits, kind))
        && SignExtend(Field(p[..], offset, bits), bits, 64) == HeldSigned(sum, bits, kind)
        && OnlyField(old(p[..]), p[..], offset, bits)
  {
    var oldval := GetSigned(p[..], offset, bits);
    var overflow, newval := NextSigned(oldval, incr, bits, kind);
    if overflow && kind.Fail? {
      return Null;
    }
    SetSigned(p, offset, bits, newval);
    return Number(newval);
  }

  // Lines 1019-1023
  method NextSigned(oldval: int, incr: int, bits: nat, kind: Overflow) returns (overflow: bool, newval: int)
    requires 1 <= bits <= 63 && Fits(oldval, bits) && Fits(incr, 64)
    ensures overflow <==> !Fits(oldval + incr, bits)
    ensures !overflow || !kind.Fail? ==> newval == HeldSigned(oldval + incr, bits, kind) && Fits(newval, bits)
  {
    FitsMore(oldval, bits, 64);
    var r, limit := CheckSigned(oldval, incr, bits, kind);
    HeldSignedFits(oldval + incr, bits, kind);
    overflow := r != 0;
    newval := if overflow then limit else oldval + incr;
  }

  // --- SET ------------------------------------------------------------------------------------

  /**
    SET of an unsigned field: lines 1054-1069.  The number is cast to 64 bits without sign, so that a
    negative one saturates at the upper end.
  */
  method PutChecked(p: array<bv8>, offset: nat, bits: nat, value: int, kind: Overflow) returns (reply: Reply<nat>)
    requires 1 <= bits <= 63 && offset + bits <= 8 * p.Length && Fits(value, 64)
    modifies p
    ensures var v := Pattern(value, 64);
      if kind.Fail? && v >= Pow2(bits) then reply == Null && p[..] == old(p[..])
      else
        && reply == Number(Field(old(p[..]), offset, bits)) && Field(p[..], offset, bits) == Held(v, bits, kind)
        && OnlyField(old(p[..]), p[..], offset, bits)
  {
    var oldval := GetUnsigned(p[..], offset, bits);
    PatternBelow(value, 64);
    var overflow, newval := FitUnsigned(Pattern(value, 64), bits, kind);
    if overflow && kind.Fail? {
      return Null;
    }
    PutUnsigned(p, offset, bits, newval);
    return Number(oldval);
  }

  // Lines 1055-1058
  method FitUnsigned(value: nat, bits: nat, kind: Overflow) returns (overflow: bool, newval: nat)
    requires 1 <= bits <= 63 && value < Pow2(64)
    ensures overflow <==> value >= Pow2(bits)
    ensures !overflow || !kind.Fail? ==> newval == Held(value, bits, kind) && newval % Pow2(bits) == newval
  {
    ZeroFits();
    var r, limit := CheckUnsigned(value, 0, bits, kind);
    HeldFits(value, bits, kind);
    overflow := r != 0;
    newval := if overflow then limit else value;
  }

  lemma ZeroFits()
    ensures Fits(0, 64)
  {
  }

  lemma PatternBelow(value: int, n: nat)
    requires n >= 1 && Fits(value, n)
    ensures Pattern(value, n) < Pow2(n)
  {
  }

  /** With WRAP, what SET leaves in an unsigned field is the number modulo the width, a negative one included. */
  lemma WrapIsModulo(value: int, bits: nat)
    requires 1 <= bits <= 63 && Fits(value, 64)
    ensures Held(Pattern(value, 64), bits, Wrap) == value % Pow2(bits)
  {
    PatternMod(value, bits, 64);
    if Pattern(value, 64) < Pow2(bits) {
      SmallMod(Pattern(value, 64), Pow2(bits));
    }
  }

  /**
    SET of a signed field: lines 1024-1040.  The field then holds what it should, wrapped or clamped, if
    and only if the number is not too low or is not to saturate; one that is becomes the greatest.
  */
  method PutCheckedSigned(p: array<bv8>, offset: nat, bits: nat, value: int, kind: Overflow)
    returns (reply: Reply<int>)
    requires 1 <= bits <= 63 && offset + bits <= 8 * p.Length && Fits(value, 64)
    modifies p
    ensures var held := SignExtend(Field(p[..], offset, bits), bits, 64);
      if kind.Fail? && !Fits(value, bits) then reply == Null && p[..] == old(p[..])
      else
        && reply == Number(SignExtend(Field(old(p[..]), offset, bits), bits, 64))
        && held == (if kind.Sat? && TooLow(value, bits) then Pow2(bits - 1) - 1 else HeldSigned(value, bits, kind))
        && (held == HeldSigned(value, bits, kind) <==> !(kind.Sat? && TooLow(value, bits)))
        && OnlyField(old(p[..]), p[..], offset, bits)
  {
    var oldval := GetSigned(p[..], offset, bits);
    var overflow, limit := CheckSigned(value, 0, bits, kind);
    if overflow != 0 && kind.Fail? {
      return Null;
    }
    var newval := if overflow != 0 then limit else value;
    SetHolds(value, bits, kind, overflow, limit, newval);
    SetSigned(p, offset, bits, newval);
    return Number(oldval);
  }

  lemma SetHolds(value: int, bits: nat, kind: Overflow, r: int, limit: int, newval: int)
    requires 1 <= bits <= 63 && (r == 0 <==> Fits(value, bits)) && (r != 0 ==> !kind.Fail?)
    requires r != 0 && kind.Wrap? ==> limit == Signed(value % Pow2(bits), bits)
    requires r != 0 && kind.Sat? ==>
      limit == if value >= 0 || TooLow(value, bits) then Pow2(bits - 1) - 1 else 0 - Pow2(bits - 1)
    requires newval == if r != 0 then limit else value
    ensures Fits(newval, bits)
    ensures newval == if kind.Sat? && TooLow(value, bits) then Pow2(bits - 1) - 1 else HeldSigned(value, bits, kind)
    ensures newval == HeldSigned(value, bits, kind) <==> !(kind.Sat? && TooLow(value, bits))
  {
    HeldSignedFits(value, bits, kind);
    Pow2Monotone(bits - 1, 62);
  }

  /** SET of the least number in a signed byte with OVERFLOW SAT leaves 127, not -128. */
  method SaturatesAtTheWrongEnd(p: array<bv8>) returns (reply: Reply<int>)
    requires p.Length == 1
    modifies p
    ensures SignExtend(Field(p[..], 0, 8), 8, 64) == 127
  {
    assert Pow2(7) == 128;
    Pow2Monotone(0, 63);
    reply := PutCheckedSigned(p, 0, 8, 0 - Pow2(63), Sat);
  }

  /** getSignedBitfield */
  method GetSigned(p: seq<bv8>, offset: nat, bits: nat) returns (value: int)
    requires 1 <= bits <= 63 && offset + bits <= 8 * |p|
    ensures value == SignExtend(Field(p, offset, bits), bits, 64) && Fits(value, bits)
  {
    var u := GetUnsigned(p, offset, bits);
    value := SignExtend(u, bits, 64);
    FieldBounded(p, offset, bits);
    SignExtendIs(u, bits, 64);
  }

  /** setSignedBitfield */
  method SetSigned(p: array<bv8>, offset: nat, bits: nat, value: int)
    requires 1 <= bits <= 63 && offset + bits <= 8 * p.Length && Fits(value, bits)
    modifies p
    ensures SignExtend(Field(p[..], offset, bits), bits, 64) == value && OnlyField(old(p[..]), p[..], offset, bits)
  {
    ghost var before := p[..];
    FitsMore(value, bits, 64);
    SetUnsigned(p, offset, bits, Pattern(value, 64));
    SignedStoredIsRead(before, p[..], offset, bits, value);
  }

  // --- the window of GET --------------------------------------------------------------------

  /** The string as if it went on with zeros. */
  function Extended(s: seq<bv8>, n: nat): (r: seq<bv8>)
    ensures |r| == |s| + n && forall k :: 0 <= k < |r| ==> r[k] == if k < |s| then s[k] else 0
  {
    s + seq(n, _ => 0)
  }

  // Lines 1086-1092
  method CopyWindow(s: seq<bv8>, byte: nat) returns (buf: seq<bv8>)
    ensures |buf| == 9 && forall k :: 0 <= k < 9 ==> buf[k] == if k + byte < |s| then s[k + byte] else 0
  {
    buf := seq(9, _ => 0);
    var i := 0;
    while i < 9 && i + byte < |s|
      invariant i <= 9 && |buf| == 9
      invariant forall k :: 0 <= k < 9 ==> buf[k] == if k < i && k + byte < |s| then s[k + byte] else 0
    {
      buf := buf[i := s[i + byte]];
      i := i + 1;
    }
  }

  // The window, and where the field begins in it
  method Window(s: seq<bv8>, offset: nat, bits: nat) returns (buf: seq<bv8>, at: nat)
    requires bits <= 64
    ensures at + bits <= 8 * |buf| && Field(buf, at, bits) == Field(Extended(s, offset / 8 + 9), offset, bits)
  {
    var byte := offset / 8;
    buf := CopyWindow(s, byte);
    at := offset - byte * 8;
    ghost var all := Extended(s, byte + 9);
    WindowBits(buf, all, byte, offset, bits);
  }

  /** GET copies nine bytes and reads there. */
  method GetThroughWindow(s: seq<bv8>, offset: nat, bits: nat) returns (value: nat)
    requires bits <= 64
    ensures value == Field(Extended(s, offset / 8 + 9), offset, bits)
  {
    var buf, at := Window(s, offset, bits);
    value := GetUnsigned(buf, at, bits);
  }

  /** The same for a signed field */
  method GetSignedThroughWindow(s: seq<bv8>, offset: nat, bits: nat) returns (value: int)
    requires 1 <= bits <= 63
    ensures value == SignExtend(Field(Extended(s, offset / 8 + 9), offset, bits), bits, 64) && Fits(value, bits)
  {
    var buf, at := Window(s, offset, bits);
    value := GetSigned(buf, at, bits);
  }

  lemma WindowIndex(byte: nat, at: nat, j: nat)
    requires at < 8 && j < 64
    ensures (at + j) / 8 < 9 && (byte * 8 + at + j) / 8 == (at + j) / 8 + byte
    ensures (byte * 8 + at + j) % 8 == (at + j) % 8
  {
  }

  lemma WindowBits(buf: seq<bv8>, all: seq<bv8>, byte: nat, offset: nat, bits: nat)
    requires |buf| == 9 && byte == offset / 8 && byte + 9 <= |all| && bits <= 64
    requires forall k :: 0 <= k < 9 ==> buf[k] == all[k + byte]
    ensures Field(buf, offset - byte * 8, bits) == Field(all, offset, bits)
  {
    var at := offset - byte * 8;
    forall j: nat | j < bits
      ensures SameBit(buf, at, all, offset, j)
    {
      WindowIndex(byte, at, j);
      var k := (at + j) / 8;
      assert buf[k] == all[k + byte];
    }
    FieldSame(buf, at, all, offset, bits);
  }
}
