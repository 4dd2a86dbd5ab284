/**
  The checksum of DUMP payloads (project/network/redis/redis-3.2/src/crc64.c and
  project/network/redis/redis-3.2/src/cluster.c:4461-4511).  The serialised object is any
  string of bytes.
*/
module DumpPayload {
  import opened CrcTable
  import opened Checksum

  type Byte = bv8
  type Word64 = bv64

  // --- the register ------------------------------------------------------------------------------

  function Xor64(a: Word64, b: Word64): Word64 {
    a ^ b
  }

  function Xor8(a: Byte, b: Byte): Byte {
    a ^ b
  }

  function ShiftByte(x: Word64): Word64 {
    x >> 8
  }

  function Low(x: Word64): Byte {
    (x & 0xff) as bv8
  }

  function Entry(i: Byte): Word64 {
    Table(i)
  }

  // A byte below a register that is shifted up
  function Push(b: Byte, x: Word64): Word64 {
    (x << 8) | (b as bv64)
  }

  /** The register that bytes, lowest first, make up */
  function Join(s: seq<Byte>): Word64 {
    if s == [] then 0 else Push(s[0], Join(s[1..]))
  }

  const CRC: Register<Word64, Byte> := Register(Xor64, 0, ShiftByte, Low, Xor8, 0, Entry, Join)

  // --- the laws ------------------------------------------------------------------------------------

  lemma AddAssociates(a: Word64, b: Word64, c: Word64)
    ensures Associates(CRC, a, b, c)
  {
    XorAssociates(a, b, c);
    Added(a, b);
    Added(b, c);
    Added(a ^ b, c);
    Added(a, b ^ c);
  }

  lemma Added(a: Word64, b: Word64)
    ensures CRC.add(a, b) == a ^ b
  {
  }

  lemma XorAssociates(a: Word64, b: Word64, c: Word64)
    ensures (a ^ b) ^ c == a ^ (b ^ c)
  {
  }

  lemma AddCommutes(a: Word64, b: Word64)
    ensures Commutes(CRC, a, b)
  {
  }

  lemma AddSelf(a: Word64)
    ensures SelfInverse(CRC, a)
  {
  }

  lemma PlusLaws(x: Byte, y: Byte, b: Byte)
    ensures Neutral(CRC, x) && Cancels(CRC, x, y, b)
  {
  }

  lemma NextAdds(a: Word64, b: Word64)
    ensures CRC.next(CRC.add(a, b)) == CRC.add(CRC.next(a), CRC.next(b))
  {
  }

  lemma LowAdds(a: Word64, b: Word64)
    ensures CRC.low(CRC.add(a, b)) == CRC.plus(CRC.low(a), CRC.low(b))
  {
  }

  lemma SameParts(a: Word64, b: Word64)
    ensures MadeOfParts(CRC, a, b)
  {
  }

  // Registers with nothing above the lowest k bytes
  predicate Below(x: Word64, k: nat)
    requires k <= 8
  {
    match k
    case 0 => x == 0
    case 1 => x < 0x100
    case 2 => x < 0x1_0000
    case 3 => x < 0x100_0000
    case 4 => x < 0x1_0000_0000
    case 5 => x < 0x100_0000_0000
    case 6 => x < 0x1_0000_0000_0000
    case 7 => x < 0x100_0000_0000_0000
    case 8 => true
  }

  lemma ShiftedBelow(x: Word64, k: nat)
    requires 0 < k <= 8 && Below(x, k)
    ensures Below(x >> 8, k - 1)
  {
  }

  lemma PushParts(b: Byte, x: Word64)
    requires x < 0x100_0000_0000_0000
    ensures Push(b, x) >> 8 == x && Low(Push(b, x)) == b
  {
  }

  lemma PushBelow(b: Byte, x: Word64, k: nat)
    requires k < 8 && Below(x, k)
    ensures Below(Push(b, x), k + 1)
  {
    match k
    case 0 => case 1 => case 2 => case 3 => case 4 => case 5 => case 6 => case 7 =>
  }

  lemma {:induction false} ShiftsOut(x: Word64, k: nat)
    requires k <= 8 && Below(x, k)
    ensures Shifts(CRC, x, k) == 0
    decreases k
  {
    if k > 0 {
      ShiftedBelow(x, k);
      ShiftsOut(CRC.next(x), k - 1);
    }
  }

  lemma {:induction false} JoinBelow(s: seq<Byte>)
    requires |s| <= 8
    ensures Below(Join(s), |s|)
    decreases |s|
  {
    if s != [] {
      JoinBelow(s[1..]);
      PushBelow(s[0], Join(s[1..]), |s| - 1);
    }
  }

  lemma JoinSmall(s: seq<Byte>)
    requires |s| < 8
    ensures Join(s) < 0x100_0000_0000_0000
  {
    JoinBelow(s);
  }

  lemma {:induction false} JoinSpells(x: Word64, s: seq<Byte>)
    requires |s| <= 8 && x == Join(s)
    ensures Bytes(CRC, x, |s|) == s
    decreases |s|
  {
    if s != [] {
      var rest := s[1..];
      JoinParts(s);
      var y := ShiftByte(x);
      JoinSpells(y, rest);
      Spelled(s[0], y, x, |rest|);
    }
  }

  lemma JoinParts(s: seq<Byte>)
    requires 0 < |s| <= 8
    ensures ShiftByte(Join(s)) == Join(s[1..]) && Low(Join(s)) == s[0]
  {
    JoinSmall(s[1..]);
    PushParts(s[0], Join(s[1..]));
  }

  lemma Spelled(b: Byte, x: Word64, y: Word64, k: nat)
    requires ShiftByte(y) == x && Low(y) == b
    ensures Bytes(CRC, y, k + 1) == [b] + Bytes(CRC, x, k)
  {
  }

  /** A register is what its bytes, lowest first, make up. */
  lemma {:induction false} JoinOfBytes(x: Word64, k: nat)
    requires k <= 8 && Below(x, k)
    ensures Join(Bytes(CRC, x, k)) == x
    decreases k
  {
    if k > 0 {
      ShiftedBelow(x, k);
      JoinOfBytes(ShiftByte(x), k - 1);
      Repushed(x);
      assert Bytes(CRC, x, k)[1..] == Bytes(CRC, ShiftByte(x), k - 1);
    }
  }

  lemma Repushed(x: Word64)
    ensures Push(Low(x), x >> 8) == x
  {
  }

  lemma TopOfSum(t: Word64, a: Word64)
    ensures (t ^ (a >> 8)) >> 56 == t >> 56
  {
  }

  lemma EntryLaws(i: Byte, j: Byte, a: Word64, b: Word64)
    ensures Distinct(CRC, i, j, a, b)
  {
    TopOfSum(Table(i), a);
    TopOfSum(Table(j), b);
    if Table(i) >> 56 == Table(j) >> 56 {
      TopDetermines(i, j);
    }
  }

  /** CRC-64-Jones with the table of crc64.c obeys the laws of a cyclic checksum. */
  lemma CrcLaws()
    ensures Laws(CRC)
  {
    forall a, b, c ensures Associates(CRC, a, b, c) {
      AddAssociates(a, b, c);
    }
    forall a, b ensures Commutes(CRC, a, b) {
      AddCommutes(a, b);
    }
    forall a ensures SelfInverse(CRC, a) {
      AddSelf(a);
    }
    forall x ensures Neutral(CRC, x) {
      PlusLaws(x, 0, 0);
    }
    forall x, y, b ensures Cancels(CRC, x, y, b) {
      PlusLaws(x, y, b);
    }
    forall a, b ensures Additive(CRC, a, b) && MadeOfParts(CRC, a, b) {
      NextAdds(a, b);
      LowAdds(a, b);
      SameParts(a, b);
    }
    forall x ensures HasEightBytes(CRC, x) {
      ShiftsOut(x, 8);
    }
    forall s ensures Spells(CRC, s) {
      if |s| == 8 {
        JoinSpells(Join(s), s);
      }
    }
    forall i, j, a, b ensures Distinct(CRC, i, j, a, b) {
      EntryLaws(i, j, a, b);
    }
    TableIsPolynomial(0);
  }

  // --- payloads --------------------------------------------------------------------------------------

  const RDB_VERSION: nat := 7

  /** crc64 */
  method Crc64(init: Word64, s: seq<Byte>) returns (crc: Word64)
    ensures crc == Feed(CRC, init, s)
  {
    crc := init;
    var j := 0;
    assert s[0..] == s;
    while j < |s|
      invariant j <= |s| && Feed(CRC, init, s) == Feed(CRC, crc, s[j..])
    {
      assert s[j..][1..] == s[j + 1..];
      crc := Xor64(Entry(Xor8(Low(crc), s[j])), crc >> 8);
      j := j + 1;
    }
    assert s[j..] == [];
  }

  function VersionBytes(): (s: seq<Byte>)
    ensures s == [7, 0] && 256 * s[1] as nat + s[0] as nat == RDB_VERSION
  {
    [(RDB_VERSION % 256) as bv8, (RDB_VERSION / 256 % 256) as bv8]
  }

  // --- the check value -------------------------------------------------------------------------------

  lemma CheckFirst()
    ensures Step(CRC, 0x0000_0000_0000_0000, 0x31) == 0xfdc1_7184_a9f7_39fa
    ensures Step(CRC, 0xfdc1_7184_a9f7_39fa, 0x32) == 0xe103_6451_3a98_ed96
    ensures Step(CRC, 0xe103_6451_3a98_ed96, 0x33) == 0xd5bc_fb81_4479_b1ac
  {
  }

  lemma CheckSecond()
    ensures Step(CRC, 0xd5bc_fb81_4479_b1ac, 0x34) == 0x4359_3c5d_cda5_21f0
    ensures Step(CRC, 0x4359_3c5d_cda5_21f0, 0x35) == 0xf075_8513_239c_7e0d
    ensures Step(CRC, 0xf075_8513_239c_7e0d, 0x36) == 0xa3a9_0925_b2ab_4903
  {
  }

  lemma CheckThird()
    ensures Step(CRC, 0xa3a9_0925_b2ab_4903, 0x37) == 0x4782_4d36_2431_ad45
    ensures Step(CRC, 0x4782_4d36_2431_ad45, 0x38) == 0x49ec_20b3_15e8_6dc2
    ensures Step(CRC, 0x49ec_20b3_15e8_6dc2, 0x39) == 0xe9c6_d914_c4b8_d9ca
  {
  }

  lemma FeedFirst(rest: seq<Byte>)
    ensures Feed(CRC, 0, [0x31, 0x32, 0x33] + rest) == Feed(CRC, 0xd5bc_fb81_4479_b1ac, rest)
  {
    CheckFirst();
    FeedThree(CRC, 0, 0x31, 0x32, 0x33, rest);
  }

  lemma FeedSecond(rest: seq<Byte>)
    ensures Feed(CRC, 0xd5bc_fb81_4479_b1ac, [0x34, 0x35, 0x36] + rest) == Feed(CRC, 0xa3a9_0925_b2ab_4903, rest)
  {
    CheckSecond();
    FeedThree(CRC, 0xd5bc_fb81_4479_b1ac, 0x34, 0x35, 0x36, rest);
  }

  lemma FeedThird(rest: seq<Byte>)
    ensures Feed(CRC, 0xa3a9_0925_b2ab_4903, [0x37, 0x38, 0x39] + rest) == Feed(CRC, 0xe9c6_d914_c4b8_d9ca, rest)
  {
    CheckThird();
    FeedThree(CRC, 0xa3a9_0925_b2ab_4903, 0x37, 0x38, 0x39, rest);
  }

  /** The value that the specification of CRC-64-Jones gives for the digits from 1 to 9 */
  lemma CheckValue(digits: seq<Byte>)
    requires digits == [0x31, 0x32, 0x33, 0x34, 0x35, 0x36, 0x37, 0x38, 0x39]
    ensures Feed(CRC, 0, digits) == 0xe9c6_d914_c4b8_d9ca
  {
    var last, middle := digits[6..], digits[3..];
    assert digits == [0x31, 0x32, 0x33] + middle;
    assert middle == [0x34, 0x35, 0x36] + last;
    assert last == [0x37, 0x38, 0x39] + digits[9..];
    FeedFirst(middle);
    FeedSecond(last);
    FeedThird(digits[9..]);
  }

  /** createDumpPayload, for an object that is serialised as `body` */
  method CreateDumpPayload(body: seq<Byte>) returns (payload: seq<Byte>)
    ensures |payload| == |body| + 10 && body + [7, 0] <= payload
    ensures Join(payload[|body| + 2..]) == Feed(CRC, 0, body + [7, 0])
    ensures Accepted(payload)
  {
    var buf := VersionBytes();
    payload := body + buf;
    var crc := Crc64(0, payload);
    ghost var b := payload;
    payload := payload + Bytes(CRC, crc, 8);
    CrcLaws();
    OwnBytes(CRC, crc);
    FeedAppend(CRC, 0, b, Bytes(CRC, crc, 8));
    JoinOfBytes(crc, 8);
    assert payload[|body| + 2..] == Bytes(CRC, crc, 8) && payload[..|body| + 2] == b;
  }

  /** The version that is stored before the checksum. */
  function Version(p: seq<Byte>): nat
    requires |p| >= 10
  {
    var high, low := p[|p| - 9] as nat, p[|p| - 10] as nat;
    256 * high + low
  }

  /** A payload is good when its version is not too new and the checksum over all of it, its own included, is zero. */
  predicate Accepted(p: seq<Byte>) {
    |p| >= 10 && Version(p) <= RDB_VERSION && Feed(CRC, 0, p) == 0
  }

  /** The footer read byte by byte: the version and the checksum are both in little endian. */
  ghost predicate GoodFooter(p: seq<Byte>) {
    && |p| >= 10 && p[|p| - 10] as nat + 256 * p[|p| - 9] as nat <= 7
    && Join(p[|p| - 8..]) == Feed(CRC, 0, p[..|p| - 8])
  }

  lemma FooterIsGood(p: seq<Byte>)
    ensures GoodFooter(p) <==> Accepted(p)
  {
    if |p| >= 10 {
      var body, tail := p[..|p| - 8], p[|p| - 8..];
      assert p == body + tail;
      ZeroIffMatch(body, tail, p);
      JoinOfBytes(Feed(CRC, 0, body), 8);
      JoinSpells(Join(tail), tail);
    }
  }

  /** verifyDumpPayload, which compares the checksum of all but the last eight bytes with these */
  method VerifyDumpPayload(p: seq<Byte>) returns (ok: bool)
    ensures ok <==> Accepted(p)
    ensures ok <==> GoodFooter(p)
  {
    FooterIsGood(p);
    if |p| < 10 {
      return false;
    }
    if Version(p) > RDB_VERSION {
      return false;
    }
    var body, tail := p[..|p| - 8], p[|p| - 8..];
    assert p == body + tail;
    ok := Matches(body, tail);
  }

  method Matches(body: seq<Byte>, tail: seq<Byte>) returns (ok: bool)
    requires |tail| == 8
    ensures ok <==> Feed(CRC, 0, body + tail) == 0
  {
    var crc := Crc64(0, body);
    ok := Bytes(CRC, crc, 8) == tail;
    ZeroIffMatch(body, tail, body + tail);
  }

  lemma ZeroIffMatch(a: seq<Byte>, b: seq<Byte>, p: seq<Byte>)
    requires |b| == 8 && p == a + b
    ensures Feed(CRC, 0, p) == 0 <==> Bytes(CRC, Feed(CRC, 0, a), 8) == b
  {
    CrcLaws();
    ZeroIffOwnBytes(CRC, Feed(CRC, 0, a), b);
    FeedAppend(CRC, 0, a, b);
  }

  lemma WindowMatters(a: seq<Byte>, s: seq<Byte>, s': seq<Byte>, b: seq<Byte>)
    requires |s| == |s'| == 8 && s != s'
    ensures Feed(CRC, 0, a + s + b) != Feed(CRC, 0, a + s' + b)
  {
    CrcLaws();
    BurstDetected(CRC, 0, a, s, s', b);
  }

  lemma Window(p: seq<Byte>, k: nat)
    requires k + 8 <= |p|
    ensures p == p[..k] + p[k..k + 8] + p[k + 8..]
  {
  }

  /** A good payload that is changed within eight bytes in a row is good no more. */
  lemma ShortChangeIsRejected(p: seq<Byte>, q: seq<Byte>, i: nat)
    requires Accepted(p) && |q| == |p| && q != p
    requires forall t :: 0 <= t < |p| && p[t] != q[t] ==> i <= t < i + 8
    ensures !Accepted(q)
  {
    var k := if i + 8 <= |p| then i else |p| - 8;
    assert p[..k] == q[..k] && p[k + 8..] == q[k + 8..];
    Window(p, k);
    Window(q, k);
    WindowMatters(p[..k], p[k..k + 8], q[k..k + 8], p[k + 8..]);
  }
}
