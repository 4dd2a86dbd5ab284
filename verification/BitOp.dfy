/**
  BITOP of project/network/redis/redis-3.2/src/bitops.c:616-733: words are combined four at a time
  as far as all strings go, and the rest byte by byte.  A missing key is an empty string.
*/
module BitOp {
  import opened Words

  datatype Op = AND | OR | XOR | NOT

  /** The operator on machine words; NOT has only one operand, which it has been applied to already. */
  function Combine(op: Op, a: nat, b: nat): nat {
    match op
    case AND => And(a, b)
    case OR => Or(a, b)
    case XOR => Xor(a, b)
    case NOT => a
  }

  // --- words and bytes ------------------------------------------------------------------------

  lemma OrHalf(a: nat, b: nat)
    ensures Or(a, b) / 2 == Or(a / 2, b / 2) && Or(a, b) % 2 == if a % 2 + b % 2 > 0 then 1 else 0
  {
  }

  lemma {:induction false} OrRight(a: nat, b: nat, p: nat)
    ensures Right(Or(a, b), p) == Or(Right(a, p), Right(b, p))
    decreases p
  {
    if p > 0 {
      OrHalf(a, b);
      OrRight(a / 2, b / 2, p - 1);
    }
  }

  lemma {:induction false} OrMod(a: nat, b: nat, p: nat)
    ensures Or(a, b) % Pow2(p) == Or(a % Pow2(p), b % Pow2(p))
    decreases p
  {
    if p > 0 {
      var x, a', b' := Or(a, b), a % Pow2(p), b % Pow2(p);
      OrHalf(a, b);
      OrHalf(a', b');
      ModBit(a, p);
      ModBit(b, p);
      ModBit(x, p);
      OrMod(a / 2, b / 2, p - 1);
      SameHalves(x % Pow2(p), Or(a', b'));
    }
  }

  /** The low byte of the result comes from the low bytes, the rest from the rest. */
  lemma CombineParts(op: Op, u: nat, w: nat)
    ensures Combine(op, u, w) % 256 == Combine(op, u % 256, w % 256)
    ensures Combine(op, u, w) / 256 == Combine(op, u / 256, w / 256)
  {
    AndParts(u, w);
    OrMod(u, w, 8);
    OrRight(u, w, 8);
    XorMod(u, w, 8);
    XorRight(u, w, 8);
    RightByte(u);
    RightByte(w);
    RightByte(Or(u, w));
    RightByte(Xor(u, w));
    assert Pow2(8) == 256;
  }

  function CombineByte(op: Op, a: Byte, b: Byte): Byte {
    CombineParts(op, a, b);
    assert Combine(op, a, b) / 256 == 0;
    Combine(op, a, b)
  }

  function Both(op: Op, s: seq<Byte>, t: seq<Byte>): (r: seq<Byte>)
    requires |s| == |t|
    ensures |r| == |s|
  {
    seq(|s|, i requires 0 <= i < |s| => CombineByte(op, s[i], t[i]))
  }

  lemma CombineStep(op: Op, u: nat, w: nat, a: Byte, x: nat, b: Byte, y: nat)
    requires u % 256 == a && u / 256 == x && w % 256 == b && w / 256 == y
    ensures Combine(op, u, w) == CombineByte(op, a, b) + 256 * Combine(op, x, y)
  {
    CombineParts(op, u, w);
    Recompose(Combine(op, u, w), CombineByte(op, a, b), Combine(op, x, y));
  }

  lemma JoinParts(s: seq<Byte>)
    requires s != []
    ensures Join(s) % 256 == s[0] && Join(s) / 256 == Join(s[1..])
  {
  }

  /** An operator on words is the operator on their bytes. */
  lemma {:induction false} JoinBoth(op: Op, s: seq<Byte>, t: seq<Byte>)
    requires |s| == |t|
    ensures Combine(op, Join(s), Join(t)) == Join(Both(op, s, t))
  {
    if s != [] {
      JoinBoth(op, s[1..], t[1..]);
      JoinParts(s);
      JoinParts(t);
      CombineStep(op, Join(s), Join(t), s[0], Join(s[1..]), t[0], Join(t[1..]));
      assert Both(op, s, t)[1..] == Both(op, s[1..], t[1..]);
    }
  }

  /** The n bytes of a word as they lie in memory. */
  function Split(v: nat, n: nat): (s: seq<Byte>)
    ensures |s| == n
    decreases n
  {
    if n == 0 then [] else [v % 256] + Split(v / 256, n - 1)
  }

  lemma {:induction false} SplitJoin(s: seq<Byte>)
    ensures Split(Join(s), |s|) == s
  {
    if s != [] {
      SplitJoin(s[1..]);
      JoinParts(s);
    }
  }

  function Flip(s: seq<Byte>): (r: seq<Byte>)
    ensures |r| == |s|
  {
    seq(|s|, i requires 0 <= i < |s| => 255 - s[i])
  }

  lemma {:induction false} NotJoin(s: seq<Byte>, n: nat)
    requires n == 8 * |s|
    ensures Join(s) < Pow2(n) && Not(Join(s), n) == Join(Flip(s))
  {
    if s != [] {
      NotJoin(s[1..], n - 8);
      assert Flip(s)[1..] == Flip(s[1..]);
      Pow2Sum(8, n - 8);
      assert Pow2(8) == 256;
    }
  }

  // --- what BITOP is to compute -----------------------------------------------------------------

  function ByteAt(s: seq<Byte>, j: nat): Byte {
    if j < |s| then s[j] else 0
  }

  /** Byte j of the result for the first n strings, each continued with zeros. */
  function Folded(op: Op, srcs: seq<seq<Byte>>, j: nat, n: nat): Byte
    requires 1 <= n <= |srcs|
  {
    if n == 1 then (if op.NOT? then 255 - ByteAt(srcs[0], j) else ByteAt(srcs[0], j))
    else CombineByte(op, Folded(op, srcs, j, n - 1), ByteAt(srcs[n - 1], j))
  }

  predicate Covers(op: Op, srcs: seq<seq<Byte>>, j: nat, block: seq<Byte>, n: nat)
    requires 1 <= n <= |srcs|
  {
    forall k :: 0 <= k < |block| ==> block[k] == Folded(op, srcs, j + k, n)
  }

  // --- what that means for each bit --------------------------------------------------------------

  lemma {:induction false} CombinedBit(op: Op, a: nat, b: nat, k: nat)
    ensures Bit(a, k) < 2 && Bit(b, k) < 2
    ensures op.AND? ==> (Bit(Combine(op, a, b), k) == 1 <==> Bit(a, k) == 1 && Bit(b, k) == 1)
    ensures op.OR? ==> (Bit(Combine(op, a, b), k) == 1 <==> Bit(a, k) == 1 || Bit(b, k) == 1)
    ensures op.XOR? ==> Bit(Combine(op, a, b), k) == (Bit(a, k) + Bit(b, k)) % 2
    decreases k
  {
    AndHalf(a, b);
    OrHalf(a, b);
    XorHalf(a, b);
    if k > 0 {
      CombinedBit(op, a / 2, b / 2, k - 1);
    }
  }

  lemma {:induction false} FlippedBit(b: nat, n: nat, k: nat)
    requires b < Pow2(n) && k < n
    ensures Bit(Pow2(n) - 1 - b, k) == 1 - Bit(b, k)
    decreases k
  {
    var c := Pow2(n) - 1 - b;
    assert c % 2 == 1 - b % 2 && c / 2 == Pow2(n - 1) - 1 - b / 2;
    if k > 0 {
      FlippedBit(b / 2, n - 1, k - 1);
    }
  }

  /** In how many of the first n strings bit k of byte j is 1; it is 0 after the end of a string */
  function HowMany(srcs: seq<seq<Byte>>, j: nat, k: nat, n: nat): nat
    requires n <= |srcs|
  {
    if n == 0 then 0 else HowMany(srcs, j, k, n - 1) + Bit(ByteAt(srcs[n - 1], j), k)
  }

  /** The bit a result should have when `ones` of n bits are 1 */
  predicate Expected(op: Op, ones: nat, n: nat) {
    match op
    case AND => ones == n
    case OR => ones > 0
    case XOR => ones % 2 == 1
    case NOT => ones == 0
  }

  /** AND is 1 where all bits are, OR where some is, XOR where an odd number is, and NOT where none is. */
  lemma {:induction false} FoldedBit(op: Op, srcs: seq<seq<Byte>>, j: nat, n: nat, k: nat)
    requires 1 <= n <= |srcs| && k < 8 && (op.NOT? ==> n == 1)
    ensures Bit(Folded(op, srcs, j, n), k) < 2 && HowMany(srcs, j, k, n) <= n
    ensures Bit(Folded(op, srcs, j, n), k) == 1 <==> Expected(op, HowMany(srcs, j, k, n), n)
    decreases n
  {
    var b := ByteAt(srcs[n - 1], j);
    if n > 1 {
      FoldedBit(op, srcs, j, n - 1, k);
      CombinedBit(op, Folded(op, srcs, j, n - 1), b, k);
      CombinedBit(op, Folded(op, srcs, j, n), b, k);
    } else {
      assert HowMany(srcs, j, k, 1) == HowMany(srcs, j, k, 0) + Bit(b, k);
      OneSource(op, b, k);
    }
  }

  /** Every bit of a result is as it should be. */
  ghost predicate RightBits(op: Op, srcs: seq<seq<Byte>>, res: seq<Byte>) {
    forall j, k | 0 <= j < |res| && 0 <= k < 8 ::
      Bit(res[j], k) == 1 <==> Expected(op, HowMany(srcs, j, k, |srcs|), |srcs|)
  }

  lemma CoveredBits(op: Op, srcs: seq<seq<Byte>>, res: seq<Byte>)
    requires |srcs| >= 1 && (op.NOT? ==> |srcs| == 1) && Covers(op, srcs, 0, res, |srcs|)
    ensures RightBits(op, srcs, res)
  {
    forall j, k | 0 <= j < |res| && 0 <= k < 8
      ensures Bit(res[j], k) == 1 <==> Expected(op, HowMany(srcs, j, k, |srcs|), |srcs|)
    {
      assert res[j] == Folded(op, srcs, 0 + j, |srcs|);
      FoldedBit(op, srcs, j, |srcs|, k);
    }
  }

  lemma OneSource(op: Op, b: Byte, k: nat)
    requires k < 8
    ensures Bit(b, k) < 2 && Bit(255 - b, k) == 1 - Bit(b, k)
  {
    CombinedBit(op, b, b, k);
    assert Pow2(8) == 256;
    FlippedBit(b, 8, k);
  }

  // --- the fast path ------------------------------------------------------------------------------

  // lres[k] op= lp[i][k] for four words of eight bytes
  method CombineBlock(op: Op, a: seq<Byte>, b: seq<Byte>) returns (r: seq<Byte>)
    requires |a| == |b| == 32
    ensures r == Both(op, a, b)
  {
    r := [];
    var k := 0;
    while k < 4
      invariant k <= 4 && r == Both(op, a[..8 * k], b[..8 * k])
    {
      var word := CombineWord(op, a[8 * k..8 * k + 8], b[8 * k..8 * k + 8]);
      BothAppend(op, a, b, 8 * k);
      r := r + word;
      k := k + 1;
    }
    assert a[..32] == a && b[..32] == b;
  }

  method CombineWord(op: Op, x: seq<Byte>, y: seq<Byte>) returns (r: seq<Byte>)
    requires |x| == |y| == 8
    ensures r == Both(op, x, y)
  {
    var word := Combine(op, Join(x), Join(y));
    JoinBoth(op, x, y);
    SplitJoin(Both(op, x, y));
    r := Split(word, 8);
  }

  lemma BothAppend(op: Op, a: seq<Byte>, b: seq<Byte>, k: nat)
    requires |a| == |b| && k + 8 <= |a|
    ensures Both(op, a[..k + 8], b[..k + 8]) == Both(op, a[..k], b[..k]) + Both(op, a[k..k + 8], b[k..k + 8])
  {
  }

  // lres[k] = ~lres[k] for four words
  method FlipBlock(a: seq<Byte>) returns (r: seq<Byte>)
    requires |a| == 32
    ensures r == Flip(a)
  {
    r := [];
    var k := 0;
    while k < 4
      invariant k <= 4 && r == Flip(a[..8 * k])
    {
      var word := FlipWord(a[8 * k..8 * k + 8]);
      FlipAppend(a, 8 * k);
      r := r + word;
      k := k + 1;
    }
    assert a[..32] == a;
  }

  method FlipWord(x: seq<Byte>) returns (r: seq<Byte>)
    requires |x| == 8
    ensures r == Flip(x)
  {
    NotJoin(x, 64);
    SplitJoin(Flip(x));
    r := Split(Not(Join(x), 64), 8);
  }

  lemma FlipAppend(a: seq<Byte>, k: nat)
    requires k + 8 <= |a|
    ensures Flip(a[..k + 8]) == Flip(a[..k]) + Flip(a[k..k + 8])
  {
  }

  ghost predicate LongEnough(srcs: seq<seq<Byte>>, n: nat) {
    forall i :: 0 <= i < |srcs| ==> n <= |srcs[i]|
  }

  /** Lines 652-707: 32 bytes of all strings */
  method FastBlock(op: Op, srcs: seq<seq<Byte>>, j: nat) returns (block: seq<Byte>)
    requires |srcs| >= 1 && (op.NOT? ==> |srcs| == 1) && LongEnough(srcs, j + 32)
    ensures |block| == 32 && Covers(op, srcs, j, block, |srcs|)
  {
    block := srcs[0][j..j + 32];
    if op.NOT? {
      block := FlipBlock(block);
      return;
    }
    var i := 1;
    while i < |srcs|
      invariant 1 <= i <= |srcs| && |block| == 32 && Covers(op, srcs, j, block, i)
    {
      assert |srcs[i]| >= j + 32;
      block := CombineBlock(op, block, srcs[i][j..j + 32]);
      i := i + 1;
    }
  }

  // --- the whole command ---------------------------------------------------------------------------

  /** Lines 709-721 */
  method SlowByte(op: Op, srcs: seq<seq<Byte>>, j: nat) returns (output: Byte)
    requires |srcs| >= 1 && (op.NOT? ==> |srcs| == 1)
    ensures output == Folded(op, srcs, j, |srcs|)
  {
    output := if |srcs[0]| <= j then 0 else srcs[0][j];
    if op.NOT? {
      output := 255 - output;
    }
    var i := 1;
    while i < |srcs|
      invariant 1 <= i <= |srcs| && output == Folded(op, srcs, j, i)
    {
      var byte: Byte := if |srcs[i]| <= j then 0 else srcs[i][j];
      output := CombineByte(op, output, byte);
      i := i + 1;
    }
  }

  /** Lines 613-641: the longest and the shortest length */
  method Lengths(srcs: seq<seq<Byte>>) returns (maxlen: nat, minlen: nat)
    requires |srcs| >= 1
    ensures LongEnough(srcs, minlen) && (forall i :: 0 <= i < |srcs| ==> |srcs[i]| <= maxlen)
    ensures minlen <= maxlen && exists i :: 0 <= i < |srcs| && |srcs[i]| == maxlen
  {
    maxlen, minlen := |srcs[0]|, |srcs[0]|;
    var j := 1;
    while j < |srcs|
      invariant 1 <= j <= |srcs| && minlen <= maxlen
      invariant forall i :: 0 <= i < j ==> minlen <= |srcs[i]| <= maxlen
      invariant exists i :: 0 <= i < j && |srcs[i]| == maxlen
    {
      if |srcs[j]| > maxlen {
        maxlen := |srcs[j]|;
      }
      if |srcs[j]| < minlen {
        minlen := |srcs[j]|;
      }
      j := j + 1;
    }
  }

  /** BITOP: as long as the longest string, each byte the operator over all strings continued with zeros */
  method Compute(op: Op, srcs: seq<seq<Byte>>) returns (res: seq<Byte>)
    requires |srcs| >= 1 && (op.NOT? ==> |srcs| == 1)
    ensures Covers(op, srcs, 0, res, |srcs|) && RightBits(op, srcs, res)
    ensures (forall i :: 0 <= i < |srcs| ==> |srcs[i]| <= |res|) && exists i :: 0 <= i < |srcs| && |srcs[i]| == |res|
  {
    var maxlen, minlen := Lengths(srcs);
    res := [];
    if minlen >= 32 && |srcs| <= 16 {
      while minlen - |res| >= 32
        invariant |res| <= minlen && Covers(op, srcs, 0, res, |srcs|)
        decreases minlen - |res|
      {
        var block := FastBlock(op, srcs, |res|);
        res := res + block;
      }
    }
    while |res| < maxlen
      invariant |res| <= maxlen && Covers(op, srcs, 0, res, |srcs|)
      decreases maxlen - |res|
    {
      var output := SlowByte(op, srcs, |res|);
      res := res + [output];
    }
    CoveredBits(op, srcs, res);
  }
}
