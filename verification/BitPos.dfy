/**
  redisBitpos of project/network/redis/redis-3.2/src/bitops.c:101-179: the first bit with a given
  value, found by skipping bytes up to an aligned address, then whole words, and by
  scanning a single word at the end.
*/
module BitPos {
  import opened Words
  import opened BitField

  /** The bits before `end` all have the other value. */
  ghost predicate NoneBefore(s: seq<bv8>, bit: bool, end: nat) {
    forall i: nat | i < end && i < 8 * |s| :: BitAt(s, i) != bit
  }

  /** The least position with this value; a string without a zero has one right after its end. */
  ghost predicate IsFirst(s: seq<bv8>, bit: bool, pos: int) {
    if pos == -1 then bit && NoneBefore(s, bit, 8 * |s|)
    else
      && 0 <= pos <= 8 * |s| && NoneBefore(s, bit, pos)
      && if pos < 8 * |s| then BitAt(s, pos) == bit else !bit
  }

  /** All bits of a byte to be skipped: 0 or UCHAR_MAX */
  function Skip(bit: bool): bv8 {
    if bit then 0 else 0xff
  }

  lemma SkippedByte(b: bv8, bit: bool, r: nat)
    requires r < 8 && b == Skip(bit)
    ensures Digit(b, r) != bit
  {
    MaskIsDigit(b, r);
  }

  lemma OtherByte(b: bv8, bit: bool) returns (r: nat)
    requires b != Skip(bit)
    ensures r < 8 && Digit(b, r) == bit
  {
    r := if BitOf(b, 0) == bit then 0 else if BitOf(b, 1) == bit then 1 else if BitOf(b, 2) == bit then 2
         else if BitOf(b, 3) == bit then 3 else if BitOf(b, 4) == bit then 4 else if BitOf(b, 5) == bit then 5
         else if BitOf(b, 6) == bit then 6 else 7;
    MaskIsDigit(b, r);
  }

  /** The first n bytes are of the kind to be skipped. */
  ghost predicate Skipped(s: seq<bv8>, bit: bool, n: nat) {
    n <= |s| && forall k :: 0 <= k < n ==> s[k] == Skip(bit)
  }

  /** A byte that cannot be skipped. */
  predicate Stops(s: seq<bv8>, bit: bool, k: nat) {
    k < |s| && s[k] != Skip(bit)
  }

  lemma SkippedBits(s: seq<bv8>, bit: bool, n: nat)
    requires Skipped(s, bit, n)
    ensures NoneBefore(s, bit, 8 * n)
  {
    forall i: nat | i < 8 * n && i < 8 * |s|
      ensures BitAt(s, i) != bit
    {
      SkippedByte(s[i / 8], bit, i % 8);
    }
  }

  // --- the last word --------------------------------------------------------------------------

  /** The eight bytes from i on, zeros after the end. */
  function Window(s: seq<bv8>, i: nat): (w: seq<bv8>)
    ensures |w| == 8
  {
    seq(8, k requires 0 <= k < 8 => if i + k < |s| then s[i + k] else 0)
  }

  lemma {:induction false} BitOfField(p: seq<bv8>, o: nat, bits: nat, k: nat)
    requires o + bits <= 8 * |p| && k < bits
    ensures Right(Field(p, o, bits), k) % 2 == 1 <==> BitAt(p, o + bits - 1 - k)
    decreases bits
  {
    var f := Field(p, o, bits);
    var c := if BitAt(p, o + bits - 1) then 1 else 0;
    RightOfDouble(Field(p, o, bits - 1), c, f, k);
    if k > 0 {
      BitOfField(p, o, bits - 1, k - 1);
    }
  }

  lemma RightOfDouble(g: nat, c: nat, f: nat, k: nat)
    requires c < 2 && f == 2 * g + c
    ensures if k == 0 then Right(f, k) % 2 == c else Right(f, k) == Right(g, k - 1)
  {
    assert f / 2 == g;
  }

  /** Lines 147-154: the bytes left, the first one most significant */
  method LoadWord(s: seq<bv8>, i: nat) returns (word: nat)
    requires i <= |s|
    ensures word == Field(Window(s, i), 0, 64) == BigEndian(Window(s, i))
  {
    ghost var w := Window(s, i);
    word := 0;
    var j := 0;
    while j < 8
      invariant j <= 8 && |w| == 8 && word == Field(w, 0, 8 * j)
    {
      WindowByte(s, i, j, w);
      word := 256 * word;
      if i + j < |s| {
        word := word + s[i + j] as nat;
      }
      j := j + 1;
    }
    WholeField(w, 64);
  }

  lemma WindowByte(s: seq<bv8>, i: nat, j: nat, w: seq<bv8>)
    requires j < 8 && w == Window(s, i)
    ensures Field(w, 0, 8 * (j + 1)) == 256 * Field(w, 0, 8 * j) + if i + j < |s| then s[i + j] as nat else 0
  {
    FieldByte(w, j);
  }

  /** Lines 167-174: the word is scanned from its most significant bit on */
  method ScanWord(w: seq<bv8>, word: nat, bit: bool, from: nat) returns (pos: nat)
    requires |w| == 8 && word == Field(w, 0, 64) && exists j: nat :: j < 64 && BitAt(w, j) == bit
    ensures from <= pos < from + 64 && BitAt(w, pos - from) == bit
    ensures forall j: nat | j < pos - from :: BitAt(w, j) != bit
  {
    pos := from;
    var j := 0;
    while j < 64
      invariant j <= 64 && pos == from + j
      invariant forall i: nat | i < j :: BitAt(w, i) != bit
    {
      AndPow2(word, 63 - j);
      BitOfField(w, 0, 64, 63 - j);
      if (And(word, Pow2(63 - j)) != 0) == bit {
        return;
      }
      pos := pos + 1;
      j := j + 1;
    }
    assert false;
  }

  // --- the whole function ------------------------------------------------------------------------

  /** Lines 119-127: bytes are skipped up to an aligned address */
  method SkipBytes(s: seq<bv8>, addr: nat, bit: bool) returns (i: nat)
    ensures Skipped(s, bit, i)
  {
    i := 0;
    while (addr + i) % 8 != 0 && i < |s|
      invariant Skipped(s, bit, i)
      decreases |s| - i
    {
      if s[i] != Skip(bit) {
        break;
      }
      i := i + 1;
    }
  }

  /** Lines 130-137: whole words are skipped */
  method SkipWords(s: seq<bv8>, bit: bool, start: nat) returns (i: nat)
    requires Skipped(s, bit, start)
    ensures Skipped(s, bit, i)
    ensures |s| - i >= 8 ==> exists k: nat :: i <= k < i + 8 && Stops(s, bit, k)
  {
    i := start;
    while |s| - i >= 8
      invariant Skipped(s, bit, i)
      decreases |s| - i
    {
      if s[i..i + 8] != seq(8, _ => Skip(bit)) {
        ghost var w := s[i..i + 8];
        ghost var k :| 0 <= k < 8 && w[k] != Skip(bit);
        assert Stops(s, bit, i + k);
        break;
      }
      forall k | i <= k < i + 8
        ensures s[k] == Skip(bit)
      {
        assert s[k] == s[i..i + 8][k - i];
      }
      i := i + 8;
    }
  }

  lemma WindowBit(s: seq<bv8>, i: nat, j: nat)
    requires j < 64
    ensures 8 * i + j < 8 * |s| ==> BitAt(Window(s, i), j) == BitAt(s, 8 * i + j)
    ensures 8 * i + j >= 8 * |s| ==> !BitAt(Window(s, i), j)
  {
    assert (8 * i + j) / 8 == i + j / 8 && (8 * i + j) % 8 == j % 8;
    MaskIsDigit(0, j % 8);
  }

  /** In the last word there is a bit to be found, unless a one is sought and nothing but zeros are left. */
  lemma WindowHasBit(s: seq<bv8>, i: nat, bit: bool)
    requires i <= |s| && (|s| - i >= 8 ==> exists k: nat :: i <= k < i + 8 && Stops(s, bit, k))
    ensures (exists j: nat :: j < 64 && BitAt(Window(s, i), j) == bit) || (bit && Skipped(s[i..], bit, |s| - i))
  {
    var w := Window(s, i);
    if k: nat :| i <= k < i + 8 && Stops(s, bit, k) {
      var r := OtherByte(w[k - i], bit);
      assert BitAt(w, 8 * (k - i) + r) == bit by {
        assert (8 * (k - i) + r) / 8 == k - i && (8 * (k - i) + r) % 8 == r;
      }
    } else if !bit {
      WindowBit(s, i, 63);
      assert !BitAt(w, 63);
    } else {
      forall k | 0 <= k < |s| - i
        ensures s[i..][k] == Skip(bit)
      {
        assert !Stops(s, bit, i + k);
      }
    }
  }

  lemma SkippedAll(s: seq<bv8>, bit: bool, i: nat)
    requires Skipped(s, bit, i) && Skipped(s[i..], bit, |s| - i)
    ensures Skipped(s, bit, |s|)
  {
    forall k | i <= k < |s|
      ensures s[k] == Skip(bit)
    {
      assert s[k] == s[i..][k - i];
    }
  }

  lemma FoundInWindow(s: seq<bv8>, bit: bool, i: nat, pos: nat)
    requires Skipped(s, bit, i) && 8 * i <= pos < 8 * i + 64 && BitAt(Window(s, i), pos - 8 * i) == bit
    requires forall j: nat | j < pos - 8 * i :: BitAt(Window(s, i), j) != bit
    ensures IsFirst(s, bit, pos)
  {
    SkippedBits(s, bit, i);
    WindowBit(s, i, pos - 8 * i);
    forall k: nat | k < pos && k < 8 * |s|
      ensures BitAt(s, k) != bit
    {
      if k >= 8 * i {
        WindowBit(s, i, k - 8 * i);
      }
    }
    if pos > 8 * |s| {
      WindowBit(s, i, 8 * |s| - 8 * i);
    }
  }

  lemma ZeroWord(w: seq<bv8>)
    requires |w| == 8
    ensures Field(w, 0, 64) == 0 <==> !exists j: nat :: j < 64 && BitAt(w, j)
  {
    ZeroField(w, 64);
  }

  lemma {:induction false} ZeroField(w: seq<bv8>, bits: nat)
    requires bits <= 8 * |w|
    ensures Field(w, 0, bits) == 0 <==> !exists j: nat :: j < bits && BitAt(w, j)
  {
    if bits > 0 {
      ZeroField(w, bits - 1);
      if j: nat :| j < bits && BitAt(w, j) {
        assert j == bits - 1 || j < bits - 1;
      }
    }
  }

  /** redisBitpos, for a string at any address */
  method BitPosition(s: seq<bv8>, addr: nat, bit: bool) returns (pos: int)
    ensures IsFirst(s, bit, pos)
  {
    var i := SkipBytes(s, addr, bit);
    i := SkipWords(s, bit, i);
    var word := LoadWord(s, i);
    WindowHasBit(s, i, bit);
    ZeroWord(Window(s, i));
    if bit && word == 0 {
      NothingFound(s, i);
      return -1;
    }
    pos := ScanWord(Window(s, i), word, bit, 8 * i);
    FoundInWindow(s, bit, i, pos);
  }

  lemma NothingFound(s: seq<bv8>, i: nat)
    requires Skipped(s, true, i) && Skipped(s[i..], true, |s| - i)
    ensures IsFirst(s, true, -1)
  {
    SkippedAll(s, true, i);
    SkippedBits(s, true, |s|);
  }
}
