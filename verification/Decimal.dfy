/**
  Decimal numbers as the text of the log and of the cluster configuration holds them:
  what ll2string writes (project/network/redis/redis-3.2/src/util.c), and so does printf's
  %d, and what the C library's atoi and strtol read back.  Bytes are characters.
*/
module Decimal {
  import opened CInt

  predicate IsDigit(c: char) {
    '0' <= c <= '9'
  }

  predicate AllDigits(s: string) {
    forall i :: 0 <= i < |s| ==> IsDigit(s[i])
  }

  function Show(n: nat): (s: string)
    ensures |s| > 0 && AllDigits(s)
  {
    (if n < 10 then [] else Show(n / 10)) + ['0' + (n % 10) as char]
  }

  // The value of a string of digits read after those worth `acc`.
  function Continue(acc: nat, s: string): nat
    decreases |s|
  {
    if s != [] && IsDigit(s[0]) then Continue(10 * acc + (s[0] - '0') as nat, s[1..]) else acc
  }

  predicate IsSpace(c: char) {
    c == ' ' || '\t' <= c <= '\r'
  }

  /** The number at the beginning of a string: blanks, a sign, digits, up to the first other character */
  function Read(s: string): int
    decreases |s|
  {
    if s == [] then 0
    else if IsSpace(s[0]) then Read(s[1..])
    else if s[0] == '-' then 0 - Continue(0, s[1..])
    else if s[0] == '+' then Continue(0, s[1..])
    else Continue(0, s)
  }

  /** strtol with base 10: a number out of range becomes the nearest one within. */
  function Strtol(s: string): (r: int)
    ensures 0 - LONG_MAX - 1 <= r <= LONG_MAX && (0 - LONG_MAX - 1 <= Read(s) <= LONG_MAX ==> r == Read(s))
  {
    var n := Read(s);
    if n > LONG_MAX then LONG_MAX else if n < 0 - LONG_MAX - 1 then 0 - LONG_MAX - 1 else n
  }

  /** atoi, which is strtol cast to int */
  function Atoi(s: string): (r: int)
    ensures 0 - INT_MAX - 1 <= Read(s) <= INT_MAX ==> r == Read(s)
  {
    Int32(Strtol(s))
  }

  /** The characters that can follow a number without being taken for a part of it. */
  predicate Ends(rest: string) {
    rest != [] ==> !IsDigit(rest[0])
  }

  lemma {:induction false} ContinueShow(n: nat, rest: string)
    requires Ends(rest)
    ensures Continue(0, Show(n) + rest) == n
  {
    ContinueAppend(n, rest);
  }

  lemma {:induction false} ContinueAppend(n: nat, rest: string)
    ensures Continue(0, Show(n) + rest) == Continue(n, rest)
  {
    var last := ['0' + (n % 10) as char];
    if n < 10 {
      assert (Show(n) + rest)[1..] == rest;
    } else {
      assert Show(n) + rest == Show(n / 10) + (last + rest);
      ContinueAppend(n / 10, last + rest);
      assert (last + rest)[1..] == rest;
    }
  }

  /** Reading back what was written gives the number, whatever follows it. */
  lemma ReadShow(n: nat, rest: string)
    requires Ends(rest)
    ensures Read(Show(n) + rest) == n
  {
    ContinueShow(n, rest);
    assert IsDigit((Show(n) + rest)[0]);
  }

  predicate AllBlank(s: string) {
    forall i :: 0 <= i < |s| ==> IsSpace(s[i])
  }

  /** Blanks before a number and a sign are allowed. */
  lemma {:induction false} ReadSigned(blanks: string, n: nat, rest: string)
    requires AllBlank(blanks) && Ends(rest)
    ensures Read(blanks + (Show(n) + rest)) == Read(blanks + ("+" + (Show(n) + rest))) == n
    ensures Read(blanks + ("-" + (Show(n) + rest))) == 0 - n
  {
    var t := Show(n) + rest;
    if blanks == [] {
      assert blanks + t == t && blanks + ("+" + t) == "+" + t && blanks + ("-" + t) == "-" + t;
      assert ("+" + t)[1..] == t && ("-" + t)[1..] == t;
      ReadShow(n, rest);
      ContinueShow(n, rest);
    } else {
      ReadSigned(blanks[1..], n, rest);
      SkipBlank(blanks, t);
      SkipBlank(blanks, "+" + t);
      SkipBlank(blanks, "-" + t);
    }
  }

  lemma SkipBlank(blanks: string, t: string)
    requires blanks != [] && IsSpace(blanks[0])
    ensures Read(blanks + t) == Read(blanks[1..] + t)
  {
    assert (blanks + t)[1..] == blanks[1..] + t;
  }

  /** Without a number there is 0; anything but a digit ends one. */
  lemma ReadNothing(s: string)
    requires s == [] || !(IsDigit(s[0]) || IsSpace(s[0]) || s[0] == '-' || s[0] == '+')
    ensures Read(s) == 0
  {
  }

  /** Numbers out of range: strtol stops at the ends, atoi keeps the low 32 bits. */
  lemma OutOfRange(n: nat, rest: string)
    requires Ends(rest) && n > LONG_MAX
    ensures Strtol(Show(n) + rest) == 9223372036854775807 && Atoi(Show(n) + rest) == -1
    ensures Strtol("-" + (Show(n + 1) + rest)) == -9223372036854775808
  {
    ReadSigned("", n, rest);
    ReadSigned("", n + 1, rest);
    assert "" + (Show(n) + rest) == Show(n) + rest && "" + ("-" + (Show(n + 1) + rest)) == "-" + (Show(n + 1) + rest);
  }

  /** A proper, non-empty prefix of a positive number still reads as a positive number, no greater. */
  lemma {:induction false} ReadPrefix(n: nat, k: nat)
    requires n > 0 && 0 < k <= |Show(n)|
    ensures 0 < Read(Show(n)[..k]) <= n
  {
    if k == |Show(n)| {
      assert Show(n)[..k] == Show(n) + [];
      ReadShow(n, []);
    } else {
      assert n >= 10;
      assert Show(n)[..k] == Show(n / 10)[..k];
      ReadPrefix(n / 10, k);
    }
  }

  lemma {:induction false} ShowLength(n: nat, bound: nat, d: nat)
    requires n < bound && bound <= Power(d) && d > 0
    ensures |Show(n)| <= d
  {
    if n >= 10 {
      if d > 1 {
        ShowLength(n / 10, Power(d - 1), d - 1);
      }
    }
  }

  function Power(d: nat): nat {
    if d == 0 then 1 else 10 * Power(d - 1)
  }

  // --- ll2string -------------------------------------------------------------------------

  /** The decimal form of any integer */
  function ShowInt(n: int): (s: string)
    ensures |s| > 0
  {
    if n < 0 then "-" + Show(-n) else Show(n)
  }

  lemma ReadShowInt(n: int, rest: string)
    requires Ends(rest)
    ensures Read(ShowInt(n) + rest) == n
  {
    if n < 0 {
      ContinueShow(-n, rest);
      ReadMinus(Show(-n) + rest);
      Regroup("-", Show(-n), rest);
    } else {
      ReadShow(n, rest);
    }
  }

  lemma ReadMinus(s: string)
    ensures Read("-" + s) == 0 - Continue(0, s)
  {
    assert ("-" + s)[1..] == s;
  }

  /** digits10: comparisons up to twelve digits, then a division */
  function Digits10(v: nat): (d: nat)
    ensures d > 0
  {
    if v < 10 then 1
    else if v < 100 then 2
    else if v < 1000 then 3
    else if v < 1000000000000 then
      if v < 100000000 then
        if v < 1000000 then
          if v < 10000 then 4 else 5 + (if v >= 100000 then 1 else 0)
        else 7 + (if v >= 10000000 then 1 else 0)
      else if v < 10000000000 then 9 + (if v >= 1000000000 then 1 else 0)
      else 11 + (if v >= 100000000000 then 1 else 0)
    else 12 + Digits10(v / 1000000000000)
  }

  lemma {:induction false} ShowBounds(n: nat, k: nat)
    requires k > 0
    ensures n < Power(k) <==> |Show(n)| <= k
  {
    if n >= 10 && k > 1 {
      ShowBounds(n / 10, k - 1);
      Tenth(n, Power(k - 1));
    } else if n < 10 {
      PowerPositive(k - 1);
    }
  }

  lemma Tenth(n: nat, p: nat)
    ensures n < 10 * p <==> n / 10 < p
  {
  }

  lemma {:induction false} PowerPositive(k: nat)
    ensures Power(k) > 0
  {
    if k > 0 {
      PowerPositive(k - 1);
    }
  }

  /** Four digits less */
  lemma ShowDrops(n: nat)
    requires n >= 10000
    ensures |Show(n)| == 4 + |Show(n / 10000)|
  {
    assert n / 10 / 10 == n / 100 && n / 100 / 10 == n / 1000 && n / 1000 / 10 == n / 10000;
    assert |Show(n)| == 1 + |Show(n / 10)| && |Show(n / 10)| == 1 + |Show(n / 100)|;
    assert |Show(n / 100)| == 1 + |Show(n / 1000)|;
  }

  /** The digits are counted right. */
  lemma {:induction false} Digits10IsLength(v: nat)
    ensures Digits10(v) == |Show(v)|
  {
    assert Power(0) == 1 && Power(1) == 10 && Power(2) == 100 && Power(3) == 1000;
    assert Power(4) == 10000 && Power(5) == 100000 && Power(6) == 1000000 && Power(7) == 10000000;
    assert Power(8) == 100000000 && Power(9) == 1000000000 && Power(10) == 10000000000;
    assert Power(11) == 100000000000 && Power(12) == 1000000000000;
    if v >= 1000000000000 {
      ShowDrops(v);
      ShowDrops(v / 10000);
      ShowDrops(v / 100000000);
      assert v / 10000 / 10000 == v / 100000000 && v / 100000000 / 10000 == v / 1000000000000;
      Digits10IsLength(v / 1000000000000);
    } else if v >= 10 {
      DigitsBetween(v, Digits10(v));
    }
  }

  lemma DigitsBetween(v: nat, d: nat)
    requires d > 1 && Power(d - 1) <= v < Power(d)
    ensures |Show(v)| == d
  {
    ShowBounds(v, d);
    ShowBounds(v, d - 1);
  }

  // The table of two-digit numbers, in ten rows
  function Row(t: nat): (r: string)
    requires t < 10
    ensures |r| == 20
  {
    match t
    case 0 => "00010203040506070809"
    case 1 => "10111213141516171819"
    case 2 => "20212223242526272829"
    case 3 => "30313233343536373839"
    case 4 => "40414243444546474849"
    case 5 => "50515253545556575859"
    case 6 => "60616263646566676869"
    case 7 => "70717273747576777879"
    case 8 => "80818283848586878889"
    case _ => "90919293949596979899"
  }

  function Digit(i: nat): char
    requires i < 200
  {
    Row(i / 20)[i % 20]
  }

  lemma RowAt(t: nat, u: nat)
    requires t < 10 && u < 10
    ensures Row(t)[2 * u] == '0' + t as char && Row(t)[2 * u + 1] == '0' + u as char
  {
    match t
    case 0 => Spread("00010203040506070809", '0', u);
    case 1 => Spread("10111213141516171819", '1', u);
    case 2 => Spread("20212223242526272829", '2', u);
    case 3 => Spread("30313233343536373839", '3', u);
    case 4 => Spread("40414243444546474849", '4', u);
    case 5 => Spread("50515253545556575859", '5', u);
    case 6 => Spread("60616263646566676869", '6', u);
    case 7 => Spread("70717273747576777879", '7', u);
    case 8 => Spread("80818283848586878889", '8', u);
    case 9 => Spread("90919293949596979899", '9', u);
  }

  lemma Spread(r: string, c: char, u: nat)
    requires r == [c, '0', c, '1', c, '2', c, '3', c, '4', c, '5', c, '6', c, '7', c, '8', c, '9'] && u < 10
    ensures r[2 * u] == c && r[2 * u + 1] == '0' + u as char
  {
    match u
    case 0 => case 1 => case 2 => case 3 => case 4 => case 5 => case 6 => case 7 => case 8 => case 9 =>
  }

  lemma PairAt(v: nat)
    requires v < 100
    ensures Digit(2 * v) == '0' + (v / 10) as char && Digit(2 * v + 1) == '0' + (v % 10) as char
  {
    RowAt(v / 10, v % 10);
    assert 2 * v / 20 == v / 10 && 2 * v % 20 == 2 * (v % 10);
    assert (2 * v + 1) / 20 == v / 10 && (2 * v + 1) % 20 == 2 * (v % 10) + 1;
  }

  function Two(v: nat): (s: string)
    requires v < 100
    ensures |s| == 2
  {
    ['0' + (v / 10) as char, '0' + (v % 10) as char]
  }

  /** The last two digits are those of the remainder by 100. */
  lemma LastTwo(v: nat)
    requires v >= 10
    ensures Show(v) == (if v < 100 then [] else Show(v / 100)) + Two(v % 100)
  {
    assert v / 10 / 10 == v / 100 && v / 10 % 10 == v % 100 / 10 && v % 100 % 10 == v % 10;
  }

  method WritePair(dst: array<char>, value: nat, next: nat, end: nat)
    requires value < 100 && 0 < next < end <= dst.Length
    modifies dst
    ensures dst[next - 1..end] == Two(value) + old(dst[next + 1..end])
    ensures forall k :: 0 <= k < dst.Length && k != next && k != next - 1 ==> dst[k] == old(dst[k])
  {
    PairAt(value);
    var i := value * 2;
    dst[next] := Digit(i + 1);
    dst[next - 1] := Digit(i);
    assert dst[next + 1..end] == old(dst[next + 1..end]);
  }

  lemma Regroup(a: string, b: string, c: string)
    ensures a + b + c == a + (b + c)
  {
  }

  /** A turn of the loop at line 316 */
  method WriteTurn(dst: array<char>, value: nat, start: nat, next: nat, end: nat)
    requires value >= 100 && next + 1 == start + |Show(value)| && next < end <= dst.Length
    modifies dst
    ensures |Show(value)| == 2 + |Show(value / 100)|
    ensures Show(value / 100) + dst[next - 1..end] == Show(value) + old(dst[next + 1..end])
    ensures forall k :: 0 <= k < dst.Length && !(start <= k < end) ==> dst[k] == old(dst[k])
  {
    LastTwo(value);
    WritePair(dst, value % 100, next, end);
    Regroup(Show(value / 100), Two(value % 100), old(dst[next + 1..end]));
  }

  /** Lines 325-331 */
  method WriteLast(dst: array<char>, value: nat, start: nat, next: nat, end: nat)
    requires value < 100 && next + 1 == start + |Show(value)| && next < end <= dst.Length
    modifies dst
    ensures dst[start..end] == Show(value) + old(dst[next + 1..end])
    ensures forall k :: 0 <= k < dst.Length && !(start <= k < end) ==> dst[k] == old(dst[k])
  {
    if value < 10 {
      OneDigit(value);
      WriteOne(dst, '0' + value as char, next, end);
    } else {
      TwoDigits(value);
      WritePair(dst, value, next, end);
    }
  }

  method WriteOne(dst: array<char>, c: char, next: nat, end: nat)
    requires next < end <= dst.Length
    modifies dst
    ensures dst[next..end] == [c] + old(dst[next + 1..end])
    ensures forall k :: 0 <= k < dst.Length && k != next ==> dst[k] == old(dst[k])
  {
    dst[next] := c;
    assert dst[next + 1..end] == old(dst[next + 1..end]);
  }

  lemma OneDigit(v: nat)
    requires v < 10
    ensures Show(v) == ['0' + v as char]
  {
  }

  lemma TwoDigits(v: nat)
    requires 10 <= v < 100
    ensures Show(v) == Two(v)
  {
    LastTwo(v);
  }

  /** Lines 316-331: the digits end at dst[end - 1] and are written two at a time, from the last on. */
  method WriteDigits(dst: array<char>, v: nat, start: nat, end: nat)
    requires end == start + |Show(v)| <= dst.Length
    modifies dst
    ensures dst[start..end] == Show(v)
    ensures forall k :: 0 <= k < dst.Length && !(start <= k < end) ==> dst[k] == old(dst[k])
  {
    ghost var all := Show(v);
    var value, next := v, end - 1;
    assert dst[end..end] == [];
    while value >= 100
      invariant next < end && next + 1 == start + |Show(value)|
      invariant all == Show(value) + dst[next + 1..end]
      invariant forall k :: 0 <= k < dst.Length && !(start <= k < end) ==> dst[k] == old(dst[k])
    {
      WriteTurn(dst, value, start, next, end);
      value := value / 100;
      next := next - 2;
    }
    WriteLast(dst, value, start, next, end);
  }

  /** ll2string: the decimal form and a final zero byte, or 0 and an unchanged buffer when there is no room */
  method LlToString(dst: array<char>, svalue: int) returns (length: nat)
    requires -0x8000_0000_0000_0000 <= svalue < 0x8000_0000_0000_0000
    modifies dst
    ensures length == if |ShowInt(svalue)| < dst.Length then |ShowInt(svalue)| else 0
    ensures length > 0 ==> dst[..length] == ShowInt(svalue) && dst[length] == '\0'
    ensures forall k :: (if length > 0 then length else -1) < k < dst.Length ==> dst[k] == old(dst[k])
  {
    var value: nat := if svalue < 0 then -svalue else svalue;
    var negative: nat := if svalue < 0 then 1 else 0;
    Digits10IsLength(value);
    length := Digits10(value) + negative;
    if length >= dst.Length {
      return 0;
    }
    dst[length] := '\0';
    WriteDigits(dst, value, negative, length);
    if negative == 1 {
      dst[0] := '-';
      assert dst[1..length] == Show(value);
    }
  }
}
