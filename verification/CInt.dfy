/** C's int and unsigned int, of 32 bits, and long, of 64: two's complement. */
module CInt {
  const INT_MAX: nat := 0x7fff_ffff
  const UINT_MAX: nat := 0xffff_ffff
  const LONG_MAX: nat := 0x7fff_ffff_ffff_ffff

  type Unsigned = n: nat | n <= UINT_MAX

  /** What a wider number becomes when it is cast to int */
  function Int32(n: int): (r: int)
    ensures 0 - INT_MAX - 1 <= r <= INT_MAX && (0 - INT_MAX - 1 <= n <= INT_MAX ==> r == n)
  {
    var m := n % 0x1_0000_0000;
    if m <= INT_MAX then m else m - 0x1_0000_0000
  }

  /** The same for long */
  function Int64(n: int): (r: int)
    ensures 0 - LONG_MAX - 1 <= r <= LONG_MAX && (0 - LONG_MAX - 1 <= n <= LONG_MAX ==> r == n)
  {
    var m := n % 0x1_0000_0000_0000_0000;
    if m <= LONG_MAX then m else m - 0x1_0000_0000_0000_0000
  }
}
