/** Fixed-width integer ranges and two's-complement wrap-around of Kotlin's `Int`, `Long` and `Char`. */
module Ints {
  const INT_MIN: int := -0x8000_0000
  const INT_MAX: int := 0x7fff_ffff
  const LONG_MIN: int := -0x8000_0000_0000_0000
  const LONG_MAX: int := 0x7fff_ffff_ffff_ffff
  const CHAR_MIN: int := 0
  const CHAR_MAX: int := 0xffff
  const BYTE_MIN: int := -0x80
  const BYTE_MAX: int := 0x7f
  const SHORT_MIN: int := -0x8000
  const SHORT_MAX: int := 0x7fff
  const TWO_16: int := 0x1_0000
  const TWO_32: int := 0x1_0000_0000
  const TWO_64: int := 0x1_0000_0000_0000_0000

  predicate IsInt(x: int) { INT_MIN <= x <= INT_MAX }
  predicate IsLong(x: int) { LONG_MIN <= x <= LONG_MAX }

  /** The 32-bit result of an `Int` operation whose exact value is `x`. */
  function WrapInt(x: int): (r: int)
    ensures IsInt(r)
    ensures (r - x) % TWO_32 == 0
    ensures IsInt(x) ==> r == x
  {
    (x - INT_MIN) % TWO_32 + INT_MIN
  }

  /** The 64-bit result of a `Long` operation whose exact value is `x`. */
  function WrapLong(x: int): (r: int)
    ensures IsLong(r)
    ensures (r - x) % TWO_64 == 0
    ensures IsLong(x) ==> r == x
  {
    (x - LONG_MIN) % TWO_64 + LONG_MIN
  }

  /** The 16-bit unsigned result of a `Char` operation whose exact code is `x`. */
  function WrapChar(x: int): (r: int)
    ensures CHAR_MIN <= r <= CHAR_MAX
    ensures (r - x) % TWO_16 == 0
    ensures CHAR_MIN <= x <= CHAR_MAX ==> r == x
  {
    x % TWO_16
  }
}
