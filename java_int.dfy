// Java's fixed-width integers over Dafny's unbounded ones: the ranges, the
// two's-complement wrap of int arithmetic, and division and remainder that
// truncate toward zero (Dafny's own `/` and `%` are Euclidean).
module JavaInt {
  const INT_MIN: int := -0x8000_0000
  const INT_MAX: int := 0x7fff_ffff
  const LONG_MIN: int := -0x8000_0000_0000_0000
  const LONG_MAX: int := 0x7fff_ffff_ffff_ffff

  predicate IsInt(x: int) { INT_MIN <= x <= INT_MAX }
  predicate IsLong(x: int) { LONG_MIN <= x <= LONG_MAX }

  function Abs(x: int): nat
  {
    if x < 0 then -x else x
  }

  /** Java `a / b`: the quotient of the magnitudes, signed, so it rounds toward zero. */
  function JDiv(a: int, b: int): int
    requires b != 0
  {
    if (a < 0) == (b < 0) then Abs(a) / Abs(b) else -(Abs(a) / Abs(b))
  }

  /** Java `a % b`: what is left after `JDiv`, so it takes the sign of the dividend. */
  function JRem(a: int, b: int): int
    requires b != 0
  {
    a - JDiv(a, b) * b
  }

  /** The 32-bit two's-complement value of `x`, as Java int arithmetic gives it. */
  function WrapInt(x: int): (r: int)
    ensures IsInt(r)
    ensures (r - x) % 0x1_0000_0000 == 0
    ensures IsInt(x) ==> r == x
  {
    (x - INT_MIN) % 0x1_0000_0000 + INT_MIN
  }

  /** A Java `long` result: `x` wrapped to 64 bits, two's complement. */
  function WrapLong(x: int): (r: int)
    ensures IsLong(r)
    ensures (r - x) % 0x1_0000_0000_0000_0000 == 0
    ensures IsLong(x) ==> r == x
  {
    (x - LONG_MIN) % 0x1_0000_0000_0000_0000 + LONG_MIN
  }
}
