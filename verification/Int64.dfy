/** Two's complement 64-bit arithmetic on mathematical integers. */
module Int64 {
  const MODULUS := 0x1_0000_0000_0000_0000
  const MAX := 0x7FFF_FFFF_FFFF_FFFF
  const MIN := -0x8000_0000_0000_0000

  predicate Fits(x: int) {
    MIN <= x <= MAX
  }

  /** The value an int64 holds after an operation whose exact result is `x`. */
  function Wrap(x: int): (r: int)
    ensures Fits(r)
    ensures Fits(x) ==> r == x
  {
    (x - MIN) % MODULUS + MIN
  }

  /** Integer division that truncates toward zero. */
  function Quotient(a: int, b: int): int
    requires b != 0
  {
    if a >= 0 then a / b else -((-a) / b)
  }
}
