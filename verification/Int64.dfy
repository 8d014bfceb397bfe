/**
  Go's 64-bit signed integers: the range, and the wrap-around that `+`, `-` and `*` perform silently.
 */
module Int64 {
  const MAX_INT64: int := 0x7FFF_FFFF_FFFF_FFFF
  const MIN_INT64: int := -0x8000_0000_0000_0000
  const TWO_TO_64: int := 0x1_0000_0000_0000_0000

  type int64 = x: int | MIN_INT64 <= x <= MAX_INT64

  predicate Fits(x: int) {
    MIN_INT64 <= x <= MAX_INT64
  }

  /** The int64 that two's-complement arithmetic leaves for the mathematical result `x`. */
  function Wrap(x: int): (r: int64)
    ensures Fits(x) ==> r == x
    ensures (x - r) % TWO_TO_64 == 0
    ensures MAX_INT64 < x <= MAX_INT64 + TWO_TO_64 ==> r == x - TWO_TO_64
    ensures MIN_INT64 - TWO_TO_64 <= x < MIN_INT64 ==> r == x + TWO_TO_64
  {
    (x - MIN_INT64) % TWO_TO_64 + MIN_INT64
  }

  /** Go's `/`: the quotient truncated toward zero. */
  function Quo(a: int, b: int): (q: int)
    requires b != 0
  {
    if a >= 0 then a / b else -(-a / b)
  }

  /** Go's `%`: the remainder takes the sign of the dividend. */
  function Rem(a: int, b: int): (r: int)
    requires b != 0
  {
    if a >= 0 then a % b else -(-a % b)
  }
}
