/** Java's 64-bit signed `long`, modelled on unbounded integers with
    two's-complement wrap-around written out explicitly. */
module Int64 {

  const MIN: int := -0x8000_0000_0000_0000
  const MAX: int := 0x7FFF_FFFF_FFFF_FFFF
  /** 2^64, the number of distinct `long` values. */
  const MODULUS: int := 0x1_0000_0000_0000_0000

  type Long = x: int | MIN <= x <= MAX

  predicate InRange(x: int) {
    MIN <= x <= MAX
  }

  /** The exact results one Java `+` or `-` of two longs can have: they are at
      most one turn of 2^64 away from the long range. */
  predicate OneTurn(x: int) {
    MIN - MODULUS <= x <= MAX + MODULUS
  }

  /** The `long` that Java's arithmetic yields for the exact result `x`. */
  function Wrap(x: int): (r: Long)
    requires OneTurn(x)
    ensures InRange(x) <==> r == x
    ensures r == x || r == x - MODULUS || r == x + MODULUS
  {
    if x > MAX then x - MODULUS else if x < MIN then x + MODULUS else x
  }

  /** Java's `a + b` on two longs. */
  function Add(a: Long, b: Long): Long {
    Wrap(a + b)
  }

  /** Java's `a - b` on two longs. */
  function Sub(a: Long, b: Long): Long {
    Wrap(a - b)
  }
}
