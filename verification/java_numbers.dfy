/**
  A Java `double` and the `(int)` narrowing cast of section 5.1.3 of the
  Java Language Specification: NaN becomes 0, a finite value is rounded
  toward zero, and anything outside the 32-bit range saturates at
  `Integer.MIN_VALUE` or `Integer.MAX_VALUE`.
 */
module JavaNumbers {

  const IntMinValue: int := -0x8000_0000
  const IntMaxValue: int := 0x7FFF_FFFF

  /** A `double`; finite values are kept as exact reals (rounding to 53 bits is not modelled). */
  datatype Double = Finite(value: real) | NaN | PositiveInfinity | NegativeInfinity

  /** Rounding toward zero, as Java does for a cast and C, Go and Rust do for integer division. */
  function TruncateTowardZero(x: real): (n: int)
    ensures 0.0 <= x ==> n as real <= x < n as real + 1.0
    ensures x < 0.0 ==> n as real - 1.0 < x <= n as real
  {
    if x >= 0.0 then x.Floor else -((-x).Floor)
  }

  /** The nearest 32-bit value to `n`. */
  function ClampToInt(n: int): int
  {
    if n < IntMinValue then IntMinValue else if IntMaxValue < n then IntMaxValue else n
  }

  /** `(int) d`. */
  function IntCast(d: Double): (n: int)
    ensures IntMinValue <= n <= IntMaxValue
    ensures d.NaN? ==> n == 0
    ensures d.PositiveInfinity? ==> n == IntMaxValue
    ensures d.NegativeInfinity? ==> n == IntMinValue
    ensures d.Finite? && 0.0 <= d.value ==> n as real <= d.value && (n == IntMaxValue || d.value < n as real + 1.0)
    ensures d.Finite? && d.value < 0.0 ==> d.value <= n as real && (n == IntMinValue || n as real - 1.0 < d.value)
  {
    match d
    case Finite(x) => ClampToInt(TruncateTowardZero(x))
    case NaN => 0
    case PositiveInfinity => IntMaxValue
    case NegativeInfinity => IntMinValue
  }
}
