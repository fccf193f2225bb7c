/**
 * The parts of Java's numeric semantics the drowning system depends on:
 * the ranges of `int` and `long` and the `(int)` cast of a float.
 * Float values themselves are modelled as exact reals.
 */
module JavaNumerics {
  const INT_MIN: int := -0x8000_0000
  const INT_MAX: int := 0x7fff_ffff
  const LONG_MIN: int := -0x8000_0000_0000_0000
  const LONG_MAX: int := 0x7fff_ffff_ffff_ffff

  /** A value a Java `long` can hold, such as the game time in milliseconds. */
  type Long = x: int | LONG_MIN <= x <= LONG_MAX

  /**
   * Java's `(int)` cast of a finite float: rounds toward zero and
   * saturates at the bounds of `int`.
   */
  function IntCast(x: real): (r: int)
    ensures INT_MIN <= r <= INT_MAX
    ensures 0.0 <= x ==> 0 <= r && r as real <= x && (r == INT_MAX || x < r as real + 1.0)
    ensures x <= 0.0 ==> r <= 0 && x <= r as real && (r == INT_MIN || r as real - 1.0 < x)
  {
    if x >= INT_MAX as real then INT_MAX
    else if x <= INT_MIN as real then INT_MIN
    else if x >= 0.0 then x.Floor
    else -((-x).Floor)
  }

  /**
   * `(int) (x / scale)` in Java float arithmetic. Dividing by zero gives
   * +Infinity, -Infinity or NaN, which the cast turns into `INT_MAX`,
   * `INT_MIN` and 0.
   */
  function IntCastQuotient(x: real, scale: real): (r: int)
    ensures INT_MIN <= r <= INT_MAX
    ensures 0.0 <= x && 0.0 <= scale ==> 0 <= r
    ensures 0.0 <= x && 0.0 < scale ==>
              r as real <= x / scale && (r == INT_MAX || x / scale < r as real + 1.0)
    ensures scale == 0.0 ==> r == (if x > 0.0 then INT_MAX else if x < 0.0 then INT_MIN else 0)
  {
    if scale != 0.0 then IntCast(x / scale)
    else if x > 0.0 then INT_MAX
    else if x < 0.0 then INT_MIN
    else 0
  }

  /** An integer in the range of `int` survives the cast unchanged. */
  lemma IntCastOfInt(n: int)
    requires INT_MIN <= n <= INT_MAX
    ensures IntCast(n as real) == n
  {
  }
}
