/**
 * Numeric conversions the source performs on Python floats, stated over exact
 * reals: `round()` (ties to even), `int()` on a float (truncation toward zero)
 * and the `max(0.0, min(1.0, x))` clamp.
 */
module Numeric {

  /** Python's `round(x)` to an integer: nearest integer, ties to the even one. */
  function RoundHalfEven(x: real): (k: int)
    ensures x - k as real <= 0.5 && k as real - x <= 0.5
    ensures (x - k as real == 0.5 || k as real - x == 0.5) ==> k % 2 == 0
  {
    var f := x.Floor;
    var d := x - f as real;
    if d < 0.5 then f
    else if d > 0.5 then f + 1
    else if f % 2 == 0 then f
    else f + 1
  }

  /** The two properties of `RoundHalfEven` single out one integer. */
  lemma RoundHalfEvenUnique(x: real, k: int)
    requires x - k as real <= 0.5 && k as real - x <= 0.5
    requires (x - k as real == 0.5 || k as real - x == 0.5) ==> k % 2 == 0
    ensures k == RoundHalfEven(x)
  {
  }

  /** `max(0.0, min(1.0, x))`. */
  function Clamp01(x: real): (r: real)
    ensures 0.0 <= r <= 1.0
    ensures 0.0 <= x <= 1.0 ==> r == x
    ensures x < 0.0 ==> r == 0.0
    ensures x > 1.0 ==> r == 1.0
  {
    if x < 0.0 then 0.0 else if x > 1.0 then 1.0 else x
  }

  /** Python's `int(x)` on a float: the integer part, truncated toward zero. */
  function Truncate(x: real): (k: int)
    ensures x >= 0.0 ==> k as real <= x < k as real + 1.0
    ensures x < 0.0 ==> k as real - 1.0 < x <= k as real
  {
    if x >= 0.0 then x.Floor else -((-x).Floor)
  }
}
