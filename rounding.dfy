/** Rounding to two decimals, the way `Number.prototype.toFixed(2)` followed by unary `+`
    turns a price back into a number. Prices are exact reals here; binary floating point
    is not modelled. */
module Rounding {

  /** The number of cents `toFixed(2)` prints for `x`: the integer `n` with `n / 100` closest
      to `x`, the larger magnitude on a tie (half away from zero, since `toFixed` rounds the
      magnitude and then prepends the sign). */
  function Cents(x: real): (n: int)
    ensures x >= 0.0 ==> n >= 0 && x * 100.0 - 0.5 < n as real <= x * 100.0 + 0.5
    ensures x < 0.0 ==> n <= 0 && x * 100.0 - 0.5 <= n as real < x * 100.0 + 0.5
  {
    if x >= 0.0 then (x * 100.0 + 0.5).Floor else -((-x) * 100.0 + 0.5).Floor
  }

  /** `+x.toFixed(2)`: `x` rounded to a whole number of cents. */
  function Round2(x: real): (r: real)
    ensures x - 0.005 <= r <= x + 0.005
    ensures (x >= 0.0 ==> r >= 0.0) && (x <= 0.0 ==> r <= 0.0)
  {
    Cents(x) as real / 100.0
  }

  /** A value that is already a whole number of cents. */
  predicate IsRounded(x: real) {
    Round2(x) == x
  }

  /** Rounding never reverses the order of two values. */
  lemma Round2Monotone(x: real, y: real)
    requires x <= y
    ensures Round2(x) <= Round2(y)
  {
    if x >= 0.0 {
      assert (x * 100.0 + 0.5).Floor <= (y * 100.0 + 0.5).Floor;
    } else if y < 0.0 {
      assert ((-y) * 100.0 + 0.5).Floor <= ((-x) * 100.0 + 0.5).Floor;
    }
  }

  /** Rounding a rounded value changes nothing: every result of `Round2` is a whole number
      of cents. */
  lemma Round2Idempotent(x: real)
    ensures IsRounded(Round2(x))
  {
    var n := Cents(x);
    var r := Round2(x);
    assert r * 100.0 == n as real;
    if n >= 0 {
      assert (r * 100.0 + 0.5).Floor == n;
    } else {
      assert ((-r) * 100.0 + 0.5).Floor == -n;
    }
  }
}
