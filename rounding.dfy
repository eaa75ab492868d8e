/** `round(2)` as numpy applies it to a column: to two decimal places,
    halves going to the even neighbour. Values are exact reals here. */
module Rounding {

  /** Nearest integer to `x`, ties to the even one. */
  function RoundHalfEven(x: real): (n: int)
    ensures -1.0 / 2.0 <= n as real - x <= 1.0 / 2.0
    ensures n as real - x == 1.0 / 2.0 || n as real - x == -1.0 / 2.0 ==> n % 2 == 0
  {
    var f := x.Floor;
    var d := x - f as real;
    if d < 1.0 / 2.0 then f
    else if d > 1.0 / 2.0 then f + 1
    else if f % 2 == 0 then f
    else f + 1
  }

  /** `x` rounded to two decimal places: a whole number of cents, within
      half a cent of `x`, and on an exact half cent the even number of
      cents. */
  function Round2(x: real): (r: real)
    ensures -1.0 / 200.0 <= r - x <= 1.0 / 200.0
    ensures (r * 100.0).Floor as real == r * 100.0
    ensures r * 100.0 - x * 100.0 == 1.0 / 2.0 || r * 100.0 - x * 100.0 == -1.0 / 2.0 ==>
      (r * 100.0).Floor % 2 == 0
  {
    var n := RoundHalfEven(x * 100.0);
    assert (n as real / 100.0) * 100.0 == n as real;
    assert (n as real).Floor == n;
    n as real / 100.0
  }

  /** A value that already has at most two decimals is left alone. */
  lemma {:induction false} Round2Cents(c: int)
    ensures Round2(c as real / 100.0) == c as real / 100.0
  {
    var x := c as real / 100.0;
    assert x * 100.0 == c as real;
    assert (c as real).Floor == c;
  }

  /** Rounding is monotone: it never swaps the order of two values. */
  lemma Round2Monotone(x: real, y: real)
    requires x <= y
    ensures Round2(x) <= Round2(y)
  {
    var a, b := x * 100.0, y * 100.0;
    assert a <= b;
    assert a.Floor <= b.Floor;
  }

  /** A mean and a total, each rounded to two decimals, still agree: the
      rounded mean of `c` values times `c` is within (c + 1) half cents of
      the rounded total. */
  lemma RoundedMeanTimesCount(sum: real, c: int)
    requires c >= 1
    ensures -((c + 1) as real / 200.0) <= Round2(sum / c as real) * c as real - Round2(sum) <= (c + 1) as real / 200.0
  {
    var n := c as real;
    var a, t := Round2(sum / n), Round2(sum);
    var e := a - sum / n;
    assert -1.0 / 200.0 <= e <= 1.0 / 200.0;
    assert -1.0 / 200.0 <= t - sum <= 1.0 / 200.0;
    assert (sum / n) * n == sum;
    assert a * n == sum + e * n;
    assert -(n / 200.0) <= e * n <= n / 200.0 by {
      assert (1.0 / 200.0 - e) * n >= 0.0;
      assert (e + 1.0 / 200.0) * n >= 0.0;
    }
    assert (c + 1) as real == n + 1.0;
    assert -((n + 1.0) / 200.0) <= a * n - t <= (n + 1.0) / 200.0;
  }
}
