/** `Math.round(a / b * 100)`, the rounded percentage the profile card and
    the rewards dashboard display, computed exactly on integers. */
module Percent {

  /** `Math.round(x)` is `floor(x + 1/2)`: the nearest integer, halves
      rounded towards positive infinity. For `x = 100 * a / b` that is
      `floor((200 * a + b) / (2 * b))` once the sign of `b` is moved onto
      `a`; Dafny's `/` with a positive divisor is the floor. */
  function RoundedPercent(a: int, b: int): (r: int)
    requires b != 0
    ensures b > 0 ==> 2 * b * r <= 200 * a + b < 2 * b * r + 2 * b
    ensures b < 0 ==> 2 * -b * r <= 200 * -a - b < 2 * -b * r + 2 * -b
  {
    if b > 0 then (200 * a + b) / (2 * b) else (-200 * a - b) / (-2 * b)
  }

  /** For a positive factor, multiplication preserves strict order and back. */
  lemma MulStrict(k: int, x: int, y: int)
    requires k > 0
    ensures k * x < k * y <==> x < y
  {
    if x < y {
      assert k * y - k * x == k * (y - x);
    } else {
      assert k * x - k * y == k * (x - y);
    }
  }

  /** The rounded value is determined by its nearest-integer property. */
  lemma RoundedPercentUnique(a: int, b: int, r: int)
    requires b > 0
    requires 2 * b * r <= 200 * a + b < 2 * b * r + 2 * b
    ensures RoundedPercent(a, b) == r
  {
    var q := RoundedPercent(a, b);
    MulStrict(2 * b, q, r + 1);
    MulStrict(2 * b, r, q + 1);
    assert 2 * b * (r + 1) == 2 * b * r + 2 * b;
    assert 2 * b * (q + 1) == 2 * b * q + 2 * b;
  }

  /** A ratio between 0 and 1 rounds to a percentage between 0 and 100. */
  lemma RoundedPercentBounds(a: int, b: int)
    requires 0 <= a <= b && b > 0
    ensures 0 <= RoundedPercent(a, b) <= 100
  {
    var r := RoundedPercent(a, b);
    MulStrict(2 * b, -1, r);
    MulStrict(2 * b, r, 101);
    assert 2 * b * (r + 1) == 2 * b * r + 2 * b;
    assert 2 * b * 101 == 202 * b;
  }

  /** A larger numerator never rounds to a smaller percentage. */
  lemma RoundedPercentMonotone(a1: int, a2: int, b: int)
    requires b > 0 && a1 <= a2
    ensures RoundedPercent(a1, b) <= RoundedPercent(a2, b)
  {
    var r1, r2 := RoundedPercent(a1, b), RoundedPercent(a2, b);
    MulStrict(2 * b, r1, r2 + 1);
    assert 2 * b * (r2 + 1) == 2 * b * r2 + 2 * b;
  }

  /** A numerator equal to the denominator gives exactly 100. */
  lemma RoundedPercentWhole(b: int)
    requires b > 0
    ensures RoundedPercent(b, b) == 100
  {
    RoundedPercentUnique(b, b, 100);
  }

  /** A numerator at least the (positive) denominator gives at least 100. */
  lemma RoundedPercentAtLeastWhole(a: int, b: int)
    requires a >= b > 0
    ensures RoundedPercent(a, b) >= 100
  {
    RoundedPercentWhole(b);
    RoundedPercentMonotone(b, a, b);
  }
}
