/**
 Two-decimal rounding of a settlement balance, `round(balance, 2)`.
 The model rounds the exact real value to the nearest whole cent, a tie
 going to the even number of cents.
 */
module Rounding {

  /** `x` is a whole number of cents. */
  predicate IsCents(x: real) {
    (x * 100.0).Floor as real == x * 100.0
  }

  /** The whole number of cents nearest to `x`, a tie going to the even one. */
  function Cents(x: real): (k: int)
    ensures -0.5 <= k as real - x * 100.0 <= 0.5
  {
    var y := x * 100.0;
    var f := y.Floor;
    var frac := y - f as real;
    if frac < 0.5 then f
    else if frac > 0.5 then f + 1
    else if f % 2 == 0 then f
    else f + 1
  }

  /**
   `round(x, 2)`: a whole number of cents at most half a cent away from `x`,
   negative exactly when `x` is below -0.005 and positive exactly when `x` is
   above 0.005, so that it is 0 exactly when |x| <= 0.005.
   */
  function Round2(x: real): (r: real)
    ensures -0.005 <= r - x <= 0.005
    ensures IsCents(r)
    ensures r < 0.0 <==> x < -0.005
    ensures r > 0.0 <==> x > 0.005
  {
    var k := Cents(x);
    assert (k as real / 100.0) * 100.0 == k as real;
    var y := x * 100.0;
    assert y < -0.5 ==> k < 0;
    assert y > 0.5 ==> k > 0;
    assert -0.5 <= y <= 0.5 ==> k == 0 by {
      if -0.5 <= y <= 0.5 {
        if y < 0.0 {
          assert y.Floor == -1;
        } else {
          assert y.Floor == 0;
        }
      }
    }
    k as real / 100.0
  }

  /** A value that already is a whole number of cents is left unchanged. */
  lemma Round2OfCents(x: real)
    requires IsCents(x)
    ensures Round2(x) == x
  {
    var y := x * 100.0;
    assert y.Floor as real == y;
    assert Cents(x) == y.Floor;
  }

  /** Rounding twice is rounding once. */
  lemma Round2Idempotent(x: real)
    ensures Round2(Round2(x)) == Round2(x)
  {
    Round2OfCents(Round2(x));
  }

  /** Rounding never reverses the order of two values. */
  lemma Round2Monotonic(x: real, y: real)
    requires x <= y
    ensures Round2(x) <= Round2(y)
  {
    var fx, fy := (x * 100.0).Floor, (y * 100.0).Floor;
    assert fx <= fy;
    if fx < fy {
      assert Cents(x) <= fx + 1 <= fy <= Cents(y);
    } else {
      assert Cents(x) <= Cents(y);
    }
  }
}
