/**
 * Python's numeric conversions used by the SIRV metrics, on mathematical reals:
 * `int(x)` (truncation toward zero) and `round(x, 2)` (nearest hundredth).
 */
module PyNumbers {

  function Abs(x: real): real { if x < 0.0 then -x else x }

  /** `int(x)`: the integer part of `x`, truncated toward zero. */
  function Trunc(x: real): (r: int)
    ensures 0.0 <= x ==> 0 <= r && r as real <= x < r as real + 1.0
    ensures x < 0.0 ==> r <= 0 && r as real - 1.0 < x <= r as real
  {
    if x >= 0.0 then x.Floor else -((-x).Floor)
  }

  /** `x` is a whole number of hundredths. */
  predicate IsHundredths(x: real) {
    (x * 100.0).Floor as real == x * 100.0
  }

  /** `round(x, 2)`: a whole number of hundredths within half a hundredth of `x`. */
  function RoundHundredth(x: real): (r: real)
    ensures IsHundredths(r)
    ensures -0.005 < r - x <= 0.005
  {
    (x * 100.0 + 0.5).Floor as real / 100.0
  }

  /** No whole number of hundredths is closer to `x` than `RoundHundredth(x)`. */
  lemma RoundHundredthIsNearest(x: real, k: int)
    ensures Abs(RoundHundredth(x) - x) <= Abs(k as real / 100.0 - x)
  {
    var r := RoundHundredth(x);
    var f := (r * 100.0).Floor;
    assert f as real / 100.0 == r;
    if k > f {
      assert k as real / 100.0 >= r + 0.01;
    } else if k < f {
      assert k as real / 100.0 <= r - 0.01;
    }
  }
}
