/** Rounding of converted lab values to two decimal places, on exact reals.
    Values are rounded to the nearest hundredth; a value exactly halfway
    between two hundredths is rounded up (toward +infinity). */
module Rounding {

  /** r is a whole number of hundredths. */
  predicate OnGrid(r: real) {
    (r * 100.0).Floor as real == r * 100.0
  }

  /** x rounded to two decimal places. */
  function Round2(x: real): (r: real)
    ensures OnGrid(r)
    ensures x - 0.005 < r <= x + 0.005
  {
    (x * 100.0 + 0.5).Floor as real / 100.0
  }

  function Abs(x: real): real {
    if x < 0.0 then -x else x
  }

  /** No hundredth is closer to x than Round2(x): the rounding is to the nearest. */
  lemma Round2Nearest(x: real, k: int)
    ensures Abs(Round2(x) - x) <= Abs(k as real / 100.0 - x)
  {
    var n := (x * 100.0 + 0.5).Floor;
    var y := x * 100.0;
    assert Round2(x) * 100.0 == n as real;
    if k > n {
      assert k as real - y >= n as real + 1.0 - y;
    } else if k < n {
      assert y - k as real >= y - n as real + 1.0;
    }
  }

  /** Values that already have at most two decimals are left alone. */
  lemma Round2Exact(x: real)
    requires OnGrid(x)
    ensures Round2(x) == x
  {
    var n := (x * 100.0).Floor;
    assert (x * 100.0 + 0.5).Floor == n;
  }

  /** Rounding twice is rounding once. */
  lemma Round2Idempotent(x: real)
    ensures Round2(Round2(x)) == Round2(x)
  {
    Round2Exact(Round2(x));
  }

  /** Rounding preserves order (not necessarily strictly). */
  lemma Round2Monotone(x: real, y: real)
    requires x <= y
    ensures Round2(x) <= Round2(y)
  {
    assert (x * 100.0 + 0.5).Floor <= (y * 100.0 + 0.5).Floor;
  }
}
