/**
 * Facts about products and ratios of reals that the solver does not find
 * unaided. A product whose factor is itself a difference is written with
 * `Times`, so that facts about it are used as stated.
 */
module Reals {

  /** The product of two reals. */
  function Times(x: real, y: real): real {
    x * y
  }

  /** Scaling a non-negative `y` by a factor in [0,1] keeps it in [0, y]. */
  lemma ScaleWithin(x: real, y: real)
    requires 0.0 <= x <= 1.0 && 0.0 <= y
    ensures 0.0 <= Times(x, y) <= y
  {
    assert x * y <= 1.0 * y;
  }

  /** Scaling a positive `y` by a factor in [0,1) lands strictly below `y`. */
  lemma ScaleBelow(x: real, y: real)
    requires 0.0 <= x < 1.0 && 0.0 < y
    ensures 0.0 <= Times(x, y) < y
  {
    assert x * y < 1.0 * y;
  }

  /** A ratio of a part to a positive whole lies in [0,1], and is 1 exactly for the whole. */
  lemma RatioUnit(a: real, n: real)
    requires 0.0 < n && 0.0 <= a <= n
    ensures 0.0 <= a / n <= 1.0
    ensures a / n == 1.0 <==> a == n
    ensures a / n == 0.0 <==> a == 0.0
  {
  }

  /** Comparing with a mean is comparing with the total scaled by the count. */
  lemma AboveRatio(x: real, t: real, n: real)
    requires 0.0 < n
    ensures x > t / n <==> Times(x, n) > t
  {
    var q := t / n;
    assert q * n == t;
    if x > q {
      assert x * n > q * n;
    } else {
      assert x * n <= q * n;
    }
  }
}
