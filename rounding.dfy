/** `Math.round(n / d)` for an exact quotient of integers. */
module Rounding {

  /** The integer nearest to `n / d`, halves rounded up as `Math.round` does:
      `r - 1/2 <= n / d < r + 1/2`. */
  function RoundDiv(n: int, d: int): (r: int)
    requires d > 0
    ensures d * (2 * r - 1) <= 2 * n < d * (2 * r + 1)
  {
    var r := (2 * n + d) / (2 * d);
    assert 2 * n + d == 2 * d * r + (2 * n + d) % (2 * d);
    r
  }

  /** The result is the only integer with that property. */
  lemma RoundDivUnique(n: int, d: int, h: int)
    requires d > 0
    requires d * (2 * h - 1) <= 2 * n < d * (2 * h + 1)
    ensures h == RoundDiv(n, d)
  {
    var r := RoundDiv(n, d);
    CancelFactor(d, 2 * h - 1, 2 * r + 1);
    CancelFactor(d, 2 * r - 1, 2 * h + 1);
  }

  lemma CancelFactor(d: int, a: int, b: int)
    requires d > 0 && d * a < d * b
    ensures a < b
  {
    assert d * (b - a) == d * b - d * a;
  }
}
