/** Order of products and quotients of integers. */
module Arithmetic {
  lemma MulOrder(x: int, y: int, b: int)
    requires b >= 0
    ensures x <= y ==> x * b <= y * b
    ensures x < y ==> x * b + b <= y * b
  {
    if x < y {
      assert (y - x - 1) * b >= 0;
    }
  }

  lemma QuotientBounds(x: int, d: int)
    requires d >= 1
    ensures x / d * d <= x < x / d * d + d
  {}

  lemma QuotientIs(x: int, d: int, n: int)
    requires d >= 1 && n * d <= x < n * d + d
    ensures x / d == n
  {
    var q := x / d;
    assert q * d <= x < q * d + d;
    MulOrder(q + 1, n, d);
    MulOrder(n + 1, q, d);
  }
}
