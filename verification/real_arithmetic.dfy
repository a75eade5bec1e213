/** Sign and order facts about products of reals. Each product is named by a
    parameter `p == x * y`, so a caller can pass a square `Square(r)` as `p`
    with `x == y == r` and receive the fact about `p` directly. */
module RealArithmetic {

  lemma ProductPositive(x: real, y: real, p: real)
    requires x > 0.0 && y > 0.0 && p == x * y
    ensures p > 0.0
  {
  }

  lemma ProductNegative(x: real, y: real, p: real)
    requires x > 0.0 && y < 0.0 && p == x * y
    ensures p < 0.0
  {
    ProductPositive(x, -y, -p);
  }

  /** A positive factor keeps the sign of the value it multiplies. */
  lemma PositiveScaleKeepsSign(k: real, x: real)
    requires k > 0.0
    ensures x == 0.0 ==> k * x == 0.0
    ensures x > 0.0 ==> k * x > 0.0
    ensures x < 0.0 ==> k * x < 0.0
  {
    if x > 0.0 {
      ProductPositive(k, x, k * x);
    } else if x < 0.0 {
      ProductNegative(k, x, k * x);
    }
  }

  /** Products of non-negative factors grow with the factors. */
  lemma ProductMonotone(x1: real, y1: real, x2: real, y2: real, p1: real, p2: real)
    requires 0.0 <= x1 <= x2 && 0.0 <= y1 <= y2
    requires p1 == x1 * y1 && p2 == x2 * y2
    ensures p1 <= p2
  {
    assert p2 - p1 == x1 * (y2 - y1) + (x2 - x1) * y2;
    if x1 > 0.0 && y2 - y1 > 0.0 {
      ProductPositive(x1, y2 - y1, x1 * (y2 - y1));
    }
    if x2 - x1 > 0.0 && y2 > 0.0 {
      ProductPositive(x2 - x1, y2, (x2 - x1) * y2);
    }
  }

  /** ... strictly, once one factor grows strictly and the other stays positive. */
  lemma ProductStrictlyMonotone(x1: real, y1: real, x2: real, y2: real, p1: real, p2: real)
    requires 0.0 <= x1 < x2 && 0.0 <= y1 <= y2 && 0.0 < y2
    requires p1 == x1 * y1 && p2 == x2 * y2
    ensures p1 < p2
  {
    assert p2 - p1 == x1 * (y2 - y1) + (x2 - x1) * y2;
    if x1 > 0.0 && y2 - y1 > 0.0 {
      ProductPositive(x1, y2 - y1, x1 * (y2 - y1));
    }
    ProductPositive(x2 - x1, y2, (x2 - x1) * y2);
  }

  /** A non-zero factor can be cancelled from both sides of an equation. */
  lemma CancelFactor(k: real, x: real, y: real)
    requires k != 0.0 && x * k == y * k
    ensures x == y
  {
    assert x == (x * k) / k;
    assert y == (y * k) / k;
  }

  /** Comparing multiples of a positive factor compares the multiplied values. */
  lemma CancelPositiveFactor(k: real, x: real, y: real)
    requires k > 0.0 && x * k <= y * k
    ensures x <= y
  {
    assert x == (x * k) / k;
    assert y == (y * k) / k;
    assert (y * k) / k - (x * k) / k == (y * k - x * k) / k;
  }

  lemma QuotientTimesDivisor(x: real, y: real)
    requires y != 0.0
    ensures (x / y) * y == x
  {
  }
}
