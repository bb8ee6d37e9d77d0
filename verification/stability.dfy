/** The second order pole predictor that G.726 and G.722 share, over the reals. */
module Stability {

  /** x + iy is a root of z^2 = p z + q. */
  predicate Root(p: real, q: real, x: real, y: real) {
    x * x - y * y == p * x + q && 2.0 * x * y == p * y
  }

  /** The stability triangle. */
  predicate Inside(p: real, q: real) {
    -1.0 < q < 1.0 && -(1.0 - q) < p < 1.0 - q
  }

  /** Inside the triangle, every root lies strictly inside the unit circle. */
  lemma RootsInside(p: real, q: real, x: real, y: real)
    requires Inside(p, q) && Root(p, q, x, y)
    ensures x * x + y * y < 1.0
  {
    if y != 0.0 {
      ComplexRoot(p, q, x, y);
    } else {
      RealRoot(p, q, x);
      RealRoot(-p, q, -x);
      Square(x);
    }
  }

  lemma ComplexRoot(p: real, q: real, x: real, y: real)
    requires Root(p, q, x, y) && y != 0.0
    ensures x * x + y * y == -q
  {
    assert (2.0 * x - p) * y == 0.0;
    assert 2.0 * x == p;
    assert p * x == 2.0 * (x * x);
  }

  /** At 1 the polynomial is positive, and the product of the roots is below 1. */
  lemma RealRoot(p: real, q: real, x: real)
    requires Inside(p, q) && x * x == p * x + q
    ensures x < 1.0
  {
    var u, v := 1.0 - x, 1.0 - (p - x);
    assert u * v == 1.0 - p - q by {
      assert u * v == 1.0 - p + (x * p - x * x);
    }
    PositiveFactor(u, v);
  }

  lemma PositiveFactor(u: real, v: real)
    requires u * v > 0.0 && u + v > 0.0
    ensures u > 0.0
  {
    if u <= 0.0 {
      Product(-u, v);
    }
  }

  lemma Product(a: real, b: real)
    requires a >= 0.0 && b >= 0.0
    ensures a * b >= 0.0
  {
  }

  lemma Square(x: real)
    requires -1.0 < x < 1.0
    ensures x * x < 1.0
  {
    assert (1.0 - x) * (1.0 + x) > 0.0;
  }

  /** The limits that both codecs set, with 2^14 for 1: |a2| <= 0.75 and |a1| <= 0.9375 - a2. */
  lemma ScaledRootsInside(a1: int, a2: int, x: real, y: real)
    requires -12288 <= a2 <= 12288 && -(15360 - a2) <= a1 <= 15360 - a2
    requires Root(a1 as real / 16384.0, a2 as real / 16384.0, x, y)
    ensures x * x + y * y < 1.0
  {
    var p, q := a1 as real / 16384.0, a2 as real / 16384.0;
    assert Inside(p, q);
    hide *;
    RootsInside(p, q, x, y);
  }
}
