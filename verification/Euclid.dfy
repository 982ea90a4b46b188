/** The Euclidean norm behind the fit, and why no cubic follows five alternating points. */
module Euclid {
  import opened Outline

  /** Non-negative, and its square is the sum of the squares. */
  ghost predicate Euclidean(norm: (real, real) -> real) {
    forall x: real, y: real :: norm(x, y) >= 0.0 && norm(x, y) * norm(x, y) == x * x + y * y
  }

  function Gap(norm: (real, real) -> real, a: Point, b: Point): real {
    norm(b.x - a.x, b.y - a.y)
  }

  function Abs(v: real): real { if v < 0.0 then -v else v }

  lemma PositiveProduct(a: real, b: real)
    requires a > 0.0 && b > 0.0
    ensures a * b > 0.0
  {}

  lemma ProductIsPositive(a: real, b: real, e: real)
    requires a > 0.0 && b > 0.0 && e == a * b
    ensures e > 0.0
  {}

  lemma NonNegativeProduct(a: real, b: real)
    requires a >= 0.0 && b >= 0.0
    ensures a * b >= 0.0
  {}

  lemma GreaterSquare(a: real, b: real)
    requires a > b >= 0.0
    ensures a * a > b * b
  {
    PositiveProduct(a - b, a + b);
    assert a * a - b * b == (a - b) * (a + b);
  }

  /** Squares order the non-negative numbers. */
  lemma SquareOrder(a: real, b: real)
    requires b >= 0.0 && a * a <= b * b
    ensures a <= b
  {
    if a > b { GreaterSquare(a, b); }
  }

  lemma SquareOfAbs(a: real)
    ensures Abs(a) * Abs(a) == a * a >= 0.0
  {}

  lemma SumSquares(u: real, v: real, x: real, y: real)
    ensures (u + x) * (u + x) + (v + y) * (v + y)
         == (u * u + v * v) + (x * x + y * y) + 2.0 * (u * x + v * y)
  {}

  lemma NormSquare(norm: (real, real) -> real, x: real, y: real)
    requires Euclidean(norm)
    ensures norm(x, y) >= 0.0 && norm(x, y) * norm(x, y) == x * x + y * y
  {}

  /** A norm is at least each coordinate and at most their sum, and vanishes only at zero. */
  lemma NormBounds(norm: (real, real) -> real, x: real, y: real)
    requires Euclidean(norm)
    ensures Abs(x) <= norm(x, y) <= Abs(x) + Abs(y) && Abs(y) <= norm(x, y)
    ensures norm(x, y) == 0.0 <==> x == 0.0 && y == 0.0
  {
    hide Euclidean;
    NormSquare(norm, x, y);
    var n := norm(x, y);
    SquareOfAbs(x);
    SquareOfAbs(y);
    SquareOrder(Abs(x), n);
    SquareOrder(Abs(y), n);
    SumSquares(Abs(x), 0.0, Abs(y), 0.0);
    NonNegativeProduct(Abs(x), Abs(y));
    SquareOrder(n, Abs(x) + Abs(y));
  }

  lemma NormMirrored(norm: (real, real) -> real, x: real, y: real)
    requires Euclidean(norm)
    ensures norm(-x, -y) == norm(x, y)
  {
    hide Euclidean;
    NormSquare(norm, x, y);
    NormSquare(norm, -x, -y);
    SquareOrder(norm(-x, -y), norm(x, y));
    SquareOrder(norm(x, y), norm(-x, -y));
  }

  /** Lagrange's identity. */
  lemma Lagrange(u: real, v: real, x: real, y: real)
    ensures (u * u + v * v) * (x * x + y * y)
         == (u * x + v * y) * (u * x + v * y) + (u * y - v * x) * (u * y - v * x)
  {}

  lemma ProductSquare(a: real, b: real)
    ensures (a * b) * (a * b) == (a * a) * (b * b)
  {}

  /** The inner and the outer product of two vectors are at most the product of their norms. */
  lemma CauchySchwarz(norm: (real, real) -> real, u: real, v: real, x: real, y: real)
    requires Euclidean(norm)
    ensures u * x + v * y <= norm(u, v) * norm(x, y)
    ensures Abs(u * y - v * x) <= norm(u, v) * norm(x, y)
  {
    hide Euclidean;
    var n, inner, outer := norm(u, v) * norm(x, y), u * x + v * y, u * y - v * x;
    ProductOfNorms(norm, u, v, x, y);
    Lagrange(u, v, x, y);
    assert n * n == inner * inner + outer * outer;
    SquareOfAbs(outer);
    SquareOfAbs(inner);
    SquareOrder(inner, n);
    SquareOrder(Abs(outer), n);
  }

  lemma NormTriangle(norm: (real, real) -> real, u: real, v: real, x: real, y: real)
    requires Euclidean(norm)
    ensures norm(u + x, v + y) <= norm(u, v) + norm(x, y)
  {
    hide Euclidean;
    NormSquare(norm, u, v);
    NormSquare(norm, x, y);
    NormSquare(norm, u + x, v + y);
    CauchySchwarz(norm, u, v, x, y);
    var (a, b, c) := (norm(u, v), norm(x, y), norm(u + x, v + y));
    SumSquares(u, v, x, y);
    SumSquares(a, 0.0, b, 0.0);
    SquareOrder(c, a + b);
  }

  lemma GapTriangle(norm: (real, real) -> real, a: Point, b: Point, c: Point)
    requires Euclidean(norm)
    ensures Gap(norm, a, c) <= Gap(norm, a, b) + Gap(norm, b, c)
  {
    hide Euclidean;
    NormTriangle(norm, b.x - a.x, b.y - a.y, c.x - b.x, c.y - b.y);
    assert c.x - a.x == (b.x - a.x) + (c.x - b.x) && c.y - a.y == (b.y - a.y) + (c.y - b.y);
  }

  lemma GapSymmetric(norm: (real, real) -> real, a: Point, b: Point)
    requires Euclidean(norm)
    ensures Gap(norm, a, b) == Gap(norm, b, a) >= 0.0
    ensures Gap(norm, a, b) == 0.0 <==> a == b
  {
    hide Euclidean;
    NormMirrored(norm, b.x - a.x, b.y - a.y);
    NormBounds(norm, b.x - a.x, b.y - a.y);
    assert a.x - b.x == -(b.x - a.x) && a.y - b.y == -(b.y - a.y);
  }

  // ---------------------------------------------------------------- distance from a line

  /** The foot s v of the perpendicular from u on the line through v lies at distance |u x v| / |v|. */
  lemma FootDistance(norm: (real, real) -> real, u1: real, u2: real, v1: real, v2: real, s: real)
    requires Euclidean(norm) && norm(v1, v2) > 0.0
    requires s * (v1 * v1 + v2 * v2) == u1 * v1 + u2 * v2
    ensures norm(s * v1 - u1, s * v2 - u2) * norm(v1, v2) == Abs(u1 * v2 - u2 * v1)
  {
    hide Euclidean;
    var (e, c) := (v1 * v1 + v2 * v2, u1 * v2 - u2 * v1);
    PositiveSquare(norm, v1, v2);
    FootOffset(u1, u2, v1, v2, s, e);
    var (w1, w2) := (s * v1 - u1, s * v2 - u2);
    OffsetSquare(e, w1, w2, v1, v2, c);
    ProductOfNorms(norm, w1, w2, v1, v2);
    SquareOfAbs(c);
    SquareOrder(norm(w1, w2) * norm(v1, v2), Abs(c));
    SquareOrder(Abs(c), norm(w1, w2) * norm(v1, v2));
  }

  lemma PositiveSquare(norm: (real, real) -> real, x: real, y: real)
    requires Euclidean(norm) && norm(x, y) > 0.0
    ensures x * x + y * y > 0.0
  {
    hide Euclidean;
    NormSquare(norm, x, y);
    ProductIsPositive(norm(x, y), norm(x, y), x * x + y * y);
  }

  lemma ProductOfNorms(norm: (real, real) -> real, u: real, v: real, x: real, y: real)
    requires Euclidean(norm)
    ensures var n := norm(u, v) * norm(x, y);
            n >= 0.0 && n * n == (u * u + v * v) * (x * x + y * y)
  {
    hide Euclidean;
    NormSquare(norm, u, v);
    NormSquare(norm, x, y);
    NonNegativeProduct(norm(u, v), norm(x, y));
    ProductSquare(norm(u, v), norm(x, y));
  }

  lemma FootOffset(u1: real, u2: real, v1: real, v2: real, s: real, e: real)
    requires e == v1 * v1 + v2 * v2 && s * e == u1 * v1 + u2 * v2
    ensures e * (s * v1 - u1) == -(v2 * (u1 * v2 - u2 * v1))
    ensures e * (s * v2 - u2) == v1 * (u1 * v2 - u2 * v1)
  {
    assert e * (s * v1 - u1) == (s * e) * v1 - e * u1;
    assert e * (s * v2 - u2) == (s * e) * v2 - e * u2;
  }

  lemma OffsetSquare(e: real, w1: real, w2: real, v1: real, v2: real, c: real)
    requires e == v1 * v1 + v2 * v2 > 0.0 && e * w1 == -(v2 * c) && e * w2 == v1 * c
    ensures (w1 * w1 + w2 * w2) * e == c * c
  {
    ProductSquare(e, w1);
    ProductSquare(e, w2);
    ProductSquare(v2, c);
    ProductSquare(v1, c);
    assert (e * e) * (w1 * w1 + w2 * w2) == e * (c * c);
    assert e * (e * (w1 * w1 + w2 * w2) - c * c) == 0.0;
  }

  // ---------------------------------------------------------------- alternating points

  function Cubic1(a: real, b: real, c: real, d: real, t: real): real {
    a + t * (b + t * (c + t * d))
  }

  /** First divided difference of a cubic. */
  function Slope(b: real, c: real, d: real, s: real, t: real): real {
    b + c * (s + t) + d * (s * s + s * t + t * t)
  }

  lemma SlopeIs(a: real, b: real, c: real, d: real, s: real, t: real)
    ensures Cubic1(a, b, c, d, t) - Cubic1(a, b, c, d, s) == (t - s) * Slope(b, c, d, s, t)
  {}

  lemma SlopeStep(b: real, c: real, d: real, s: real, t: real, r: real)
    ensures Slope(b, c, d, t, r) - Slope(b, c, d, s, t) == (r - s) * (c + d * (s + t + r))
  {}

  lemma SignOfFactor(k: real, v: real)
    requires k > 0.0
    ensures (k * v > 0.0 <==> v > 0.0) && (k * v < 0.0 <==> v < 0.0)
  {}

  /** Up then down: the second divided difference is negative. */
  lemma PeakBends(a: real, b: real, c: real, d: real, s: real, t: real, r: real)
    requires s < t < r
    requires Cubic1(a, b, c, d, s) < Cubic1(a, b, c, d, t) && Cubic1(a, b, c, d, t) > Cubic1(a, b, c, d, r)
    ensures c + d * (s + t + r) < 0.0
  {
    SlopeIs(a, b, c, d, s, t);
    SlopeIs(a, b, c, d, t, r);
    SignOfFactor(t - s, Slope(b, c, d, s, t));
    SignOfFactor(r - t, Slope(b, c, d, t, r));
    SlopeStep(b, c, d, s, t, r);
    SignOfFactor(r - s, c + d * (s + t + r));
  }

  lemma ValleyBends(a: real, b: real, c: real, d: real, s: real, t: real, r: real)
    requires s < t < r
    requires Cubic1(a, b, c, d, s) > Cubic1(a, b, c, d, t) && Cubic1(a, b, c, d, t) < Cubic1(a, b, c, d, r)
    ensures c + d * (s + t + r) > 0.0
  {
    SlopeIs(a, b, c, d, s, t);
    SlopeIs(a, b, c, d, t, r);
    SignOfFactor(t - s, Slope(b, c, d, s, t));
    SignOfFactor(r - t, Slope(b, c, d, t, r));
    SlopeStep(b, c, d, s, t, r);
    SignOfFactor(r - s, c + d * (s + t + r));
  }

  /** The values fall, rise, fall and rise again. */
  predicate Zigzag(v0: real, v1: real, v2: real, v3: real, v4: real) {
    v0 > v1 && v1 < v2 && v2 > v3 && v3 < v4
  }

  /** No cubic does that at increasing parameters. */
  lemma NoZigzag(a: real, b: real, c: real, d: real, t0: real, t1: real, t2: real, t3: real, t4: real)
    requires t0 < t1 < t2 < t3 < t4
    ensures !Zigzag(Cubic1(a, b, c, d, t0), Cubic1(a, b, c, d, t1), Cubic1(a, b, c, d, t2),
                    Cubic1(a, b, c, d, t3), Cubic1(a, b, c, d, t4))
  {
    hide Cubic1;
    if Zigzag(Cubic1(a, b, c, d, t0), Cubic1(a, b, c, d, t1), Cubic1(a, b, c, d, t2),
              Cubic1(a, b, c, d, t3), Cubic1(a, b, c, d, t4)) {
      ValleyBends(a, b, c, d, t0, t1, t2);
      PeakBends(a, b, c, d, t1, t2, t3);
      ValleyBends(a, b, c, d, t2, t3, t4);
      AffineIsMonotone(c, d, t0 + t1 + t2, t1 + t2 + t3, t2 + t3 + t4);
    }
  }

  /** An affine function is monotone: it cannot be positive, negative and positive in turn. */
  lemma AffineIsMonotone(c: real, d: real, s0: real, s1: real, s2: real)
    requires s0 < s1 < s2
    ensures !(c + d * s0 > 0.0 && c + d * s1 < 0.0 && c + d * s2 > 0.0)
  {
    if d >= 0.0 {
      assert d * s0 <= d * s1;
    } else {
      assert d * s1 >= d * s2;
    }
  }

  /** A Bernstein cubic in powers of its parameter. */
  lemma BernsteinIsCubic(p0: real, p1: real, p2: real, p3: real, t: real)
    ensures Bernstein(p0, p1, p2, p3, t)
         == Cubic1(p0, 3.0 * (p1 - p0), 3.0 * (p2 - 2.0 * p1 + p0), p3 - 3.0 * p2 + 3.0 * p1 - p0, t)
  {
    var u := 1.0 - t;
    assert u * u == 1.0 - 2.0 * t + t * t;
    assert u * u * u == 1.0 - 3.0 * t + 3.0 * (t * t) - t * t * t;
    assert 3.0 * u * u * t == 3.0 * t - 6.0 * (t * t) + 3.0 * (t * t * t);
    assert 3.0 * u * t * t == 3.0 * (t * t) - 3.0 * (t * t * t);
  }
}
