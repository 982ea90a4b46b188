/** What the residual of a cubic says about the vertices it was fitted to. */
module CurveDeviation {
  import opened Outline
  import opened Euclid
  import opened CurveFit

  type Norm = (real, real) -> real

  lemma {:induction false} ArcGrows(norm: Norm, pts: seq<Point>, j: nat, k: nat)
    requires Euclidean(norm) && j <= k < |pts|
    ensures 0.0 <= Arc(norm, pts, j) <= Arc(norm, pts, k)
    decreases k
  {
    hide Euclidean, Gap;
    if k > 0 {
      GapSymmetric(norm, pts[k - 1], pts[k]);
      ArcGrows(norm, pts, if j < k then j else k - 1, k - 1);
    }
  }

  /** A path is at least as long as the way from its first point. */
  lemma {:induction false} ArcReaches(norm: Norm, pts: seq<Point>, k: nat)
    requires Euclidean(norm) && k < |pts|
    ensures Gap(norm, pts[0], pts[k]) <= Arc(norm, pts, k)
  {
    hide Euclidean, Gap;
    if k == 0 {
      GapSymmetric(norm, pts[0], pts[0]);
    } else {
      ArcReaches(norm, pts, k - 1);
      GapTriangle(norm, pts[0], pts[k - 1], pts[k]);
    }
  }

  lemma QuotientOrder(a: real, b: real, c: real)
    requires 0.0 <= a <= b && c > 0.0
    ensures 0.0 <= a / c <= b / c && (a < b ==> a / c < b / c)
  {}

  lemma ParamGrows(norm: Norm, pts: seq<Point>, j: nat, k: nat)
    requires Euclidean(norm) && j <= k < |pts| && Arc(norm, pts, |pts| - 1) >= MIN_LENGTH
    ensures 0.0 <= Param(norm, pts, j) <= Param(norm, pts, k) <= 1.0
    ensures Arc(norm, pts, j) < Arc(norm, pts, k) ==> Param(norm, pts, j) < Param(norm, pts, k)
  {
    hide Euclidean, Arc;
    var n := |pts| - 1;
    ArcGrows(norm, pts, j, k);
    ArcGrows(norm, pts, k, n);
    QuotientOrder(Arc(norm, pts, j), Arc(norm, pts, k), Arc(norm, pts, n));
    QuotientOrder(Arc(norm, pts, k), Arc(norm, pts, n), Arc(norm, pts, n));
    assert Arc(norm, pts, n) / Arc(norm, pts, n) == 1.0;
  }

  lemma {:induction false} DeviationBounds(norm: Norm, s: Segment, pts: seq<Point>, k: nat, q: nat)
    requires q <= k < |pts| && Arc(norm, pts, |pts| - 1) >= MIN_LENGTH
    ensures Miss(norm, s, pts, q) <= Deviation(norm, s, pts, k)
    decreases k
  {
    hide Miss, Arc;
    if q < k { DeviationBounds(norm, s, pts, k - 1, q); }
  }

  /** At every vertex of a solved cubic there is a parameter at which it misses by at most its residual. */
  lemma CubicMisses(f: Fit, chain: seq<Point>, i: nat, j: nat, q: nat)
    requires Euclidean(f.norm) && i < j < |chain| && i <= q <= j && Solved(f, chain, i, j)
    ensures var (c, pts) := (FitCubic(f, chain, i, j), chain[i..j + 1]);
            var t := Param(f.norm, pts, q - i);
            && 0.0 <= t <= 1.0
            && Gap(f.norm, chain[q], Evaluate(ToSegment(chain, c), t)) <= c.residual
  {
    hide Euclidean, Arc, Evaluate, Deviation, Param;
    var (c, pts) := (FitCubic(f, chain, i, j), chain[i..j + 1]);
    ParamGrows(f.norm, pts, q - i, q - i);
    DeviationBounds(f.norm, ToSegment(chain, c), pts, j - i, q - i);
  }

  // ---------------------------------------------------------------- no cubic follows a zigzag

  /** Five vertices from q on lie in turn above and below the level x == c, by more than the
      tolerance, and at least one unit apart. */
  ghost predicate Alternates(f: Fit, chain: seq<Point>, q: nat, c: real)
    requires q + 4 < |chain|
  {
    && chain[q].x > c + f.tol && chain[q + 1].x < c - f.tol && chain[q + 2].x > c + f.tol
    && chain[q + 3].x < c - f.tol && chain[q + 4].x > c + f.tol
    && chain[q].x >= chain[q + 1].x + 1.0 && chain[q + 2].x >= chain[q + 1].x + 1.0
    && chain[q + 2].x >= chain[q + 3].x + 1.0 && chain[q + 4].x >= chain[q + 3].x + 1.0
  }

  lemma ArcSteps(norm: Norm, pts: seq<Point>, k: nat)
    requires Euclidean(norm) && k + 1 < |pts| && Abs(pts[k + 1].x - pts[k].x) >= 1.0
    ensures Arc(norm, pts, k) + 1.0 <= Arc(norm, pts, k + 1)
  {
    hide Euclidean;
    NormBounds(norm, pts[k + 1].x - pts[k].x, pts[k + 1].y - pts[k].y);
  }

  lemma XWithin(norm: Norm, a: Point, b: Point, d: real)
    requires Euclidean(norm) && Gap(norm, a, b) <= d
    ensures a.x - d <= b.x <= a.x + d
  {
    hide Euclidean;
    NormBounds(norm, b.x - a.x, b.y - a.y);
  }

  lemma CubicX(p0: Point, p1: Point, p2: Point, p3: Point, t: real)
    ensures Evaluate(Cubic(p0, p1, p2, p3), t).x
         == Cubic1(p0.x, 3.0 * (p1.x - p0.x), 3.0 * (p2.x - 2.0 * p1.x + p0.x),
                   p3.x - 3.0 * p2.x + 3.0 * p1.x - p0.x, t)
  {
    hide Bernstein, Cubic1;
    BernsteinIsCubic(p0.x, p1.x, p2.x, p3.x, t);
  }

  lemma CubicHasNoZigzag(s: Segment, t0: real, t1: real, t2: real, t3: real, t4: real)
    requires s.Cubic? && t0 < t1 < t2 < t3 < t4
    ensures !Zigzag(Evaluate(s, t0).x, Evaluate(s, t1).x, Evaluate(s, t2).x, Evaluate(s, t3).x, Evaluate(s, t4).x)
  {
    hide Cubic1, Evaluate;
    CubicX(s.p0, s.p1, s.p2, s.p3, t0);
    CubicX(s.p0, s.p1, s.p2, s.p3, t1);
    CubicX(s.p0, s.p1, s.p2, s.p3, t2);
    CubicX(s.p0, s.p1, s.p2, s.p3, t3);
    CubicX(s.p0, s.p1, s.p2, s.p3, t4);
    NoZigzag(s.p0.x, 3.0 * (s.p1.x - s.p0.x), 3.0 * (s.p2.x - 2.0 * s.p1.x + s.p0.x),
             s.p3.x - 3.0 * s.p2.x + 3.0 * s.p1.x - s.p0.x, t0, t1, t2, t3, t4);
  }

  lemma ParamSteps(norm: Norm, pts: seq<Point>, k: nat)
    requires Euclidean(norm) && k + 1 < |pts| && Abs(pts[k + 1].x - pts[k].x) >= 1.0
    ensures Arc(norm, pts, |pts| - 1) >= 1.0
    ensures Param(norm, pts, k) < Param(norm, pts, k + 1)
  {
    hide Euclidean, Arc, Param;
    ArcSteps(norm, pts, k);
    ArcGrows(norm, pts, k, k);
    ArcGrows(norm, pts, k + 1, |pts| - 1);
    ParamGrows(norm, pts, k, k + 1);
  }

  /** A slice with five alternating vertices is solved for, at increasing parameters. */
  lemma AlternatingParams(f: Fit, chain: seq<Point>, i: nat, j: nat, q: nat, c: real)
    requires Euclidean(f.norm) && i <= q && q + 4 <= j < |chain| && Alternates(f, chain, q, c)
    ensures Solved(f, chain, i, j)
    ensures var (pts, k) := (chain[i..j + 1], q - i);
            && Param(f.norm, pts, k) < Param(f.norm, pts, k + 1) < Param(f.norm, pts, k + 2)
            && Param(f.norm, pts, k + 2) < Param(f.norm, pts, k + 3) < Param(f.norm, pts, k + 4)
  {
    hide Euclidean, Arc, Param;
    var (pts, k) := (chain[i..j + 1], q - i);
    ParamSteps(f.norm, pts, k);
    ParamSteps(f.norm, pts, k + 1);
    ParamSteps(f.norm, pts, k + 2);
    ParamSteps(f.norm, pts, k + 3);
  }

  /** The abscissa of the cubic at the parameter of vertex q. */
  function AbscissaAt(f: Fit, chain: seq<Point>, i: nat, j: nat, q: nat): real
    requires i < j < |chain| && i <= q <= j && Solved(f, chain, i, j)
  {
    Evaluate(ToSegment(chain, FitCubic(f, chain, i, j)), Param(f.norm, chain[i..j + 1], q - i)).x
  }

  lemma AbscissaWithin(f: Fit, chain: seq<Point>, i: nat, j: nat, q: nat)
    requires Euclidean(f.norm) && i < j < |chain| && i <= q <= j && Solved(f, chain, i, j)
    ensures var r := FitCubic(f, chain, i, j).residual;
            chain[q].x - r <= AbscissaAt(f, chain, i, j, q) <= chain[q].x + r
  {
    hide Euclidean, Arc, Param, Evaluate, FitCubic, Gap;
    CubicMisses(f, chain, i, j, q);
    var c := FitCubic(f, chain, i, j);
    XWithin(f.norm, chain[q], Evaluate(ToSegment(chain, c), Param(f.norm, chain[i..j + 1], q - i)), c.residual);
  }

  /** Whatever the solver returns, no cubic over such a slice is within tolerance. */
  lemma AlternatingDefeats(f: Fit, chain: seq<Point>, i: nat, j: nat, q: nat, c: real)
    requires Euclidean(f.norm) && i <= q && q + 4 <= j < |chain| && Alternates(f, chain, q, c)
    ensures FitCubic(f, chain, i, j).residual > f.tol
  {
    hide Euclidean, Evaluate, Param, FitCubic, Gap, Arc;
    AlternatingParams(f, chain, i, j, q, c);
    if FitCubic(f, chain, i, j).residual <= f.tol {
      AbscissaWithin(f, chain, i, j, q);
      AbscissaWithin(f, chain, i, j, q + 1);
      AbscissaWithin(f, chain, i, j, q + 2);
      AbscissaWithin(f, chain, i, j, q + 3);
      AbscissaWithin(f, chain, i, j, q + 4);
      var (pts, k) := (chain[i..j + 1], q - i);
      assert q + 1 - i == k + 1 && q + 2 - i == k + 2 && q + 3 - i == k + 3 && q + 4 - i == k + 4;
      CubicHasNoZigzag(ToSegment(chain, FitCubic(f, chain, i, j)), Param(f.norm, pts, k), Param(f.norm, pts, k + 1),
                       Param(f.norm, pts, k + 2), Param(f.norm, pts, k + 3), Param(f.norm, pts, k + 4));
    }
  }
}
