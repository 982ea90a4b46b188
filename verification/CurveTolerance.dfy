/** How far the polygon's vertices are from the fitted segments. */
module CurveTolerance {
  import opened Outline
  import opened Euclid
  import opened CurveFit
  import opened CurveDeviation
  import opened CurveClosing

  /** Point p is within d of a point of the cubic, or of a point of the line's carrier. */
  ghost predicate Near(norm: Norm, s: Segment, p: Point, d: real) {
    exists t: real :: (s.Cubic? ==> 0.0 <= t <= 1.0) && Gap(norm, p, Evaluate(s, t)) <= d
  }

  lemma NearWitness(norm: Norm, s: Segment, p: Point, d: real, t: real)
    requires s.Cubic? ==> 0.0 <= t <= 1.0
    requires Gap(norm, p, Evaluate(s, t)) <= d
    ensures Near(norm, s, p, d)
  {
    hide Evaluate, Gap;
  }

  lemma NearGrows(norm: Norm, s: Segment, p: Point, d: real, e: real)
    requires Near(norm, s, p, d) && d <= e
    ensures Near(norm, s, p, e)
  {
    hide Evaluate, Gap;
    var t: real :| (s.Cubic? ==> 0.0 <= t <= 1.0) && Gap(norm, p, Evaluate(s, t)) <= d;
    NearWitness(norm, s, p, e, t);
  }

  /** Every vertex of the piece's span is within d of its segment. */
  ghost predicate Follows(f: Fit, chain: seq<Point>, p: Piece, d: real)
    requires !p.Skipped? && p.i <= p.j < |chain|
  {
    forall q: nat | p.i <= q <= p.j :: Near(f.norm, ToSegment(chain, p), chain[q], d)
  }

  lemma FollowsGrows(f: Fit, chain: seq<Point>, p: Piece, d: real, e: real)
    requires !p.Skipped? && p.i <= p.j < |chain| && Follows(f, chain, p, d) && d <= e
    ensures Follows(f, chain, p, e)
  {
    hide Near, ToSegment;
    forall q: nat | p.i <= q <= p.j
      ensures Near(f.norm, ToSegment(chain, p), chain[q], e)
    {
      NearGrows(f.norm, ToSegment(chain, p), chain[q], d, e);
    }
  }

  // ---------------------------------------------------------------- lines

  /** The distance the fit computes is that of a point of the line. */
  lemma DistanceIsReached(norm: Norm, p: Point, a: Point, b: Point)
    requires Euclidean(norm) && Gap(norm, a, b) >= MIN_DENOMINATOR
    ensures Near(norm, Line(a, b), p, PointLineDistance(norm, p, a, b))
  {
    hide Euclidean, Near, PointLineDistance, Evaluate, Abs;
    var (u1, u2, v1, v2) := (p.x - a.x, p.y - a.y, b.x - a.x, b.y - a.y);
    var s := Foot(norm, u1 * v1 + u2 * v2, v1, v2);
    FootDistance(norm, u1, u2, v1, v2, s);
    DistanceIsQuotient(norm, p, a, b, u1, u2, v1, v2);
    GapToFoot(norm, p, a, b, s, u1, u2, v1, v2);
    QuotientIs(norm(s * v1 - u1, s * v2 - u2), Gap(norm, a, b), Abs(u1 * v2 - u2 * v1));
    assert Gap(norm, p, Evaluate(Line(a, b), s)) == norm(s * v1 - u1, s * v2 - u2);
    NearWitness(norm, Line(a, b), p, PointLineDistance(norm, p, a, b), s);
  }

  lemma Foot(norm: Norm, dot: real, v1: real, v2: real) returns (s: real)
    requires Euclidean(norm) && norm(v1, v2) > 0.0
    ensures s * (v1 * v1 + v2 * v2) == dot
  {
    hide Euclidean;
    var e := v1 * v1 + v2 * v2;
    NormSquare(norm, v1, v2);
    ProductIsPositive(norm(v1, v2), norm(v1, v2), e);
    s := dot / e;
    assert s * e == dot;
  }

  lemma QuotientIs(n: real, d: real, c: real)
    requires d > 0.0 && n * d == c
    ensures c / d == n
  {}

  lemma GapToFoot(norm: Norm, p: Point, a: Point, b: Point, s: real, u1: real, u2: real, v1: real, v2: real)
    requires u1 == p.x - a.x && u2 == p.y - a.y && v1 == b.x - a.x && v2 == b.y - a.y
    ensures Gap(norm, p, Evaluate(Line(a, b), s)) == norm(s * v1 - u1, s * v2 - u2)
  {
    var e := Evaluate(Line(a, b), s);
    assert e == Point(a.x + s * v1, a.y + s * v2);
    assert e.x - p.x == s * v1 - u1 && e.y - p.y == s * v2 - u2;
  }

  lemma LineFollows(f: Fit, chain: seq<Point>, i: nat, j: nat)
    requires Euclidean(f.norm) && i < j < |chain| && Chord(f, chain[i], chain[j]) >= MIN_CHORD
    ensures Follows(f, chain, LinePiece(i, j, MaxDistance(f, chain, i, j)), MaxDistance(f, chain, i, j))
  {
    hide Euclidean, Near, Farthest, PointLineDistance, Gap;
    forall q: nat | i <= q <= j
      ensures Near(f.norm, Line(chain[i], chain[j]), chain[q], MaxDistance(f, chain, i, j))
    {
      DistanceIsReached(f.norm, chain[q], chain[i], chain[j]);
      FarthestIsMax(f, chain, i, j, j, q);
      NearGrows(f.norm, Line(chain[i], chain[j]), chain[q],
                Distance(f, chain, i, j, q), MaxDistance(f, chain, i, j));
    }
  }

  // ---------------------------------------------------------------- cubics

  lemma SolvedFollows(f: Fit, chain: seq<Point>, i: nat, j: nat)
    requires Euclidean(f.norm) && i < j < |chain| && Solved(f, chain, i, j)
    ensures Follows(f, chain, FitCubic(f, chain, i, j), FitCubic(f, chain, i, j).residual)
  {
    hide Euclidean, Near, Evaluate, Param, Arc, Gap, FitCubic;
    var c := FitCubic(f, chain, i, j);
    forall q: nat | i <= q <= j
      ensures Near(f.norm, ToSegment(chain, c), chain[q], c.residual)
    {
      CubicMisses(f, chain, i, j, q);
      NearWitness(f.norm, ToSegment(chain, c), chain[q], c.residual, Param(f.norm, chain[i..j + 1], q - i));
    }
  }

  lemma EndsAreNear(norm: Norm, s: Segment, d: real)
    requires Euclidean(norm) && d >= 0.0
    ensures Near(norm, s, Start(s), d) && Near(norm, s, End(s), d)
  {
    hide Euclidean, Near, Evaluate;
    EvaluateEnds(s);
    GapSymmetric(norm, Start(s), Start(s));
    GapSymmetric(norm, End(s), End(s));
    NearWitness(norm, s, Start(s), d, 0.0);
    NearWitness(norm, s, End(s), d, 1.0);
  }

  /** An edge is followed exactly, and a span without length up to MIN_LENGTH. */
  lemma UnsolvedFollows(f: Fit, chain: seq<Point>, i: nat, j: nat)
    requires Euclidean(f.norm) && i < j < |chain| && !Solved(f, chain, i, j)
    ensures Follows(f, chain, FitCubic(f, chain, i, j), if j == i + 1 then 0.0 else MIN_LENGTH)
  {
    hide Euclidean, Near, Arc, Gap;
    var (c, d) := (FitCubic(f, chain, i, j), if j == i + 1 then 0.0 else MIN_LENGTH);
    forall q: nat | i <= q <= j
      ensures Near(f.norm, ToSegment(chain, c), chain[q], d)
    {
      EndsAreNear(f.norm, ToSegment(chain, c), d);
      if i < q < j {
        var pts := chain[i..j + 1];
        ArcReaches(f.norm, pts, q - i);
        ArcGrows(f.norm, pts, q - i, j - i);
        GapSymmetric(f.norm, chain[i], chain[q]);
        EvaluateEnds(ToSegment(chain, c));
        NearWitness(f.norm, ToSegment(chain, c), chain[q], d, 0.0);
      }
    }
  }

  // ---------------------------------------------------------------- the reported residual is honest

  lemma LeafFollows(f: Fit, chain: seq<Point>, p: Piece, count: nat)
    requires Euclidean(f.norm) && AsLeaf(f, chain, p, count) && !p.Skipped?
    ensures Follows(f, chain, p, RealMax(p.residual, MIN_LENGTH))
  {
    hide Euclidean, Follows, Solved, FitCubic, MaxDistance, Splits;
    var d := RealMax(p.residual, MIN_LENGTH);
    if p.LinePiece? {
      LineFollows(f, chain, p.i, p.j);
      FollowsGrows(f, chain, p, p.residual, d);
    } else if Solved(f, chain, p.i, p.j) {
      SolvedFollows(f, chain, p.i, p.j);
      FollowsGrows(f, chain, p, p.residual, d);
    } else {
      UnsolvedFollows(f, chain, p.i, p.j);
      FollowsGrows(f, chain, p, if p.j == p.i + 1 then 0.0 else MIN_LENGTH, d);
    }
  }

  /** Whatever the budget, each vertex of an emitted span is within the reported residual of its
      segment, up to MIN_LENGTH. */
  lemma ResidualIsHonest(f: Fit, chain: seq<Point>, i0: nat, i1: nat, count: nat, w: real, k: nat)
    requires Euclidean(f.norm) && i0 < i1 < |chain| && k < |Pieces(f, chain, i0, i1, count)|
    ensures var ps := Pieces(f, chain, i0, i1, count);
            && ps[k].i < ps[k].j < |chain|
            && (!ps[k].Skipped? ==> Follows(f, chain, ps[k], RealMax(Worst(w, ps), MIN_LENGTH)))
  {
    hide Pieces, Euclidean, Follows, Worst, AsLeaf;
    var ps := Pieces(f, chain, i0, i1, count);
    PiecesAreLeaves(f, chain, i0, i1, count);
    assert LeafAt(f, chain, ps, count, k);
    LeafIsOrdered(f, chain, ps[k], count + Emitted(ps[..k]));
    if !ps[k].Skipped? {
      LeafFollows(f, chain, ps[k], count + Emitted(ps[..k]));
      WorstBounds(w, ps, k);
      FollowsGrows(f, chain, ps[k], RealMax(ps[k].residual, MIN_LENGTH), RealMax(Worst(w, ps), MIN_LENGTH));
    }
  }

  lemma LeafIsOrdered(f: Fit, chain: seq<Point>, p: Piece, count: nat)
    requires AsLeaf(f, chain, p, count)
    ensures p.i < p.j < |chain|
  {}

  // ---------------------------------------------------------------- least squares through three points

  /** Sum of the squared misses at the first k + 1 points. */
  function Squares(norm: Norm, s: Segment, pts: seq<Point>, k: nat): real
    requires k < |pts| && Arc(norm, pts, |pts| - 1) >= MIN_LENGTH
  {
    var m := Miss(norm, s, pts, k);
    m * m + if k == 0 then 0.0 else Squares(norm, s, pts, k - 1)
  }

  lemma SquaresAdd(norm: Norm, s: Segment, pts: seq<Point>, k: nat)
    requires k < |pts| && Arc(norm, pts, |pts| - 1) >= MIN_LENGTH
    ensures Squares(norm, s, pts, 0) == Miss(norm, s, pts, 0) * Miss(norm, s, pts, 0)
    ensures k > 0
        ==> Squares(norm, s, pts, k) - Squares(norm, s, pts, k - 1) == Miss(norm, s, pts, k) * Miss(norm, s, pts, k)
  {
    hide Miss;
  }

  function Cost(norm: Norm, pts: seq<Point>, p1: Point, p2: Point): real
    requires |pts| >= 3 && Arc(norm, pts, |pts| - 1) >= MIN_LENGTH
  {
    Squares(norm, Cubic(pts[0], p1, p2, pts[|pts| - 1]), pts, |pts| - 1)
  }

  function SolverCost(f: Fit, pts: seq<Point>): real
    requires |pts| >= 3 && Arc(f.norm, pts, |pts| - 1) >= MIN_LENGTH
  {
    var (p1, p2) := f.solve(pts);
    Cost(f.norm, pts, p1, p2)
  }

  /** The solver returns inner control points of least total square. */
  ghost predicate LeastSquares(f: Fit) {
    forall pts, p1, p2 | |pts| >= 3 && Arc(f.norm, pts, |pts| - 1) >= MIN_LENGTH ::
      SolverCost(f, pts) <= Cost(f.norm, pts, p1, p2)
  }

  lemma MissNotNegative(norm: Norm, s: Segment, pts: seq<Point>, k: nat)
    requires Euclidean(norm) && k < |pts| && Arc(norm, pts, |pts| - 1) >= MIN_LENGTH
    ensures Miss(norm, s, pts, k) >= 0.0
  {
    hide Euclidean, Evaluate, Param, Gap;
    GapSymmetric(norm, pts[k], Evaluate(s, Param(norm, pts, k)));
  }

  lemma {:induction false} NoSquares(norm: Norm, s: Segment, pts: seq<Point>, k: nat)
    requires Euclidean(norm) && k < |pts| && Arc(norm, pts, |pts| - 1) >= MIN_LENGTH
    ensures Squares(norm, s, pts, k) >= 0.0
    ensures Squares(norm, s, pts, k) <= 0.0 ==> Deviation(norm, s, pts, k) == 0.0
  {
    hide Euclidean, Arc, Miss;
    MissNotNegative(norm, s, pts, k);
    ZeroSquare(Miss(norm, s, pts, k));
    if k > 0 { NoSquares(norm, s, pts, k - 1); }
  }

  lemma ZeroSquare(m: real)
    ensures m * m >= 0.0 && (m * m <= 0.0 ==> m == 0.0)
  {
    if m > 0.0 { ProductIsPositive(m, m, m * m); }
    if m < 0.0 { ProductIsPositive(-m, -m, m * m); }
  }

  /** The value of a doubled inner control that carries a cubic from a to b through p at t. */
  function Doubled(a: real, b: real, p: real, t: real): real
    requires 0.0 < t < 1.0
  {
    var u := 1.0 - t;
    assert 3.0 * u * t != 0.0;
    (p - u * u * u * a - t * t * t * b) / (3.0 * u * t)
  }

  lemma DoubledPasses(a: real, b: real, p: real, t: real)
    requires 0.0 < t < 1.0
    ensures Bernstein(a, Doubled(a, b, p, t), Doubled(a, b, p, t), b, t) == p
  {
    var (u, v) := (1.0 - t, Doubled(a, b, p, t));
    var w := 3.0 * u * t;
    PositiveProduct(3.0 * u, t);
    assert v * w == p - u * u * u * a - t * t * t * b;
    assert 3.0 * u * u * t * v + 3.0 * u * t * t * v == (v * w) * (u + t);
  }

  /** Some cubic passes through three points at their parameters. */
  lemma ThreePointsPass(norm: Norm, pts: seq<Point>) returns (p1: Point)
    requires Euclidean(norm) && |pts| == 3 && Arc(norm, pts, 2) >= MIN_LENGTH
    ensures Cost(norm, pts, p1, p1) == 0.0
  {
    hide Euclidean, Arc, Param, Bernstein, Gap, Evaluate;
    var t := Param(norm, pts, 1);
    ParamGrows(norm, pts, 1, 1);
    if 0.0 < t < 1.0 {
      p1 := Point(Doubled(pts[0].x, pts[2].x, pts[1].x, t), Doubled(pts[0].y, pts[2].y, pts[1].y, t));
      DoubledPasses(pts[0].x, pts[2].x, pts[1].x, t);
      DoubledPasses(pts[0].y, pts[2].y, pts[1].y, t);
      PassesInside(pts[0], p1, pts[2], pts[1], t);
    } else {
      p1 := pts[1];
      MiddleIsEnd(norm, pts);
      EvaluateEnds(Cubic(pts[0], p1, p1, pts[2]));
    }
    var s := Cubic(pts[0], p1, p1, pts[2]);
    assert Evaluate(s, t) == pts[1];
    EvaluateEnds(s);
    EndParams(norm, pts);
    GapSymmetric(norm, pts[0], pts[0]);
    GapSymmetric(norm, pts[1], pts[1]);
    GapSymmetric(norm, pts[2], pts[2]);
    assert Miss(norm, s, pts, 0) == 0.0 && Miss(norm, s, pts, 1) == 0.0 && Miss(norm, s, pts, 2) == 0.0;
    assert Squares(norm, s, pts, 1) == 0.0;
  }

  lemma PassesInside(a: Point, v: Point, b: Point, p: Point, t: real)
    requires Bernstein(a.x, v.x, v.x, b.x, t) == p.x && Bernstein(a.y, v.y, v.y, b.y, t) == p.y
    ensures Evaluate(Cubic(a, v, v, b), t) == p
  {}

  lemma EndParams(norm: Norm, pts: seq<Point>)
    requires |pts| == 3 && Arc(norm, pts, 2) >= MIN_LENGTH
    ensures Param(norm, pts, 0) == 0.0 && Param(norm, pts, 2) == 1.0
  {
    assert Arc(norm, pts, 0) == 0.0;
    hide Arc, Gap;
    SimpleQuotients(Arc(norm, pts, 2));
  }

  lemma SimpleQuotients(b: real)
    requires b > 0.0
    ensures 0.0 / b == 0.0 && b / b == 1.0
  {}

  /** A middle point at parameter 0 or 1 is an end point. */
  lemma MiddleIsEnd(norm: Norm, pts: seq<Point>)
    requires Euclidean(norm) && |pts| == 3 && Arc(norm, pts, 2) >= MIN_LENGTH
    ensures var t := Param(norm, pts, 1);
            0.0 <= t <= 1.0 && (t == 0.0 ==> pts[1] == pts[0]) && (t == 1.0 ==> pts[1] == pts[2])
  {
    hide Euclidean, Gap, Arc;
    ParamGrows(norm, pts, 1, 1);
    ThreeArcs(norm, pts);
    var (a, b) := (Arc(norm, pts, 1), Arc(norm, pts, 2));
    GapSymmetric(norm, pts[0], pts[1]);
    GapSymmetric(norm, pts[1], pts[2]);
    assert Param(norm, pts, 1) == a / b;
    QuotientEnds(a, b);
  }

  lemma ThreeArcs(norm: Norm, pts: seq<Point>)
    requires |pts| == 3
    ensures Arc(norm, pts, 1) == Gap(norm, pts[0], pts[1])
    ensures Arc(norm, pts, 2) == Arc(norm, pts, 1) + Gap(norm, pts[1], pts[2])
  {
    hide Gap;
    assert Arc(norm, pts, 0) == 0.0;
  }

  lemma QuotientEnds(a: real, b: real)
    requires b > 0.0
    ensures (a / b == 0.0 ==> a == 0.0) && (a / b == 1.0 ==> a == b)
  {
    var t := a / b;
    assert a == t * b;
  }

  /** Over two edges a least-squares cubic misses nothing. */
  lemma TwoEdgesFit(f: Fit, chain: seq<Point>, i: nat)
    requires Euclidean(f.norm) && LeastSquares(f) && i + 2 < |chain| && Solved(f, chain, i, i + 2)
    ensures FitCubic(f, chain, i, i + 2).residual == 0.0
  {
    hide Euclidean, Arc, Deviation, Squares;
    var pts := chain[i..i + 3];
    var v := ThreePointsPass(f.norm, pts);
    var (p1, p2) := f.solve(pts);
    assert SolverCost(f, pts) <= Cost(f.norm, pts, v, v);
    NoSquares(f.norm, Cubic(pts[0], p1, p2, pts[2]), pts, 2);
  }

  // ---------------------------------------------------------------- within tolerance under the budget

  /** A long span is solved for unless it is a single edge. */
  lemma LongIsSolved(f: Fit, chain: seq<Point>, i: nat, j: nat)
    requires Euclidean(f.norm) && i < j < |chain| && Chord(f, chain[i], chain[j]) >= MIN_CHORD
    ensures Solved(f, chain, i, j) || j == i + 1
  {
    hide Euclidean, Arc, Gap;
    ArcReaches(f.norm, chain[i..j + 1], j - i);
  }

  /** A piece emitted with more than the last segment of the budget left is within tolerance. */
  lemma LeafWithinTolerance(f: Fit, chain: seq<Point>, p: Piece, count: nat)
    requires Euclidean(f.norm) && LeastSquares(f) && f.tol >= 0.0
    requires AsLeaf(f, chain, p, count) && !p.Skipped? && count < f.maxSegments - 1
    ensures Follows(f, chain, p, f.tol)
  {
    hide Euclidean, Follows, Solved, FitCubic, MaxDistance, LeastSquares, Chord;
    if p.LinePiece? {
      LineFollows(f, chain, p.i, p.j);
      FollowsGrows(f, chain, p, p.residual, f.tol);
    } else {
      LongIsSolved(f, chain, p.i, p.j);
      if Solved(f, chain, p.i, p.j) {
        if p.j == p.i + 2 { TwoEdgesFit(f, chain, p.i); }
        SolvedFollows(f, chain, p.i, p.j);
        SolvedIsWide(f, chain, p.i, p.j);
        FollowsGrows(f, chain, p, p.residual, f.tol);
      } else {
        UnsolvedFollows(f, chain, p.i, p.j);
        FollowsGrows(f, chain, p, 0.0, f.tol);
      }
    }
  }

  lemma SolvedIsWide(f: Fit, chain: seq<Point>, i: nat, j: nat)
    requires i < j < |chain| && Solved(f, chain, i, j)
    ensures j - i >= 2
  {}

  /** Every vertex of a span emitted with more than the last segment of the budget left is within
      tolerance of its segment. */
  lemma PiecesWithinTolerance(f: Fit, chain: seq<Point>, i0: nat, i1: nat, count: nat, k: nat)
    requires Euclidean(f.norm) && LeastSquares(f) && f.tol >= 0.0
    requires i0 < i1 < |chain| && k < |Pieces(f, chain, i0, i1, count)|
    ensures var ps := Pieces(f, chain, i0, i1, count);
            && ps[k].i < ps[k].j < |chain|
            && (!ps[k].Skipped? && count + Emitted(ps[..k]) < f.maxSegments - 1
                ==> Follows(f, chain, ps[k], f.tol))
  {
    hide Pieces, Euclidean, Follows, AsLeaf, LeastSquares;
    var ps := Pieces(f, chain, i0, i1, count);
    PiecesAreLeaves(f, chain, i0, i1, count);
    assert LeafAt(f, chain, ps, count, k);
    LeafIsOrdered(f, chain, ps[k], count + Emitted(ps[..k]));
    if !ps[k].Skipped? && count + Emitted(ps[..k]) < f.maxSegments - 1 {
      LeafWithinTolerance(f, chain, ps[k], count + Emitted(ps[..k]));
    }
  }

  // ---------------------------------------------------------------- every vertex of the polygon

  /** Some segment passes within d of the point. */
  ghost predicate Reached(norm: Norm, segs: seq<Segment>, p: Point, d: real) {
    exists s :: s in segs && Near(norm, s, p, d)
  }

  lemma {:induction false} TileOf(ps: seq<Piece>, i0: nat, i1: nat, q: nat) returns (k: nat)
    requires Tiles(ps, i0, i1) && i0 <= q <= i1
    ensures k < |ps| && ps[k].i <= q <= ps[k].j
  {
    k := |ps| - 1;
    if q < ps[k].i {
      assert k > 0 && ps[k - 1].j == ps[k].i;
      k := TileOf(ps[..k], i0, ps[k - 1].j, q);
    }
  }

  lemma {:induction false} SegmentIsListed(chain: seq<Point>, ps: seq<Piece>, k: nat)
    requires InChain(chain, ps) && k < |ps| && !ps[k].Skipped?
    ensures ToSegment(chain, ps[k]) in SegmentsOf(chain, ps)
    ensures Emitted(ps[..k]) + 1 <= Emitted(ps)
  {
    hide ToSegment;
    var n := |ps| - 1;
    if k < n {
      SegmentIsListed(chain, ps[..n], k);
      assert ps[..n][..k] == ps[..k];
    }
  }

  lemma HalfIsReached(f: Fit, chain: seq<Point>, ps: seq<Piece>, m: nat, d: real, q: nat)
    requires Tiles(ps, 0, m) && m < |chain| && InChain(chain, ps) && NoneSkipped(ps) && q <= m
    requires forall k: nat | k < |ps| :: ps[k].i <= ps[k].j && Follows(f, chain, ps[k], d)
    ensures Reached(f.norm, SegmentsOf(chain, ps), chain[q], d)
  {
    hide Near, ToSegment, Tiles, SegmentsOf;
    var k := TileOf(ps, 0, m, q);
    SegmentIsListed(chain, ps, k);
    assert Follows(f, chain, ps[k], d);
  }

  lemma ReachedByPart(norm: Norm, s: seq<Segment>, t: seq<Segment>, p: Point, d: real)
    requires Reached(norm, s, p, d) || Reached(norm, t, p, d)
    ensures Reached(norm, s + t, p, d)
  {
    hide Near;
    if Reached(norm, s, p, d) {
      var x :| x in s && Near(norm, x, p, d);
      assert x in s + t;
    } else {
      var x :| x in t && Near(norm, x, p, d);
      assert x in s + t;
    }
  }

  /** The pieces of one half all follow their vertices up to d. */
  ghost predicate HalfFollows(f: Fit, chain: seq<Point>, ps: seq<Piece>, d: real) {
    forall k: nat | k < |ps| ::
      !ps[k].Skipped? && ps[k].i < ps[k].j < |chain| && Follows(f, chain, ps[k], d)
  }

  lemma LoopIsReached(f: Fit, poly: seq<Point>, segs: seq<Segment>, d: real, v: Point)
    requires |poly| >= 3 && FittedLoop(f, poly, segs) && v in poly
    requires HalfFollows(f, ChainA(poly), PiecesA(f, poly), d) && HalfFollows(f, ChainB(poly), PiecesB(f, poly), d)
    ensures Reached(f.norm, segs, v, d)
  {
    hide Pieces, Follows, Tiles, InChain, SegmentsOf, Reached, Rotated, PiecesA, PiecesB;
    var (o, n) := (Opposite(|poly|), |poly|);
    HalvesInChain(f, poly);
    var q := RotatedIndex(poly, v);
    if q <= o {
      assert ChainA(poly)[q] == v;
      HalfIsReached(f, ChainA(poly), PiecesA(f, poly), o, d, q);
    } else {
      assert ChainB(poly)[q - o] == v;
      HalfIsReached(f, ChainB(poly), PiecesB(f, poly), n - o, d, q - o);
    }
    ReachedByPart(f.norm, SegmentsOf(ChainA(poly), PiecesA(f, poly)),
                  SegmentsOf(ChainB(poly), PiecesB(f, poly)), v, d);
  }

  lemma RotatedIndex(poly: seq<Point>, v: Point) returns (q: nat)
    requires |poly| >= 3 && v in poly
    ensures q < |poly| && Rotated(poly)[q] == v
  {
    assert v in multiset(poly);
    assert v in multiset(Rotated(poly));
    q :| q < |poly| && Rotated(poly)[q] == v;
  }

  lemma HalfHonest(f: Fit, chain: seq<Point>, m: nat, count: nat, w: real, d: real)
    requires Euclidean(f.norm) && 0 < m < |chain| && NoneSkipped(Pieces(f, chain, 0, m, count))
    requires RealMax(Worst(w, Pieces(f, chain, 0, m, count)), MIN_LENGTH) <= d
    ensures HalfFollows(f, chain, Pieces(f, chain, 0, m, count), d)
  {
    hide Pieces, Follows, Euclidean, Worst;
    var ps := Pieces(f, chain, 0, m, count);
    forall k: nat | k < |ps|
      ensures !ps[k].Skipped? && ps[k].i < ps[k].j < |chain| && Follows(f, chain, ps[k], d)
    {
      ResidualIsHonest(f, chain, 0, m, count, w, k);
      FollowsGrows(f, chain, ps[k], RealMax(Worst(w, ps), MIN_LENGTH), d);
    }
  }

  /** The residual reported for a polygon bounds how far any of its vertices is from the fitted
      segments, up to MIN_LENGTH. */
  lemma PolygonResidualIsHonest(f: Fit, poly: seq<Point>, segs: seq<Segment>, v: Point)
    requires Euclidean(f.norm) && Coarse(f) && |poly| >= 3 && FittedLoop(f, poly, segs)
    requires segs != [] && v in poly
    ensures Reached(f.norm, segs, v, RealMax(Worst(Worst(0.0, PiecesA(f, poly)), PiecesB(f, poly)), 0.000000001))
  {
    hide Pieces, Follows, Euclidean, Worst, FittedLoop, Reached, Rotated, HalfFollows;
    var (o, n) := (Opposite(|poly|), |poly|);
    var (a, b) := (PiecesA(f, poly), PiecesB(f, poly));
    var w := Worst(0.0, a);
    EmptyExactly(f, poly, segs);
    HalvesInChain(f, poly);
    WorstBounds(w, b, 0);
    var d := RealMax(Worst(w, b), MIN_LENGTH);
    HalfHonest(f, ChainA(poly), o, 0, 0.0, d);
    HalfHonest(f, ChainB(poly), n - o, Emitted(a), w, d);
    LoopIsReached(f, poly, segs, d, v);
  }

  /** The residual is what one vertex of the piece's span misses its segment by: its distance from the
      line, or from the cubic at its own parameter. */
  ghost predicate Attains(f: Fit, chain: seq<Point>, p: Piece, q: nat)
    requires !p.Skipped? && p.i < p.j < |chain|
  {
    p.i <= q <= p.j
    && if p.LinePiece? then p.residual == PointLineDistance(f.norm, chain[q], chain[p.i], chain[p.j])
       else if Solved(f, chain, p.i, p.j)
       then p.residual == Miss(f.norm, ToSegment(chain, p), chain[p.i..p.j + 1], q - p.i)
       else p.residual == 0.0
  }

  lemma {:induction false} DeviationIsAttained(norm: Norm, s: Segment, pts: seq<Point>, k: nat) returns (q: nat)
    requires k < |pts| && Arc(norm, pts, |pts| - 1) >= MIN_LENGTH
    ensures q <= k && Deviation(norm, s, pts, k) == Miss(norm, s, pts, q)
  {
    hide Miss;
    q := k;
    if k > 0 {
      var before := DeviationIsAttained(norm, s, pts, k - 1);
      if Deviation(norm, s, pts, k - 1) >= Miss(norm, s, pts, k) { q := before; }
    }
  }

  lemma LeafIsAttained(f: Fit, chain: seq<Point>, i: nat, j: nat, count: nat) returns (q: nat)
    requires i < j < |chain| && !Leaf(f, chain, i, j, count).Skipped?
    ensures Attains(f, chain, Leaf(f, chain, i, j, count), q)
  {
    hide Miss, PointLineDistance, Gap, Arc;
    var p := Leaf(f, chain, i, j, count);
    if p.LinePiece? {
      q := Farthest(f, chain, i, j, j);
    } else if Solved(f, chain, i, j) {
      q := DeviationIsAttained(f.norm, ToSegment(chain, p), chain[i..j + 1], j - i);
      q := q + i;
    } else {
      q := i;
    }
  }

  /** The worst residual of a span is its start value or that of a vertex it misses by as much. */
  lemma {:induction false} WorstIsAttained(f: Fit, chain: seq<Point>, ps: seq<Piece>, count: nat, w: real)
    requires AllLeaves(f, chain, ps, count) && Worst(w, ps) != w
    ensures exists k: nat, q: nat :: k < |ps| && !ps[k].Skipped? && ps[k].i < ps[k].j < |chain|
              && ps[k].residual == Worst(w, ps) && Attains(f, chain, ps[k], q)
  {
    hide Attains, Leaf, Splits, Emitted;
    var n := |ps| - 1;
    assert LeafAt(f, chain, ps, count, n);
    if !ps[n].Skipped? && Worst(w, ps) == ps[n].residual {
      var q := LeafIsAttained(f, chain, ps[n].i, ps[n].j, count + Emitted(ps[..n]));
      assert Attains(f, chain, ps[n], q);
    } else {
      forall k: nat | k < n
        ensures LeafAt(f, chain, ps[..n], count, k)
      {
        assert LeafAt(f, chain, ps, count, k) && ps[..n][..k] == ps[..k];
      }
      WorstIsAttained(f, chain, ps[..n], count, w);
      var k: nat, q: nat :| k < n && !ps[..n][k].Skipped? && ps[..n][k].i < ps[..n][k].j < |chain|
              && ps[..n][k].residual == Worst(w, ps[..n]) && Attains(f, chain, ps[..n][k], q);
      assert Attains(f, chain, ps[k], q);
    }
  }

  /** The residual of a polygon is 0 or the miss of a vertex in one of its two halves. */
  lemma ResidualIsAttained(f: Fit, poly: seq<Point>)
    requires |poly| >= 3
    ensures var (a, b) := (PiecesA(f, poly), PiecesB(f, poly));
      var worst := Worst(Worst(0.0, a), b);
      || worst == 0.0
      || (exists k: nat, q: nat :: k < |a| && !a[k].Skipped? && a[k].i < a[k].j < |ChainA(poly)|
            && a[k].residual == worst && Attains(f, ChainA(poly), a[k], q))
      || (exists k: nat, q: nat :: k < |b| && !b[k].Skipped? && b[k].i < b[k].j < |ChainB(poly)|
            && b[k].residual == worst && Attains(f, ChainB(poly), b[k], q))
  {
    hide Pieces, AllLeaves, Worst, Attains, Rotated;
    var (a, b, o, n) := (PiecesA(f, poly), PiecesB(f, poly), Opposite(|poly|), |poly|);
    PiecesAreLeaves(f, ChainA(poly), 0, o, 0);
    PiecesAreLeaves(f, ChainB(poly), 0, n - o, Emitted(a));
    if Worst(Worst(0.0, a), b) != Worst(0.0, a) {
      WorstIsAttained(f, ChainB(poly), b, Emitted(a), Worst(0.0, a));
    } else if Worst(0.0, a) != 0.0 {
      WorstIsAttained(f, ChainA(poly), a, 0, 0.0);
    }
  }

  lemma HalfWithin(f: Fit, chain: seq<Point>, m: nat, count: nat)
    requires Euclidean(f.norm) && LeastSquares(f) && f.tol >= 0.0
    requires 0 < m < |chain| && NoneSkipped(Pieces(f, chain, 0, m, count))
    requires count + Emitted(Pieces(f, chain, 0, m, count)) < f.maxSegments
    ensures HalfFollows(f, chain, Pieces(f, chain, 0, m, count), f.tol)
  {
    hide Pieces, Follows, Euclidean, LeastSquares, Emitted;
    var ps := Pieces(f, chain, 0, m, count);
    PiecesInChain(f, chain, 0, m, count);
    forall k: nat | k < |ps|
      ensures !ps[k].Skipped? && ps[k].i < ps[k].j < |chain| && Follows(f, chain, ps[k], f.tol)
    {
      SegmentIsListed(chain, ps, k);
      PiecesWithinTolerance(f, chain, 0, m, count, k);
    }
  }

  /** A fit that stays below its budget is within tolerance of every vertex of the polygon. */
  lemma PolygonWithinTolerance(f: Fit, poly: seq<Point>, segs: seq<Segment>, v: Point)
    requires Euclidean(f.norm) && LeastSquares(f) && f.tol >= 0.000001
    requires |poly| >= 3 && FittedLoop(f, poly, segs) && 0 < |segs| < f.maxSegments && v in poly
    ensures Reached(f.norm, segs, v, f.tol)
  {
    hide Pieces, Follows, Euclidean, Emitted, Reached, Rotated, HalfFollows, LeastSquares, SegmentsOf;
    var (o, n) := (Opposite(|poly|), |poly|);
    EmptyExactly(f, poly, segs);
    HalvesInChain(f, poly);
    HalfWithin(f, ChainA(poly), o, 0);
    HalfWithin(f, ChainB(poly), n - o, Emitted(PiecesA(f, poly)));
    LoopIsReached(f, poly, segs, f.tol, v);
  }
}
