/** Error-bounded fit of one closed polygon by recursive chord splitting. */
module CurveFit {
  import opened Outline
  import opened Euclid

  const MIN_CHORD := 0.000001
  const MIN_LENGTH := 0.000000001
  const MIN_DENOMINATOR := 0.000000000001

  /** The norm, the least-squares solver for the two inner control points of a cubic over a
      slice, and the two bounds of the fit. */
  datatype Fit = Fit(
    norm: (real, real) -> real, solve: seq<Point> -> (Point, Point), tol: real, maxSegments: int)

  function PointLineDistance(norm: (real, real) -> real, p: Point, a: Point, b: Point): real {
    if Gap(norm, a, b) < MIN_DENOMINATOR then Gap(norm, a, p)
    else Abs((p.x - a.x) * (b.y - a.y) - (p.y - a.y) * (b.x - a.x)) / Gap(norm, a, b)
  }

  /** What happened to the polygon vertices i..j: one segment, or nothing for a closed chord. */
  datatype Piece =
    | LinePiece(i: nat, j: nat, residual: real)
    | CubicPiece(i: nat, j: nat, residual: real, p1: Point, p2: Point)
    | Skipped(i: nat, j: nat)

  function RealMax(a: real, b: real): real { if a >= b then a else b }

  function Chord(f: Fit, a: Point, b: Point): real { Gap(f.norm, a, b) }

  /** Distance of sample q from the chord of i0 and i1. */
  function Distance(f: Fit, chain: seq<Point>, i0: nat, i1: nat, q: nat): real
    requires i0 < |chain| && i1 < |chain| && q < |chain|
  {
    PointLineDistance(f.norm, chain[q], chain[i0], chain[i1])
  }

  /** First sample of chain[i0..k] farthest from the chord of i0 and i1. */
  function Farthest(f: Fit, chain: seq<Point>, i0: nat, i1: nat, k: nat): (m: nat)
    requires i0 <= k <= i1 < |chain|
    ensures i0 <= m <= k
    decreases k - i0
  {
    if k == i0 then i0 else
    var m := Farthest(f, chain, i0, i1, k - 1);
    if Distance(f, chain, i0, i1, k) > Distance(f, chain, i0, i1, m) then k else m
  }

  lemma {:induction false} FarthestIsMax(f: Fit, chain: seq<Point>, i0: nat, i1: nat, k: nat, q: nat)
    requires i0 <= q <= k <= i1 < |chain|
    ensures Distance(f, chain, i0, i1, q) <= Distance(f, chain, i0, i1, Farthest(f, chain, i0, i1, k))
    decreases k
  {
    hide Distance;
    if q < k { FarthestIsMax(f, chain, i0, i1, k - 1, q); }
  }

  /** Length of the path through the first k + 1 points. */
  function Arc(norm: (real, real) -> real, pts: seq<Point>, k: nat): real
    requires k < |pts|
  {
    if k == 0 then 0.0 else Arc(norm, pts, k - 1) + Gap(norm, pts[k - 1], pts[k])
  }

  /** Chord-length parameter of point k. */
  function Param(norm: (real, real) -> real, pts: seq<Point>, k: nat): real
    requires k < |pts| && Arc(norm, pts, |pts| - 1) >= MIN_LENGTH
  {
    Arc(norm, pts, k) / Arc(norm, pts, |pts| - 1)
  }

  /** By how much a segment misses point k at its parameter. */
  function Miss(norm: (real, real) -> real, s: Segment, pts: seq<Point>, k: nat): real
    requires k < |pts| && Arc(norm, pts, |pts| - 1) >= MIN_LENGTH
  {
    Gap(norm, pts[k], Evaluate(s, Param(norm, pts, k)))
  }

  /** The largest miss at the first k + 1 points. */
  function Deviation(norm: (real, real) -> real, s: Segment, pts: seq<Point>, k: nat): real
    requires k < |pts| && Arc(norm, pts, |pts| - 1) >= MIN_LENGTH
  {
    if k == 0 then Miss(norm, s, pts, 0) else RealMax(Deviation(norm, s, pts, k - 1), Miss(norm, s, pts, k))
  }

  /** A slice without length, or with its two end points only, is not solved for. */
  predicate Solved(f: Fit, chain: seq<Point>, i: nat, j: nat)
    requires i < j < |chain|
  {
    j - i + 1 > 2 && Arc(f.norm, chain[i..j + 1], j - i) >= MIN_LENGTH
  }

  /** Cubic over a slice, with its end points pinned. */
  function FitCubic(f: Fit, chain: seq<Point>, i: nat, j: nat): (c: Piece)
    requires i < j < |chain|
    ensures c.CubicPiece? && c.i == i && c.j == j
  {
    if !Solved(f, chain, i, j) then CubicPiece(i, j, 0.0, chain[i], chain[j]) else
    var pts := chain[i..j + 1];
    var (p1, p2) := f.solve(pts);
    CubicPiece(i, j, Deviation(f.norm, Cubic(chain[i], p1, p2, chain[j]), pts, j - i), p1, p2)
  }

  /** A slice of at least three points and a path of at least 1e-9 is solved for. */
  lemma SolvedExactly(f: Fit, chain: seq<Point>, i: nat, j: nat)
    requires i < j < |chain|
    ensures FitCubic(f, chain, i, j).residual != 0.0
        ==> j >= i + 2 && Arc(f.norm, chain[i..j + 1], j - i) >= 0.000000001
    ensures j >= i + 2 && Arc(f.norm, chain[i..j + 1], j - i) >= 0.000000001 ==>
      var (c, pts) := (FitCubic(f, chain, i, j), chain[i..j + 1]);
      (c.p1, c.p2) == f.solve(pts) && c.residual == Deviation(f.norm, Cubic(chain[i], c.p1, c.p2, chain[j]), pts, j - i)
  {
    hide Arc, Deviation;
  }

  /** Distance from the chord: the height over it, or from its one point when it is shorter than 1e-12. */
  lemma DistanceExactly(norm: (real, real) -> real, p: Point, a: Point, b: Point)
    ensures Gap(norm, a, b) < 0.000000000001 ==> PointLineDistance(norm, p, a, b) == Gap(norm, a, p)
    ensures Gap(norm, a, b) >= 0.000000000001 ==>
      PointLineDistance(norm, p, a, b) * Gap(norm, a, b) == Abs((p.x - a.x) * (b.y - a.y) - (p.y - a.y) * (b.x - a.x))
  {}

  function ToSegment(chain: seq<Point>, p: Piece): Segment
    requires !p.Skipped? && p.i < |chain| && p.j < |chain|
  {
    if p.LinePiece? then Line(chain[p.i], chain[p.j]) else Cubic(chain[p.i], p.p1, p.p2, chain[p.j])
  }

  function SplitAt(i0: nat, i1: nat, farthest: nat): (m: nat)
    requires i1 - i0 > 2
    ensures i0 < m < i1
  {
    if farthest <= i0 || farthest >= i1 then (i0 + i1) / 2 else farthest
  }

  function Emitted(ps: seq<Piece>): nat {
    if ps == [] then 0
    else Emitted(ps[..|ps| - 1]) + if ps[|ps| - 1].Skipped? then 0 else 1
  }

  /** The one piece of a span that is not split. */
  function Leaf(f: Fit, chain: seq<Point>, i0: nat, i1: nat, count: nat): (p: Piece)
    requires i0 < i1 < |chain|
    ensures p.i == i0 && p.j == i1
  {
    if count >= f.maxSegments then FitCubic(f, chain, i0, i1)
    else if Chord(f, chain[i0], chain[i1]) < MIN_CHORD then Skipped(i0, i1)
    else if MaxDistance(f, chain, i0, i1) <= f.tol then LinePiece(i0, i1, MaxDistance(f, chain, i0, i1))
    else FitCubic(f, chain, i0, i1)
  }

  function MaxDistance(f: Fit, chain: seq<Point>, i0: nat, i1: nat): real
    requires i0 < i1 < |chain|
  {
    Distance(f, chain, i0, i1, Farthest(f, chain, i0, i1, i1))
  }

  /** The span is neither closed nor within tolerance, and long enough to split. */
  predicate NeedsSplit(f: Fit, chain: seq<Point>, i0: nat, i1: nat)
    requires i0 < i1 < |chain|
  {
    && Chord(f, chain[i0], chain[i1]) >= MIN_CHORD
    && MaxDistance(f, chain, i0, i1) > f.tol
    && FitCubic(f, chain, i0, i1).residual > f.tol
    && i1 - i0 > 2
  }

  predicate Splits(f: Fit, chain: seq<Point>, i0: nat, i1: nat, count: nat)
    requires i0 < i1 < |chain|
  {
    count < f.maxSegments - 1 && NeedsSplit(f, chain, i0, i1)
  }

  function Middle(f: Fit, chain: seq<Point>, i0: nat, i1: nat): (m: nat)
    requires i0 < i1 < |chain| && i1 - i0 > 2
    ensures i0 < m < i1
  {
    SplitAt(i0, i1, Farthest(f, chain, i0, i1, i1))
  }

  /** The pieces of one span when count segments have been emitted before it. */
  function Pieces(f: Fit, chain: seq<Point>, i0: nat, i1: nat, count: nat): seq<Piece>
    requires i0 < i1 < |chain|
    decreases i1 - i0
  {
    if !Splits(f, chain, i0, i1, count) then [Leaf(f, chain, i0, i1, count)]
    else
      var mid := Middle(f, chain, i0, i1);
      var left := Pieces(f, chain, i0, mid, count);
      left + Pieces(f, chain, mid, i1, count + Emitted(left))
  }

  predicate InChain(chain: seq<Point>, ps: seq<Piece>) {
    forall i | 0 <= i < |ps| :: ps[i].i < |chain| && ps[i].j < |chain|
  }

  function SegmentsOf(chain: seq<Point>, ps: seq<Piece>): (segs: seq<Segment>)
    requires InChain(chain, ps)
    ensures |segs| == Emitted(ps)
  {
    if ps == [] then []
    else SegmentsOf(chain, ps[..|ps| - 1])
         + if ps[|ps| - 1].Skipped? then [] else [ToSegment(chain, ps[|ps| - 1])]
  }

  function Worst(w: real, ps: seq<Piece>): real {
    if ps == [] then w
    else var v := Worst(w, ps[..|ps| - 1]);
         if ps[|ps| - 1].Skipped? then v else RealMax(v, ps[|ps| - 1].residual)
  }

  // ---------------------------------------------------------------- pieces tile the span

  ghost predicate Tiles(ps: seq<Piece>, i0: nat, i1: nat) {
    && ps != [] && ps[0].i == i0 && ps[|ps| - 1].j == i1
    && (forall k | 0 <= k < |ps| :: ps[k].i < ps[k].j)
    && forall k | 0 <= k < |ps| - 1 :: ps[k].j == ps[k + 1].i
  }

  lemma TilesAppend(a: seq<Piece>, b: seq<Piece>, i: nat, m: nat, j: nat)
    requires Tiles(a, i, m) && Tiles(b, m, j)
    ensures Tiles(a + b, i, j)
  {
    var s := a + b;
    forall k | 0 <= k < |s| - 1
      ensures s[k].j == s[k + 1].i
    {
      if k >= |a| { assert s[k] == b[k - |a|] && s[k + 1] == b[k + 1 - |a|]; }
    }
    forall k | 0 <= k < |s|
      ensures s[k].i < s[k].j
    {
      if k >= |a| { assert s[k] == b[k - |a|]; }
    }
  }

  lemma {:induction false} PiecesTile(f: Fit, chain: seq<Point>, i0: nat, i1: nat, count: nat)
    requires i0 < i1 < |chain|
    ensures Tiles(Pieces(f, chain, i0, i1, count), i0, i1)
    decreases i1 - i0
  {
    if Splits(f, chain, i0, i1, count) {
      var mid := Middle(f, chain, i0, i1);
      var left := Pieces(f, chain, i0, mid, count);
      PiecesTile(f, chain, i0, mid, count);
      PiecesTile(f, chain, mid, i1, count + Emitted(left));
      TilesAppend(left, Pieces(f, chain, mid, i1, count + Emitted(left)), i0, mid, i1);
    }
  }

  lemma {:induction false} TilesInRange(ps: seq<Piece>, i0: nat, i1: nat)
    requires Tiles(ps, i0, i1)
    ensures |ps| <= i1 - i0
    ensures forall p | p in ps :: i0 <= p.i < p.j <= i1
  {
    var n := |ps| - 1;
    if n > 0 {
      assert ps[n - 1].j == ps[n].i;
      TilesInRange(ps[..n], i0, ps[n - 1].j);
      assert ps == ps[..n] + [ps[n]];
    } else {
      assert ps == [ps[0]];
    }
  }

  lemma {:induction false} EmittedAppend(a: seq<Piece>, b: seq<Piece>)
    ensures Emitted(a + b) == Emitted(a) + Emitted(b)
  {
    if b == [] {
      assert a + b == a;
    } else {
      assert (a + b)[..|a + b| - 1] == a + b[..|b| - 1];
      EmittedAppend(a, b[..|b| - 1]);
    }
  }

  /** Once only the last segment of the budget is left, a span yields a single piece. */
  lemma NoSplitAtBudget(f: Fit, chain: seq<Point>, i0: nat, i1: nat, count: nat)
    requires i0 < i1 < |chain| && count >= f.maxSegments - 1
    ensures |Pieces(f, chain, i0, i1, count)| == 1
    ensures count >= f.maxSegments ==> Emitted(Pieces(f, chain, i0, i1, count)) == 1
  {
    var p := Leaf(f, chain, i0, i1, count);
    assert [p][..0] == [];
  }

  /** The piece is what a span ends in when count segments have been emitted before it. */
  ghost predicate AsLeaf(f: Fit, chain: seq<Point>, p: Piece, count: nat) {
    && p.i < p.j < |chain| && !Splits(f, chain, p.i, p.j, count)
    && p == Leaf(f, chain, p.i, p.j, count)
  }

  /** Piece k is, count segments having been emitted before the first. */
  ghost predicate LeafAt(f: Fit, chain: seq<Point>, ps: seq<Piece>, count: nat, k: nat)
    requires k < |ps|
  {
    AsLeaf(f, chain, ps[k], count + Emitted(ps[..k]))
  }

  ghost predicate AllLeaves(f: Fit, chain: seq<Point>, ps: seq<Piece>, count: nat) {
    forall k: nat | k < |ps| :: LeafAt(f, chain, ps, count, k)
  }

  lemma PieceOfSplit(left: seq<Piece>, right: seq<Piece>, k: nat)
    requires k < |left + right|
    ensures k < |left| ==> (left + right)[..k] == left[..k] && (left + right)[k] == left[k]
    ensures k >= |left| ==> (left + right)[k] == right[k - |left|]
    ensures k >= |left| ==> Emitted((left + right)[..k]) == Emitted(left) + Emitted(right[..k - |left|])
  {
    if k < |left| {
      assert (left + right)[..k] == left[..k];
    } else {
      assert (left + right)[..k] == left + right[..k - |left|];
      EmittedAppend(left, right[..k - |left|]);
    }
  }

  lemma LeafOfAppend(f: Fit, chain: seq<Point>, left: seq<Piece>, right: seq<Piece>, count: nat, k: nat)
    requires k < |left + right|
    requires k < |left| ==> LeafAt(f, chain, left, count, k)
    requires k >= |left| ==> LeafAt(f, chain, right, count + Emitted(left), k - |left|)
    ensures LeafAt(f, chain, left + right, count, k)
  {
    hide AsLeaf, Emitted;
    PieceOfSplit(left, right, k);
  }

  lemma LeavesAppend(f: Fit, chain: seq<Point>, left: seq<Piece>, right: seq<Piece>, count: nat)
    requires AllLeaves(f, chain, left, count) && AllLeaves(f, chain, right, count + Emitted(left))
    ensures AllLeaves(f, chain, left + right, count)
  {
    hide LeafAt, Emitted;
    forall k: nat | k < |left + right|
      ensures LeafAt(f, chain, left + right, count, k)
    {
      LeafOfAppend(f, chain, left, right, count, k);
    }
  }

  lemma {:induction false} PiecesAreLeaves(f: Fit, chain: seq<Point>, i0: nat, i1: nat, count: nat)
    requires i0 < i1 < |chain|
    ensures AllLeaves(f, chain, Pieces(f, chain, i0, i1, count), count)
    decreases i1 - i0
  {
    hide Pieces, Leaf, Middle, Splits, AllLeaves;
    if Splits(f, chain, i0, i1, count) {
      SplitsIsWide(f, chain, i0, i1, count);
      var mid := Middle(f, chain, i0, i1);
      var left := Pieces(f, chain, i0, mid, count);
      PiecesSplit(f, chain, i0, i1, count);
      PiecesAreLeaves(f, chain, i0, mid, count);
      PiecesAreLeaves(f, chain, mid, i1, count + Emitted(left));
      LeavesAppend(f, chain, left, Pieces(f, chain, mid, i1, count + Emitted(left)), count);
    } else {
      PiecesLeaf(f, chain, i0, i1, count);
      LeafAlone(f, chain, i0, i1, count);
    }
  }

  lemma LeafAlone(f: Fit, chain: seq<Point>, i0: nat, i1: nat, count: nat)
    requires i0 < i1 < |chain| && !Splits(f, chain, i0, i1, count)
    ensures AllLeaves(f, chain, [Leaf(f, chain, i0, i1, count)], count)
  {
    hide Splits;
    var ps := [Leaf(f, chain, i0, i1, count)];
    assert ps[..0] == [];
  }

  /** The reported residual bounds every emitted piece. */
  lemma {:induction false} WorstBounds(w: real, ps: seq<Piece>, k: nat)
    requires k < |ps|
    ensures w <= Worst(w, ps) && (!ps[k].Skipped? ==> ps[k].residual <= Worst(w, ps))
  {
    if k < |ps| - 1 {
      WorstBounds(w, ps[..|ps| - 1], k);
    } else if k > 0 {
      WorstBounds(w, ps[..|ps| - 1], 0);
    }
  }

  // ---------------------------------------------------------------- the fitter

  /** The shared segment list and residual of one fit. */
  class Fitter {
    const f: Fit
    var segments: seq<Segment>
    var worst: real

    constructor (f: Fit)
      ensures this.f == f && segments == [] && worst == 0.0
    {
      this.f := f;
      segments, worst := [], 0.0;
    }

    method Emit(chain: seq<Point>, p: Piece)
      requires !p.Skipped? && p.i < |chain| && p.j < |chain|
      modifies this
      ensures segments == old(segments) + [ToSegment(chain, p)] && worst == RealMax(old(worst), p.residual)
    {
      segments := segments + [ToSegment(chain, p)];
      worst := RealMax(worst, p.residual);
    }

    /** The branches that end a span without a split. */
    method Accept(chain: seq<Point>, i0: nat, i1: nat) returns (done: bool)
      requires i0 < i1 < |chain|
      modifies this
      ensures done <==> !Splits(f, chain, i0, i1, |old(segments)|)
      ensures done ==>
                var p := Leaf(f, chain, i0, i1, |old(segments)|);
                && segments == old(segments) + (if p.Skipped? then [] else [ToSegment(chain, p)])
                && worst == if p.Skipped? then old(worst) else RealMax(old(worst), p.residual)
      ensures !done ==> segments == old(segments) && worst == old(worst)
    {
      if |segments| >= f.maxSegments {
        Emit(chain, FitCubic(f, chain, i0, i1));
        return true;
      }
      if Chord(f, chain[i0], chain[i1]) < MIN_CHORD {
        return true;
      }
      var dist := MaxDistance(f, chain, i0, i1);
      if dist <= f.tol {
        Emit(chain, LinePiece(i0, i1, dist));
        return true;
      }
      var c := FitCubic(f, chain, i0, i1);
      if c.residual <= f.tol || i1 - i0 <= 2 || |segments| >= f.maxSegments - 1 {
        Emit(chain, c);
        return true;
      }
      return false;
    }

    method Span(chain: seq<Point>, i0: nat, i1: nat)
      requires i0 < i1 < |chain|
      modifies this
      ensures Grown(chain, Pieces(f, chain, i0, i1, |old(segments)|), old(segments), old(worst))
      decreases i1 - i0
    {
      hide Pieces, Leaf, Splits, Middle, SegmentsOf, Worst, InChain;
      ghost var count, s0, w0 := |segments|, segments, worst;
      var done := Accept(chain, i0, i1);
      if done {
        LeafEffect(f, chain, i0, i1, count, w0);
        return;
      }
      PiecesSplit(f, chain, i0, i1, count);
      SplitsIsWide(f, chain, i0, i1, count);
      var mid := SplitAt(i0, i1, Farthest(f, chain, i0, i1, i1));
      Span(chain, i0, mid);
      ghost var left, s1, w1 := Pieces(f, chain, i0, mid, count), segments, worst;
      assert Grown(chain, left, s0, w0);
      Span(chain, mid, i1);
      AppendEffect(chain, left, Pieces(f, chain, mid, i1, |s1|), w0);
    }

    /** The pieces have been added to the segments and to the residual. */
    ghost predicate Grown(chain: seq<Point>, ps: seq<Piece>, s0: seq<Segment>, w0: real)
      reads this
    {
      InChain(chain, ps) && segments == s0 + SegmentsOf(chain, ps) && worst == Worst(w0, ps)
    }
  }

  lemma LeafEffect(f: Fit, chain: seq<Point>, i0: nat, i1: nat, count: nat, w: real)
    requires i0 < i1 < |chain| && !Splits(f, chain, i0, i1, count)
    ensures var ps, p := Pieces(f, chain, i0, i1, count), Leaf(f, chain, i0, i1, count);
            && ps == [p] && InChain(chain, ps)
            && SegmentsOf(chain, ps) == (if p.Skipped? then [] else [ToSegment(chain, p)])
            && Worst(w, ps) == if p.Skipped? then w else RealMax(w, p.residual)
  {
    var p := Leaf(f, chain, i0, i1, count);
    assert [p][..0] == [] && SegmentsOf(chain, []) == [] && Worst(w, []) == w;
  }

  lemma PiecesInChain(f: Fit, chain: seq<Point>, i0: nat, i1: nat, count: nat)
    requires i0 < i1 < |chain|
    ensures InChain(chain, Pieces(f, chain, i0, i1, count))
  {
    PiecesTile(f, chain, i0, i1, count);
    TilesInRange(Pieces(f, chain, i0, i1, count), i0, i1);
  }

  lemma PiecesSplit(f: Fit, chain: seq<Point>, i0: nat, i1: nat, count: nat)
    requires i0 < i1 < |chain| && Splits(f, chain, i0, i1, count)
    ensures var mid := Middle(f, chain, i0, i1);
            var left := Pieces(f, chain, i0, mid, count);
            Pieces(f, chain, i0, i1, count) == left + Pieces(f, chain, mid, i1, count + Emitted(left))
  {
    hide Splits, Leaf, Middle, Emitted;
  }

  lemma PiecesLeaf(f: Fit, chain: seq<Point>, i0: nat, i1: nat, count: nat)
    requires i0 < i1 < |chain| && !Splits(f, chain, i0, i1, count)
    ensures Pieces(f, chain, i0, i1, count) == [Leaf(f, chain, i0, i1, count)]
  {
    hide Splits, Leaf;
  }

  lemma SplitsIsWide(f: Fit, chain: seq<Point>, i0: nat, i1: nat, count: nat)
    requires i0 < i1 < |chain| && Splits(f, chain, i0, i1, count)
    ensures i1 - i0 > 2 && Middle(f, chain, i0, i1) == SplitAt(i0, i1, Farthest(f, chain, i0, i1, i1))
  {}

  lemma AppendEffect(chain: seq<Point>, left: seq<Piece>, right: seq<Piece>, w: real)
    requires InChain(chain, left) && InChain(chain, right)
    ensures InChain(chain, left + right)
    ensures SegmentsOf(chain, left + right) == SegmentsOf(chain, left) + SegmentsOf(chain, right)
    ensures Worst(w, left + right) == Worst(Worst(w, left), right)
  {
    SegmentsAppend(chain, left, right);
    WorstAppend(w, left, right);
  }

  lemma {:induction false} SegmentsAppend(chain: seq<Point>, a: seq<Piece>, b: seq<Piece>)
    requires InChain(chain, a)
    requires InChain(chain, b)
    ensures SegmentsOf(chain, a + b) == SegmentsOf(chain, a) + SegmentsOf(chain, b)
  {
    if b == [] {
      assert a + b == a;
    } else {
      assert (a + b)[..|a + b| - 1] == a + b[..|b| - 1];
      SegmentsAppend(chain, a, b[..|b| - 1]);
    }
  }

  lemma {:induction false} WorstAppend(w: real, a: seq<Piece>, b: seq<Piece>)
    ensures Worst(w, a + b) == Worst(Worst(w, a), b)
  {
    if b == [] {
      assert a + b == a;
    } else {
      assert (a + b)[..|a + b| - 1] == a + b[..|b| - 1];
      WorstAppend(w, a, b[..|b| - 1]);
    }
  }

  // ---------------------------------------------------------------- the closed loop

  function SumX(poly: seq<Point>): real { if poly == [] then 0.0 else poly[0].x + SumX(poly[1..]) }

  function SumY(poly: seq<Point>): real { if poly == [] then 0.0 else poly[0].y + SumY(poly[1..]) }

  function Square(v: real): real { v * v }

  /** First of the first k vertices that is farthest from the centre. */
  function AnchorUpTo(poly: seq<Point>, center: Point, k: nat): (a: nat)
    requires 1 <= k <= |poly|
    ensures a < k
  {
    if k == 1 then 0 else
    var a := AnchorUpTo(poly, center, k - 1);
    if FromCenter(poly[k - 1], center) > FromCenter(poly[a], center) then k - 1 else a
  }

  function FromCenter(p: Point, c: Point): real { Square(p.x - c.x) + Square(p.y - c.y) }

  function Rotated(poly: seq<Point>): (r: seq<Point>)
    requires |poly| >= 3
    ensures |r| == |poly| && multiset(r) == multiset(poly)
  {
    var n := |poly|;
    var a := AnchorUpTo(poly, Point(SumX(poly) / n as real, SumY(poly) / n as real), n);
    assert poly == poly[..a] + poly[a..];
    poly[a..] + poly[..a]
  }

  lemma {:induction false} SumsAdd(p: seq<Point>, q: seq<Point>)
    ensures SumX(p + q) == SumX(p) + SumX(q) && SumY(p + q) == SumY(p) + SumY(q)
  {
    if p == [] {
      assert p + q == q;
    } else {
      assert (p + q)[1..] == p[1..] + q;
      SumsAdd(p[1..], q);
    }
  }

  /** The coordinates of the centre add up, n times over, to those of all vertices. */
  ghost predicate IsCentroid(poly: seq<Point>, mx: real, my: real) {
    mx * |poly| as real == SumX(poly) && my * |poly| as real == SumY(poly)
  }

  /** Compared by the squared distances from the centre. */
  predicate NearerThan(p: Point, q: Point, mx: real, my: real) {
    (p.x - mx) * (p.x - mx) + (p.y - my) * (p.y - my) < (q.x - mx) * (q.x - mx) + (q.y - my) * (q.y - my)
  }

  /** No vertex is farther from the centre than this one, and every one before it is nearer. */
  ghost predicate FarthestFirst(poly: seq<Point>, mx: real, my: real, a: nat)
    requires a < |poly|
  {
    && (forall v | 0 <= v < |poly| :: !NearerThan(poly[a], poly[v], mx, my))
    && forall v | 0 <= v < a :: NearerThan(poly[v], poly[a], mx, my)
  }

  lemma ComparesCenters(p: Point, q: Point, mx: real, my: real)
    ensures NearerThan(p, q, mx, my) <==> FromCenter(p, Point(mx, my)) < FromCenter(q, Point(mx, my))
  {}

  lemma {:induction false} AnchorIsFarthest(poly: seq<Point>, c: Point, k: nat)
    requires 1 <= k <= |poly|
    ensures var a := AnchorUpTo(poly, c, k);
      forall v | 0 <= v < k ::
        FromCenter(poly[v], c) <= FromCenter(poly[a], c) && (v < a ==> FromCenter(poly[v], c) < FromCenter(poly[a], c))
  {
    hide FromCenter;
    if k > 1 { AnchorIsFarthest(poly, c, k - 1); }
  }

  lemma Mean(sum: real, n: real, m: real)
    requires n > 0.0 && m * n == sum
    ensures m == sum / n
  {}

  lemma CenterIs(poly: seq<Point>, mx: real, my: real)
    requires poly != [] && IsCentroid(poly, mx, my)
    ensures mx == SumX(poly) / |poly| as real && my == SumY(poly) / |poly| as real
  {
    hide SumX, SumY;
    Mean(SumX(poly), |poly| as real, mx);
    Mean(SumY(poly), |poly| as real, my);
  }

  lemma AnchorIsFirst(poly: seq<Point>, mx: real, my: real)
    requires poly != []
    ensures FarthestFirst(poly, mx, my, AnchorUpTo(poly, Point(mx, my), |poly|))
  {
    var a := AnchorUpTo(poly, Point(mx, my), |poly|);
    AnchorIsFarthest(poly, Point(mx, my), |poly|);
    hide FromCenter, NearerThan, AnchorUpTo;
    forall v | 0 <= v < |poly|
      ensures !NearerThan(poly[a], poly[v], mx, my) && (v < a ==> NearerThan(poly[v], poly[a], mx, my))
    {
      ComparesCenters(poly[a], poly[v], mx, my);
      ComparesCenters(poly[v], poly[a], mx, my);
    }
  }

  /** The loop is opened at the first vertex that is farthest from the centroid. */
  lemma OpenedAtFarthest(poly: seq<Point>, mx: real, my: real) returns (a: nat)
    requires |poly| >= 3 && IsCentroid(poly, mx, my)
    ensures a < |poly| && Rotated(poly) == poly[a..] + poly[..a]
    ensures FarthestFirst(poly, mx, my, a)
  {
    hide FarthestFirst, AnchorUpTo, SumX, SumY;
    CenterIs(poly, mx, my);
    a := AnchorUpTo(poly, Point(mx, my), |poly|);
    AnchorIsFirst(poly, mx, my);
    hide IsCentroid;
  }

  function Opposite(n: nat): (o: nat)
    requires n >= 3
    ensures 1 <= o < n
  {
    n / 2
  }

  function ChainA(poly: seq<Point>): seq<Point>
    requires |poly| >= 3
  {
    Rotated(poly)[..Opposite(|poly|) + 1]
  }

  function ChainB(poly: seq<Point>): seq<Point>
    requires |poly| >= 3
  {
    Rotated(poly)[Opposite(|poly|)..] + [Rotated(poly)[0]]
  }

  function PiecesA(f: Fit, poly: seq<Point>): seq<Piece>
    requires |poly| >= 3
  {
    Pieces(f, ChainA(poly), 0, Opposite(|poly|), 0)
  }

  function PiecesB(f: Fit, poly: seq<Point>): seq<Piece>
    requires |poly| >= 3
  {
    Pieces(f, ChainB(poly), 0, |poly| - Opposite(|poly|), Emitted(PiecesA(f, poly)))
  }

  lemma HalvesInChain(f: Fit, poly: seq<Point>)
    requires |poly| >= 3
    ensures InChain(ChainA(poly), PiecesA(f, poly)) && InChain(ChainB(poly), PiecesB(f, poly))
    ensures Tiles(PiecesA(f, poly), 0, Opposite(|poly|)) && Tiles(PiecesB(f, poly), 0, |poly| - Opposite(|poly|))
  {
    hide Pieces, Tiles, InChain;
    var o, n := Opposite(|poly|), |poly|;
    PiecesInChain(f, ChainA(poly), 0, o, 0);
    PiecesInChain(f, ChainB(poly), 0, n - o, Emitted(PiecesA(f, poly)));
    PiecesTile(f, ChainA(poly), 0, o, 0);
    PiecesTile(f, ChainB(poly), 0, n - o, Emitted(PiecesA(f, poly)));
  }

  /** The fitted outline of a polygon: its two halves from the anchor and back. */
  ghost predicate FittedLoop(f: Fit, poly: seq<Point>, segs: seq<Segment>)
    requires |poly| >= 3
  {
    && InChain(ChainA(poly), PiecesA(f, poly)) && InChain(ChainB(poly), PiecesB(f, poly))
    && segs == SegmentsOf(ChainA(poly), PiecesA(f, poly)) + SegmentsOf(ChainB(poly), PiecesB(f, poly))
  }

  /** The fitted outline starts and ends on that vertex when its first and last span are not skipped. */
  lemma FittedFromFarthest(f: Fit, poly: seq<Point>, segs: seq<Segment>, mx: real, my: real) returns (a: nat)
    requires |poly| >= 3 && IsCentroid(poly, mx, my) && FittedLoop(f, poly, segs)
    ensures a < |poly| && FarthestFirst(poly, mx, my, a)
    ensures PiecesA(f, poly) != [] && PiecesB(f, poly) != []
    ensures !PiecesA(f, poly)[0].Skipped? ==> segs != [] && Start(segs[0]) == poly[a]
    ensures !PiecesB(f, poly)[|PiecesB(f, poly)| - 1].Skipped? ==> segs != [] && End(segs[|segs| - 1]) == poly[a]
  {
    a := OpenedAtFarthest(poly, mx, my);
    HalvesInChain(f, poly);
    var (cA, cB, pA, pB) := (ChainA(poly), ChainB(poly), PiecesA(f, poly), PiecesB(f, poly));
    assert cA[0] == poly[a] && cB[|poly| - Opposite(|poly|)] == poly[a];
    assert pA != [] && pA[0].i == 0 && pB != [] && pB[|pB| - 1].j == |poly| - Opposite(|poly|);
    hide PiecesA, PiecesB, ChainA, ChainB, FarthestFirst, IsCentroid, Tiles, Rotated;
    if !pA[0].Skipped? { FirstSegment(cA, pA); }
    if !pB[|pB| - 1].Skipped? { LastSegment(cB, pB); }
    hide SegmentsOf;
  }

  lemma LastSegment(chain: seq<Point>, ps: seq<Piece>)
    requires ps != [] && InChain(chain, ps) && !ps[|ps| - 1].Skipped?
    ensures var s := SegmentsOf(chain, ps); s != [] && End(s[|s| - 1]) == chain[ps[|ps| - 1].j]
  {}

  lemma {:induction false} FirstSegment(chain: seq<Point>, ps: seq<Piece>)
    requires ps != [] && InChain(chain, ps) && !ps[0].Skipped?
    ensures SegmentsOf(chain, ps) != [] && Start(SegmentsOf(chain, ps)[0]) == chain[ps[0].i]
  {
    if |ps| > 1 { FirstSegment(chain, ps[..|ps| - 1]); }
  }

  datatype Residual = Finite(value: real) | Infinite

  method FitPolyline(f: Fit, poly: seq<Point>) returns (segs: seq<Segment>, residual: Residual)
    ensures |poly| < 3 ==> segs == [] && residual == Infinite
    ensures |poly| >= 3 ==> FittedLoop(f, poly, segs)
    ensures |poly| >= 3 ==> residual == Finite(Worst(Worst(0.0, PiecesA(f, poly)), PiecesB(f, poly)))
  {
    hide Pieces, SegmentsOf, Worst, InChain, Tiles;
    var n := |poly|;
    if n < 3 { return [], Infinite; }
    var rotated := Rotated(poly);
    var opp := n / 2;
    var chainA, chainB := rotated[..opp + 1], rotated[opp..] + [rotated[0]];
    HalvesInChain(f, poly);
    var fitter := new Fitter(f);
    fitter.Span(chainA, 0, opp);
    fitter.Span(chainB, 0, n - opp);
    return fitter.segments, Finite(fitter.worst);
  }
}
