/** A polygon whose fit does not close, and for which bounds the fit always closes. */
module CurveSpike {
  import opened Outline
  import opened Euclid
  import opened CurveFit
  import opened CurveDeviation
  import opened CurveClosing

  // ---------------------------------------------------------------- polygons anchored at their first vertex

  lemma {:induction false} AnchorStaysFirst(poly: seq<Point>, center: Point, k: nat)
    requires 1 <= k <= |poly|
    requires forall q | 0 <= q < |poly| :: FromCenter(poly[q], center) <= FromCenter(poly[0], center)
    ensures AnchorUpTo(poly, center, k) == 0
  {
    hide FromCenter;
    if k > 1 { AnchorStaysFirst(poly, center, k - 1); }
  }

  function Center(poly: seq<Point>): Point
    requires poly != []
  {
    Point(SumX(poly) / |poly| as real, SumY(poly) / |poly| as real)
  }

  lemma AnchoredFirst(poly: seq<Point>)
    requires |poly| >= 3
    requires forall q | 0 <= q < |poly| :: FromCenter(poly[q], Center(poly)) <= FromCenter(poly[0], Center(poly))
    ensures Rotated(poly) == poly
  {
    hide FromCenter, SumX, SumY;
    AnchorStaysFirst(poly, Center(poly), |poly|);
  }

  lemma SumTail(poly: seq<Point>, k: nat)
    requires k < |poly|
    ensures SumX(poly[k..]) == poly[k].x + SumX(poly[k + 1..])
    ensures SumY(poly[k..]) == poly[k].y + SumY(poly[k + 1..])
  {
    assert poly[k..][1..] == poly[k + 1..];
  }

  /** A point whose offsets from the centre are at most the centre's own is no farther than the origin. */
  lemma CloserThanOrigin(p: Point, c: Point)
    requires Abs(p.x - c.x) <= Abs(c.x) && Abs(p.y - c.y) <= Abs(c.y)
    ensures FromCenter(p, c) <= FromCenter(Point(0.0, 0.0), c)
  {
    hide Abs;
    SquareGrows(p.x - c.x, c.x);
    SquareGrows(p.y - c.y, c.y);
    assert Square(0.0 - c.x) == Square(c.x) && Square(0.0 - c.y) == Square(c.y);
  }

  lemma SquareGrows(a: real, b: real)
    requires Abs(a) <= Abs(b)
    ensures Square(a) <= Square(b)
  {
    SquareOfAbs(a);
    SquareOfAbs(b);
    if Abs(b) > Abs(a) { GreaterSquare(Abs(b), Abs(a)); }
  }

  // ---------------------------------------------------------------- the spike

  /** Twelve vertices: a step of s away from the anchor, then to and fro over two units, then back. */
  function Spike(s: real): (r: seq<Point>)
    ensures |r| == 12 && r[0] == Point(0.0, 0.0)
    ensures forall q | 1 <= q <= 6 :: r[q] == if q % 2 == 1 then Point(0.0, s) else Point(2.0, 0.0)
    ensures forall q | 7 <= q < 12 :: r[q] == Point(2.0, s)
  {
    var (a, b, c) := (Point(0.0, s), Point(2.0, 0.0), Point(2.0, s));
    [Point(0.0, 0.0), a, b, a, b, a, b, c, c, c, c, c]
  }

  lemma SpikeCenter(s: real)
    ensures Center(Spike(s)) == Point(4.0 / 3.0, 2.0 * s / 3.0)
  {
    hide SumX, SumY, Spike;
    var p := Spike(s);
    SumTail(p, 0);
    SumTail(p, 1);
    SumTail(p, 2);
    SumTail(p, 3);
    SumTail(p, 4);
    SumTail(p, 5);
    SumTail(p, 6);
    SumTail(p, 7);
    SumTail(p, 8);
    SumTail(p, 9);
    SumTail(p, 10);
    SumTail(p, 11);
    SumNothing();
    assert p[12..] == [] && p[0..] == p;
  }

  lemma SumNothing()
    ensures SumX([]) == 0.0 && SumY([]) == 0.0
  {}

  lemma SpikeRotated(s: real)
    ensures Rotated(Spike(s)) == Spike(s)
  {
    hide SumX, SumY, Rotated, Center, FromCenter, Spike;
    SpikeCenter(s);
    var p := Spike(s);
    forall q | 0 <= q < |p|
      ensures FromCenter(p[q], Center(p)) <= FromCenter(p[0], Center(p))
    {
      assert p[q].x == 0.0 || p[q].x == 2.0;
      assert p[q].y == 0.0 || p[q].y == s;
      CloserThanOrigin(p[q], Center(p));
    }
    AnchoredFirst(p);
  }

  lemma SpikeChain(s: real)
    ensures ChainA(Spike(s)) == Spike(s)[..7] && Opposite(|Spike(s)|) == 6
    ensures Loop(Spike(s)) == Spike(s) + [Point(0.0, 0.0)]
  {
    hide Spike, Rotated;
    SpikeRotated(s);
  }

  /** The bounds under which the first span of the spike splits after one edge, which is skipped. */
  ghost predicate Fine(f: Fit, s: real) {
    Euclidean(f.norm) && f.maxSegments >= 2 && 0.0 < s < MIN_CHORD && f.tol < s
  }

  lemma FlatNorm(norm: Norm, x: real)
    requires Euclidean(norm)
    ensures norm(x, 0.0) == Abs(x) && norm(0.0, x) == Abs(x)
  {
    hide Euclidean;
    NormBounds(norm, x, 0.0);
    NormBounds(norm, 0.0, x);
  }

  /** Distances of the spike's first half from its chord, the x axis, are heights. */
  lemma SpikeHeight(f: Fit, s: real, q: nat)
    requires Fine(f, s) && q <= 6
    ensures Distance(f, ChainA(Spike(s)), 0, 6, q) == Spike(s)[q].y
    ensures Spike(s)[q].y == if q == 1 || q == 3 || q == 5 then s else 0.0
  {
    hide ChainA, Euclidean, Spike, Distance;
    SpikeEnds(s);
    SpikeChain(s);
    FlatNorm(f.norm, 2.0);
    var p := ChainA(Spike(s))[q];
    assert p == Spike(s)[q];
    HeightOverAxis(f.norm, p);
    DistanceIs(f, ChainA(Spike(s)), q);
  }

  lemma HeightOverAxis(norm: Norm, p: Point)
    requires norm(2.0, 0.0) == 2.0 && p.y >= 0.0
    ensures PointLineDistance(norm, p, Point(0.0, 0.0), Point(2.0, 0.0)) == p.y
  {
    assert Gap(norm, Point(0.0, 0.0), Point(2.0, 0.0)) == norm(2.0 - 0.0, 0.0 - 0.0) == 2.0;
    assert Abs((p.x - 0.0) * (0.0 - 0.0) - (p.y - 0.0) * (2.0 - 0.0)) == 2.0 * p.y;
  }

  lemma DistanceIs(f: Fit, chain: seq<Point>, q: nat)
    requires |chain| == 7 && q < 7
    ensures Distance(f, chain, 0, 6, q) == PointLineDistance(f.norm, chain[q], chain[0], chain[6])
  {}

  lemma SpikeFarthest(f: Fit, s: real, k: nat)
    requires Fine(f, s) && 1 <= k <= 6 && |ChainA(Spike(s))| == 7
    ensures Farthest(f, ChainA(Spike(s)), 0, 6, k) == 1
    decreases k
  {
    hide ChainA, Fine, Distance, Spike;
    SpikeHeight(f, s, 0);
    SpikeHeight(f, s, 1);
    assert s > 0.0 by { OpenFine(f, s); }
    if k > 1 {
      SpikeFarthest(f, s, k - 1);
      SpikeHeight(f, s, k);
    }
  }

  lemma OpenFine(f: Fit, s: real)
    requires Fine(f, s)
    ensures Euclidean(f.norm) && f.maxSegments >= 2 && 0.0 < s < MIN_CHORD && f.tol < s
  {}

  lemma SpikeAlternates(f: Fit, s: real)
    requires Fine(f, s) && |ChainA(Spike(s))| == 7
    ensures Alternates(f, ChainA(Spike(s)), 2, 1.0)
  {
    hide ChainA, Euclidean, Spike;
    SpikeChain(s);
  }

  /** The first piece of the spike is its first edge, skipped. */
  lemma SpikeSkipsFirst(f: Fit, s: real)
    requires Fine(f, s)
    ensures PiecesA(f, Spike(s)) != [] && PiecesA(f, Spike(s))[0] == Skipped(0, 1)
  {
    hide Euclidean, ChainA, Spike, Pieces, FitCubic, Distance, Farthest, Alternates, Emitted;
    var c := ChainA(Spike(s));
    SpikeChain(s);
    SpikeEnds(s);
    FlatNorm(f.norm, 2.0);
    FlatNorm(f.norm, s);
    SpikeFarthest(f, s, 6);
    SpikeHeight(f, s, 1);
    SpikeAlternates(f, s);
    AlternatingDefeats(f, c, 0, 6, 2, 1.0);
    assert Splits(f, c, 0, 6, 0);
    PiecesSplit(f, c, 0, 6, 0);
    ShortIsSkipped(f, c, 0, 1, 0);
  }

  lemma SpikeEnds(s: real)
    ensures |ChainA(Spike(s))| == 7
    ensures ChainA(Spike(s))[0] == Point(0.0, 0.0) && ChainA(Spike(s))[1] == Point(0.0, s)
    ensures ChainA(Spike(s))[6] == Point(2.0, 0.0)
  {
    hide ChainA, Spike;
    SpikeChain(s);
  }

  /** On the closed path the anchor is met at its two ends only, and abscissas are 0 or 2. */
  lemma SpikeLoop(s: real, v: nat)
    requires s > 0.0 && v <= 12 && |Loop(Spike(s))| == 13
    ensures Loop(Spike(s))[v] == Loop(Spike(s))[0] ==> v == 0 || v == 12
    ensures Loop(Spike(s))[v].x == 0.0 || Loop(Spike(s))[v].x == 2.0
    ensures Loop(Spike(s))[0].x == 0.0 && Loop(Spike(s))[6].x == 2.0
  {
    hide Loop, Spike;
    SpikeChain(s);
  }

  /** If all runs closed, every piece up to any k would be skipped, and stay at abscissa 0. */
  lemma {:induction false} SpikeAllSkipped(f: Fit, s: real, k: nat)
    requires Fine(f, s) && LoopPieces(f, Spike(s)) != [] && InChain(Loop(Spike(s)), LoopPieces(f, Spike(s)))
    requires RunsClosed(Loop(Spike(s)), LoopPieces(f, Spike(s))) && k <= |LoopPieces(f, Spike(s))|
    ensures RunStart(LoopPieces(f, Spike(s)), k) == 0
    ensures Vertex(LoopPieces(f, Spike(s)), k) <= 12 && |Loop(Spike(s))| == 13
    ensures Loop(Spike(s))[Vertex(LoopPieces(f, Spike(s)), k)].x == 0.0
  {
    hide Loop, Spike, LoopPieces, Chord, Euclidean, InChain, RunsClosed, Tiles;
    var (c, ps) := (Loop(Spike(s)), LoopPieces(f, Spike(s)));
    SpikeTiles(f, s);
    SpikeLoop(s, 0);
    if k > 0 {
      SpikeAllSkipped(f, s, k - 1);
      var p := ps[k - 1];
      assert Vertex(ps, k - 1) == p.i;
      SpikeLoop(s, p.i);
      RunAt(c, ps, k - 1);
      assert p.Skipped?;
      LoopSkipsShort(f, Spike(s));
      TileInRange(ps, 0, 12, k - 1);
      SpikeLoop(s, p.j);
      assert Chord(f, c[p.i], c[p.j]) < MIN_CHORD;
      ShortStays(f, c[p.i], c[p.j]);
    }
  }

  lemma RunAt(chain: seq<Point>, ps: seq<Piece>, k: nat)
    requires ps != [] && InChain(chain, ps) && k < |ps| && RunsClosed(chain, ps)
    ensures !ps[k].Skipped? ==> chain[Vertex(ps, RunStart(ps, k))] == chain[Vertex(ps, k)]
  {
    assert ps[k].Skipped? || RunCloses(chain, ps, k);
  }

  lemma ShortStays(f: Fit, a: Point, b: Point)
    requires Euclidean(f.norm) && Chord(f, a, b) < MIN_CHORD
    ensures a.x - 1.0 < b.x < a.x + 1.0
  {
    hide Euclidean;
    NormBounds(f.norm, b.x - a.x, b.y - a.y);
  }

  lemma SpikeTiles(f: Fit, s: real)
    requires Fine(f, s)
    ensures var ps := LoopPieces(f, Spike(s));
            && Tiles(ps, 0, 12) && ps[0] == Skipped(0, 1) && |Loop(Spike(s))| == 13
            && forall k: nat | k < |ps| :: (ps[k].i == 0 ==> k == 0) && ps[k].i < ps[k].j <= 12
    ensures exists k: nat :: k <= |LoopPieces(f, Spike(s))| && Vertex(LoopPieces(f, Spike(s)), k) == 6
  {
    hide Loop, Spike, Euclidean, Pieces;
    SpikeChain(s);
    LoopIsTiled(f, Spike(s));
    SpikeSkipsFirst(f, s);
    var ps := LoopPieces(f, Spike(s));
    TilesInRange(ps, 0, 12);
    forall k: nat | k < |ps|
      ensures (ps[k].i == 0 ==> k == 0) && ps[k].i < ps[k].j <= 12
    {
      assert ps[k] in ps;
      if k > 0 { assert ps[k - 1].j == ps[k].i && ps[k - 1] in ps; }
    }
    var m := |PiecesA(f, Spike(s))|;
    assert ps[m - 1] == PiecesA(f, Spike(s))[m - 1];
    assert Vertex(ps, m) == 6;
  }

  /** Under a finer tolerance and a budget of two or more the spike's fit does not close. */
  lemma SpikeDoesNotClose(f: Fit, s: real, segs: seq<Segment>)
    requires Fine(f, s) && FittedLoop(f, Spike(s), segs)
    ensures !ChainFrom(segs, Rotated(Spike(s))[0], Rotated(Spike(s))[0])
  {
    hide Loop, Spike, LoopPieces, Euclidean, InChain, Rotated, ChainFrom, Fine, Tiles, FittedLoop;
    FittedLoopCloses(f, Spike(s), segs);
    var (c, ps) := (Loop(Spike(s)), LoopPieces(f, Spike(s)));
    SpikeTiles(f, s);
    if RunsClosed(c, ps) {
      var k: nat :| k <= |ps| && Vertex(ps, k) == 6;
      SpikeAllSkipped(f, s, k);
      assert 0.0 < s by { OpenFine(f, s); }
      SpikeLoop(s, 6);
    }
  }

  // ---------------------------------------------------------------- for which bounds every fit closes

  ghost predicate AlwaysCloses(f: Fit) {
    forall poly, segs | |poly| >= 3 && FittedLoop(f, poly, segs) ::
      ChainFrom(segs, Rotated(poly)[0], Rotated(poly)[0])
  }

  lemma FitExists(f: Fit, poly: seq<Point>) returns (segs: seq<Segment>)
    requires |poly| >= 3
    ensures FittedLoop(f, poly, segs)
  {
    HalvesInChain(f, poly);
    segs := SegmentsOf(ChainA(poly), PiecesA(f, poly)) + SegmentsOf(ChainB(poly), PiecesB(f, poly));
  }

  /** Every polygon's fit chains from the anchor back to it, exactly when the tolerance is at least
      MIN_CHORD or the budget is at most one segment. */
  lemma ClosesExactly(f: Fit)
    requires Euclidean(f.norm)
    ensures AlwaysCloses(f) <==> f.tol >= 0.000001 || f.maxSegments <= 1
  {
    hide Euclidean, ChainFrom, Rotated, FittedLoop, Spike;
    if Coarse(f) {
      forall poly, segs | |poly| >= 3 && FittedLoop(f, poly, segs)
        ensures ChainFrom(segs, Rotated(poly)[0], Rotated(poly)[0])
      {
        CoarseCloses(f, poly, segs);
      }
    } else {
      var s := if f.tol < 0.0 then MIN_CHORD / 2.0 else (f.tol + MIN_CHORD) / 2.0;
      var segs := FitExists(f, Spike(s));
      SpikeDoesNotClose(f, s, segs);
    }
  }
}
