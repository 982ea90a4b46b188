/** When the fitted segments of a polygon chain around it and return to their anchor. */
module CurveClosing {
  import opened Outline
  import opened Euclid
  import opened CurveFit
  import opened CurveDeviation

  ghost predicate ChainFrom(segs: seq<Segment>, a: Point, b: Point) {
    && Chained(segs)
    && (segs == [] ==> a == b)
    && (segs != [] ==> Start(segs[0]) == a && End(segs[|segs| - 1]) == b)
  }

  // ---------------------------------------------------------------- runs of skipped pieces

  /** The vertex before piece k, and after the last one for k == |ps|. */
  function Vertex(ps: seq<Piece>, k: nat): nat
    requires ps != [] && k <= |ps|
  {
    if k < |ps| then ps[k].i else ps[k - 1].j
  }

  /** Where the run of skipped pieces that ends before piece k begins. */
  function RunStart(ps: seq<Piece>, k: nat): (a: nat)
    requires k <= |ps|
    ensures a <= k
  {
    if k > 0 && ps[k - 1].Skipped? then RunStart(ps, k - 1) else k
  }

  ghost predicate RunCloses(chain: seq<Point>, ps: seq<Piece>, k: nat)
    requires ps != [] && InChain(chain, ps) && k <= |ps|
  {
    chain[Vertex(ps, RunStart(ps, k))] == chain[Vertex(ps, k)]
  }

  /** Every run of skipped pieces, up to the next segment or the end, returns to the point it left. */
  ghost predicate RunsClosed(chain: seq<Point>, ps: seq<Piece>)
    requires ps != [] && InChain(chain, ps)
  {
    forall k: nat | k <= |ps| && (k == |ps| || !ps[k].Skipped?) :: RunCloses(chain, ps, k)
  }

  lemma SegmentEnds(chain: seq<Point>, p: Piece)
    requires !p.Skipped? && p.i < |chain| && p.j < |chain|
    ensures Start(ToSegment(chain, p)) == chain[p.i] && End(ToSegment(chain, p)) == chain[p.j]
  {}

  lemma PrefixStep(chain: seq<Point>, ps: seq<Piece>, n: nat)
    requires n < |ps| && InChain(chain, ps)
    ensures SegmentsOf(chain, ps[..n + 1])
         == SegmentsOf(chain, ps[..n]) + if ps[n].Skipped? then [] else [ToSegment(chain, ps[n])]
  {
    assert ps[..n + 1][..n] == ps[..n];
  }

  /** The segments of a prefix end where its last run of skipped pieces begins. */
  lemma {:induction false} PrefixEnds(chain: seq<Point>, ps: seq<Piece>, i0: nat, i1: nat, n: nat)
    requires Tiles(ps, i0, i1) && InChain(chain, ps) && n <= |ps|
    ensures var segs := SegmentsOf(chain, ps[..n]);
            && (segs == [] ==> RunStart(ps, n) == 0)
            && (segs != [] ==> End(segs[|segs| - 1]) == chain[Vertex(ps, RunStart(ps, n))])
  {
    hide SegmentsOf, ToSegment;
    if n == 0 {
      assert ps[..0] == [];
      NoSegments(chain);
    } else {
      PrefixEnds(chain, ps, i0, i1, n - 1);
      PrefixStep(chain, ps, n - 1);
      if !ps[n - 1].Skipped? {
        SegmentEnds(chain, ps[n - 1]);
        assert Vertex(ps, n) == ps[n - 1].j;
      }
    }
  }

  lemma NoSegments(chain: seq<Point>)
    ensures SegmentsOf(chain, []) == []
  {}

  /** The segments chain from the first vertex on. */
  ghost predicate Begun(segs: seq<Segment>, a: Point) {
    Chained(segs) && (segs != [] ==> Start(segs[0]) == a)
  }

  lemma BegunSnoc(segs: seq<Segment>, s: Segment, a: Point)
    ensures Begun(segs + [s], a) <==> Begun(segs, a) && Start(s) == if segs == [] then a else End(segs[|segs| - 1])
  {
    var all := segs + [s];
    assert all[|segs|] == s;
    if Begun(all, a) {
      forall i | 0 <= i < |segs| - 1
        ensures End(segs[i]) == Start(segs[i + 1])
      {
        assert all[i] == segs[i] && all[i + 1] == segs[i + 1];
      }
      if segs != [] { assert all[|segs| - 1] == segs[|segs| - 1] && all[0] == segs[0]; }
    }
  }

  ghost predicate RunsClosedBelow(chain: seq<Point>, ps: seq<Piece>, n: nat)
    requires ps != [] && InChain(chain, ps) && n <= |ps|
  {
    forall k: nat | k < n && !ps[k].Skipped? :: RunCloses(chain, ps, k)
  }

  lemma RunsBelowStep(chain: seq<Point>, ps: seq<Piece>, n: nat)
    requires ps != [] && InChain(chain, ps) && n < |ps|
    ensures RunsClosedBelow(chain, ps, n + 1)
       <==> RunsClosedBelow(chain, ps, n) && (ps[n].Skipped? || RunCloses(chain, ps, n))
  {
    hide RunCloses;
  }

  lemma {:induction false} PrefixBegun(chain: seq<Point>, ps: seq<Piece>, i0: nat, i1: nat, n: nat)
    requires Tiles(ps, i0, i1) && InChain(chain, ps) && n <= |ps|
    ensures Begun(SegmentsOf(chain, ps[..n]), chain[i0]) <==> RunsClosedBelow(chain, ps, n)
  {
    hide SegmentsOf, ToSegment, Begun, RunsClosedBelow;
    if n == 0 {
      assert ps[..0] == [];
      NoSegments(chain);
      NothingBegun(chain, ps, chain[i0]);
    } else {
      RunsBelowStep(chain, ps, n - 1);
      PrefixBegun(chain, ps, i0, i1, n - 1);
      PrefixStep(chain, ps, n - 1);
      if !ps[n - 1].Skipped? {
        PrefixEnds(chain, ps, i0, i1, n - 1);
        SegmentEnds(chain, ps[n - 1]);
        var segs := SegmentsOf(chain, ps[..n - 1]);
        BegunSnoc(segs, ToSegment(chain, ps[n - 1]), chain[i0]);
        assert Vertex(ps, 0) == i0;
        assert RunCloses(chain, ps, n - 1)
          <==> chain[ps[n - 1].i] == if segs == [] then chain[i0] else End(segs[|segs| - 1]);
      } else {
        assert SegmentsOf(chain, ps[..n]) == SegmentsOf(chain, ps[..n - 1]);
      }
    }
  }

  lemma NothingBegun(chain: seq<Point>, ps: seq<Piece>, a: Point)
    requires ps != [] && InChain(chain, ps)
    ensures Begun([], a) && RunsClosedBelow(chain, ps, 0)
  {}

  /** Tiling pieces become segments that chain from end to end exactly when every run closes. */
  lemma RunsCloseExactly(chain: seq<Point>, ps: seq<Piece>, i0: nat, i1: nat)
    requires Tiles(ps, i0, i1) && InChain(chain, ps)
    ensures ChainFrom(SegmentsOf(chain, ps), chain[i0], chain[i1]) <==> RunsClosed(chain, ps)
  {
    hide SegmentsOf, RunCloses, Chained;
    var n := |ps|;
    assert ps[..n] == ps;
    PrefixBegun(chain, ps, i0, i1, n);
    PrefixEnds(chain, ps, i0, i1, n);
    EndRun(chain, ps, i0, i1);
  }

  lemma EndRun(chain: seq<Point>, ps: seq<Piece>, i0: nat, i1: nat)
    requires Tiles(ps, i0, i1) && InChain(chain, ps)
    ensures RunCloses(chain, ps, |ps|) <==> chain[Vertex(ps, RunStart(ps, |ps|))] == chain[i1]
    ensures Vertex(ps, 0) == i0
  {}

  // ---------------------------------------------------------------- the two halves as one loop

  /** The closed path of a polygon from its anchor. */
  function Loop(poly: seq<Point>): seq<Point>
    requires |poly| >= 3
  {
    Rotated(poly) + [Rotated(poly)[0]]
  }

  function Shift(p: Piece, o: nat): Piece {
    match p
    case LinePiece(i, j, residual) => LinePiece(i + o, j + o, residual)
    case CubicPiece(i, j, residual, p1, p2) => CubicPiece(i + o, j + o, residual, p1, p2)
    case Skipped(i, j) => Skipped(i + o, j + o)
  }

  function Shifted(ps: seq<Piece>, o: nat): (r: seq<Piece>)
    ensures |r| == |ps| && forall k | 0 <= k < |ps| :: r[k] == Shift(ps[k], o)
  {
    seq(|ps|, k requires 0 <= k < |ps| => Shift(ps[k], o))
  }

  function LoopPieces(f: Fit, poly: seq<Point>): seq<Piece>
    requires |poly| >= 3
  {
    PiecesA(f, poly) + Shifted(PiecesB(f, poly), Opposite(|poly|))
  }

  lemma {:induction false} SameSegments(c: seq<Point>, ps: seq<Piece>, d: seq<Point>, qs: seq<Piece>)
    requires |ps| == |qs| && InChain(c, ps) && InChain(d, qs)
    requires forall k | 0 <= k < |ps| :: ps[k].Skipped? == qs[k].Skipped?
    requires forall k | 0 <= k < |ps| :: !ps[k].Skipped? ==> ToSegment(c, ps[k]) == ToSegment(d, qs[k])
    ensures SegmentsOf(c, ps) == SegmentsOf(d, qs)
  {
    hide ToSegment;
    if ps != [] { SameSegments(c, ps[..|ps| - 1], d, qs[..|qs| - 1]); }
  }

  lemma ShiftedTiles(ps: seq<Piece>, i0: nat, i1: nat, o: nat)
    requires Tiles(ps, i0, i1)
    ensures Tiles(Shifted(ps, o), i0 + o, i1 + o)
  {}

  lemma LoopHalves(poly: seq<Point>)
    requires |poly| >= 3
    ensures forall k | 0 <= k <= Opposite(|poly|) :: Loop(poly)[k] == ChainA(poly)[k]
    ensures forall k | 0 <= k <= |poly| - Opposite(|poly|) :: Loop(poly)[k + Opposite(|poly|)] == ChainB(poly)[k]
  {
    hide Rotated;
  }

  lemma TileInRange(ps: seq<Piece>, i0: nat, i1: nat, k: nat)
    requires Tiles(ps, i0, i1) && k < |ps|
    ensures i0 <= ps[k].i < ps[k].j <= i1 && Vertex(ps, k + 1) == ps[k].j
  {
    TilesInRange(ps, i0, i1);
    assert ps[k] in ps;
  }

  lemma TilesInChain(c: seq<Point>, ps: seq<Piece>, i0: nat, i1: nat)
    requires Tiles(ps, i0, i1) && i1 < |c|
    ensures InChain(c, ps)
  {
    hide Tiles;
    forall k: nat | k < |ps|
      ensures ps[k].i < |c| && ps[k].j < |c|
    {
      TileInRange(ps, i0, i1, k);
    }
  }

  /** The loop's pieces tile it, each half its own part. */
  lemma LoopIsTiled(f: Fit, poly: seq<Point>)
    requires |poly| >= 3
    ensures var (o, ps, c) := (Opposite(|poly|), LoopPieces(f, poly), Loop(poly));
            && Tiles(PiecesA(f, poly), 0, o) && Tiles(Shifted(PiecesB(f, poly), o), o, |poly|)
            && Tiles(ps, 0, |poly|) && InChain(c, ps)
  {
    hide Pieces, Tiles, InChain, Shifted, Rotated, PiecesA, PiecesB;
    var (o, n) := (Opposite(|poly|), |poly|);
    HalvesInChain(f, poly);
    ShiftedTiles(PiecesB(f, poly), 0, n - o, o);
    TilesAppend(PiecesA(f, poly), Shifted(PiecesB(f, poly), o), 0, o, n);
    TilesInChain(Loop(poly), LoopPieces(f, poly), 0, n);
  }

  /** A piece of one half reads the same points in the loop. */
  lemma ShiftedPiece(c: seq<Point>, half: seq<Point>, p: Piece, o: nat, m: nat)
    requires p.i < p.j <= m < |half| && m + o < |c|
    requires forall k | 0 <= k <= m :: c[k + o] == half[k]
    ensures var q := Shift(p, o);
            && q.Skipped? == p.Skipped? && q.i < q.j < |c| && c[q.i] == half[p.i] && c[q.j] == half[p.j]
            && (!p.Skipped? ==> ToSegment(c, q) == ToSegment(half, p))
  {
    assert c[p.i + o] == half[p.i] && c[p.j + o] == half[p.j];
  }

  lemma HalfSegments(c: seq<Point>, half: seq<Point>, ps: seq<Piece>, o: nat, m: nat)
    requires Tiles(ps, 0, m) && m < |half| && m + o < |c|
    requires forall k | 0 <= k <= m :: c[k + o] == half[k]
    ensures InChain(half, ps) && InChain(c, Shifted(ps, o))
    ensures SegmentsOf(c, Shifted(ps, o)) == SegmentsOf(half, ps)
  {
    hide Tiles, SegmentsOf, ToSegment, Shift;
    TilesInChain(half, ps, 0, m);
    var qs := Shifted(ps, o);
    forall k: nat | k < |qs|
      ensures qs[k].Skipped? == ps[k].Skipped? && qs[k].i < |c| && qs[k].j < |c|
      ensures !ps[k].Skipped? ==> ToSegment(c, qs[k]) == ToSegment(half, ps[k])
    {
      TileInRange(ps, 0, m, k);
      ShiftedPiece(c, half, ps[k], o, m);
    }
    SameSegments(c, qs, half, ps);
  }

  lemma LoopSegments(f: Fit, poly: seq<Point>, segs: seq<Segment>)
    requires |poly| >= 3 && FittedLoop(f, poly, segs)
    ensures Tiles(LoopPieces(f, poly), 0, |poly|) && InChain(Loop(poly), LoopPieces(f, poly))
    ensures segs == SegmentsOf(Loop(poly), LoopPieces(f, poly))
  {
    hide Pieces, Tiles, InChain, SegmentsOf, Rotated, PiecesA, PiecesB, Shifted;
    var (o, n, c) := (Opposite(|poly|), |poly|, Loop(poly));
    var (a, b) := (PiecesA(f, poly), PiecesB(f, poly));
    LoopIsTiled(f, poly);
    HalvesInChain(f, poly);
    LoopHalves(poly);
    HalfSegments(c, ChainA(poly), a, 0, o);
    ShiftedByZero(a);
    HalfSegments(c, ChainB(poly), b, o, n - o);
    SegmentsAppend(c, a, Shifted(b, o));
  }

  lemma ShiftedByZero(ps: seq<Piece>)
    ensures Shifted(ps, 0) == ps
  {}

  // ---------------------------------------------------------------- closing, exactly

  /** The fitted segments, at most one per vertex, chain from the anchor back to it exactly when
      every run of skipped pieces around the loop closes. */
  lemma FittedLoopCloses(f: Fit, poly: seq<Point>, segs: seq<Segment>)
    requires |poly| >= 3 && FittedLoop(f, poly, segs)
    ensures |segs| <= |poly|
    ensures LoopPieces(f, poly) != [] && InChain(Loop(poly), LoopPieces(f, poly))
    ensures ChainFrom(segs, Rotated(poly)[0], Rotated(poly)[0]) <==> RunsClosed(Loop(poly), LoopPieces(f, poly))
  {
    hide ChainFrom, SegmentsOf, InChain, LoopPieces, Rotated;
    LoopSegments(f, poly, segs);
    RunsCloseExactly(Loop(poly), LoopPieces(f, poly), 0, |poly|);
    TilesInRange(LoopPieces(f, poly), 0, |poly|);
    EmittedAtMost(LoopPieces(f, poly));
  }

  lemma {:induction false} EmittedAtMost(ps: seq<Piece>)
    ensures Emitted(ps) <= |ps|
    ensures Emitted(ps) == |ps| <==> forall k | 0 <= k < |ps| :: !ps[k].Skipped?
  {
    if ps != [] {
      var n := |ps| - 1;
      EmittedAtMost(ps[..n]);
      assert forall k | 0 <= k < n :: ps[..n][k] == ps[k];
    }
  }

  /** A skipped piece has a chord shorter than MIN_CHORD. */
  ghost predicate SkipsAreShort(f: Fit, chain: seq<Point>, ps: seq<Piece>)
    requires InChain(chain, ps)
  {
    forall k: nat | k < |ps| && ps[k].Skipped? :: Chord(f, chain[ps[k].i], chain[ps[k].j]) < MIN_CHORD
  }

  lemma PiecesSkipShort(f: Fit, chain: seq<Point>, i0: nat, i1: nat, count: nat)
    requires i0 < i1 < |chain|
    ensures InChain(chain, Pieces(f, chain, i0, i1, count))
    ensures SkipsAreShort(f, chain, Pieces(f, chain, i0, i1, count))
  {
    hide Pieces, Splits, Chord;
    PiecesAreLeaves(f, chain, i0, i1, count);
    PiecesInChain(f, chain, i0, i1, count);
    var ps := Pieces(f, chain, i0, i1, count);
    forall k: nat | k < |ps| && ps[k].Skipped?
      ensures Chord(f, chain[ps[k].i], chain[ps[k].j]) < MIN_CHORD
    {
      assert LeafAt(f, chain, ps, count, k);
      SkippedIsShort(f, chain, ps[k], count + Emitted(ps[..k]));
    }
  }

  lemma SkippedIsShort(f: Fit, chain: seq<Point>, p: Piece, count: nat)
    requires AsLeaf(f, chain, p, count) && p.Skipped?
    ensures Chord(f, chain[p.i], chain[p.j]) < MIN_CHORD && count < f.maxSegments
  {}

  lemma HalfSkipsShort(f: Fit, c: seq<Point>, half: seq<Point>, ps: seq<Piece>, o: nat, m: nat)
    requires Tiles(ps, 0, m) && m < |half| && m + o < |c| && InChain(half, ps) && SkipsAreShort(f, half, ps)
    requires forall k | 0 <= k <= m :: c[k + o] == half[k]
    ensures InChain(c, Shifted(ps, o)) && SkipsAreShort(f, c, Shifted(ps, o))
  {
    hide Tiles, Chord, ToSegment, Shift;
    var qs := Shifted(ps, o);
    forall k: nat | k < |qs|
      ensures qs[k].i < |c| && qs[k].j < |c|
      ensures qs[k].Skipped? ==> Chord(f, c[qs[k].i], c[qs[k].j]) < MIN_CHORD
    {
      TileInRange(ps, 0, m, k);
      ShiftedPiece(c, half, ps[k], o, m);
    }
  }

  lemma SkipsAppend(f: Fit, c: seq<Point>, a: seq<Piece>, b: seq<Piece>)
    requires InChain(c, a) && InChain(c, b) && SkipsAreShort(f, c, a) && SkipsAreShort(f, c, b)
    ensures InChain(c, a + b) && SkipsAreShort(f, c, a + b)
  {
    hide Chord;
  }

  lemma LoopSkipsShort(f: Fit, poly: seq<Point>)
    requires |poly| >= 3
    ensures InChain(Loop(poly), LoopPieces(f, poly)) && SkipsAreShort(f, Loop(poly), LoopPieces(f, poly))
  {
    hide Pieces, Rotated, Chord, Tiles, InChain, SkipsAreShort, Shifted;
    var (o, n, c) := (Opposite(|poly|), |poly|, Loop(poly));
    var (a, b) := (PiecesA(f, poly), PiecesB(f, poly));
    PiecesSkipShort(f, ChainA(poly), 0, o, 0);
    PiecesSkipShort(f, ChainB(poly), 0, n - o, Emitted(a));
    HalvesInChain(f, poly);
    LoopHalves(poly);
    HalfSkipsShort(f, c, ChainA(poly), a, 0, o);
    HalfSkipsShort(f, c, ChainB(poly), b, o, n - o);
    ShiftedByZero(a);
    SkipsAppend(f, c, a, Shifted(b, o));
  }

  /** Vertices closer than MIN_CHORD coincide. */
  ghost predicate NearAreEqual(f: Fit, poly: seq<Point>) {
    forall a, b | a in poly && b in poly :: Chord(f, a, b) < MIN_CHORD ==> a == b
  }

  lemma {:induction false} RunStays(chain: seq<Point>, ps: seq<Piece>, i0: nat, i1: nat, k: nat)
    requires Tiles(ps, i0, i1) && InChain(chain, ps) && k <= |ps|
    requires forall m: nat | m < |ps| && ps[m].Skipped? :: chain[ps[m].i] == chain[ps[m].j]
    ensures RunCloses(chain, ps, k)
  {
    if k > 0 && ps[k - 1].Skipped? {
      RunStays(chain, ps, i0, i1, k - 1);
      assert Vertex(ps, k) == ps[k - 1].j;
    }
  }

  lemma LoopPointsAreVertices(poly: seq<Point>, k: nat)
    requires |poly| >= 3 && k <= |poly|
    ensures Loop(poly)[k] in poly
  {
    var r := Rotated(poly);
    assert Loop(poly)[k] in r;
    assert Loop(poly)[k] in multiset(r);
  }

  /** A polygon without distinct vertices closer than MIN_CHORD is fitted by a closed chain. */
  lemma SeparatedLoopCloses(f: Fit, poly: seq<Point>, segs: seq<Segment>)
    requires |poly| >= 3 && FittedLoop(f, poly, segs) && NearAreEqual(f, poly)
    ensures ChainFrom(segs, Rotated(poly)[0], Rotated(poly)[0])
  {
    hide ChainFrom, SegmentsOf, LoopPieces, Rotated, Chord, Loop, RunCloses;
    var (c, ps) := (Loop(poly), LoopPieces(f, poly));
    FittedLoopCloses(f, poly, segs);
    LoopSkipsShort(f, poly);
    LoopIsTiled(f, poly);
    forall m: nat | m < |ps| && ps[m].Skipped?
      ensures c[ps[m].i] == c[ps[m].j]
    {
      TilesInRange(ps, 0, |poly|);
      LoopPointsAreVertices(poly, ps[m].i);
      LoopPointsAreVertices(poly, ps[m].j);
    }
    forall k: nat | k <= |ps| && (k == |ps| || !ps[k].Skipped?)
      ensures RunCloses(c, ps, k)
    {
      RunStays(c, ps, 0, |poly|, k);
    }
  }

  // ---------------------------------------------------------------- skipping happens to whole halves only

  lemma CrossAtMost(norm: Norm, u1: real, u2: real, w1: real, w2: real, v1: real, v2: real)
    requires Euclidean(norm) && v1 == u1 + w1 && v2 == u2 + w2
    ensures Abs(u1 * v2 - u2 * v1) <= norm(u1, u2) * norm(v1, v2)
    ensures Abs(u1 * v2 - u2 * v1) <= norm(w1, w2) * norm(v1, v2)
  {
    hide Euclidean;
    CauchySchwarz(norm, u1, u2, v1, v2);
    CauchySchwarz(norm, w1, w2, v1, v2);
    SameCross(u1, u2, w1, w2, v1, v2);
  }

  lemma SameCross(u1: real, u2: real, w1: real, w2: real, v1: real, v2: real)
    requires v1 == u1 + w1 && v2 == u2 + w2
    ensures Abs(w1 * v2 - w2 * v1) == Abs(u1 * v2 - u2 * v1)
  {
    assert w1 * v2 - w2 * v1 == w1 * u2 - w2 * u1;
    assert u1 * v2 - u2 * v1 == u1 * w2 - u2 * w1;
  }

  /** A point is no farther from a line than from each of two points on it. */
  lemma DistanceAtMost(norm: Norm, p: Point, a: Point, b: Point)
    requires Euclidean(norm) && Gap(norm, a, b) >= MIN_DENOMINATOR
    ensures PointLineDistance(norm, p, a, b) <= Gap(norm, a, p)
    ensures PointLineDistance(norm, p, a, b) <= Gap(norm, p, b)
  {
    hide Euclidean, Abs, PointLineDistance;
    var (u1, u2, v1, v2) := (p.x - a.x, p.y - a.y, b.x - a.x, b.y - a.y);
    CrossAtMost(norm, u1, u2, b.x - p.x, b.y - p.y, v1, v2);
    DistanceIsQuotient(norm, p, a, b, u1, u2, v1, v2);
    QuotientAtMost(Abs(u1 * v2 - u2 * v1), Gap(norm, a, p), Gap(norm, a, b));
    QuotientAtMost(Abs(u1 * v2 - u2 * v1), Gap(norm, p, b), Gap(norm, a, b));
  }

  lemma DistanceIsQuotient(norm: Norm, p: Point, a: Point, b: Point, u1: real, u2: real, v1: real, v2: real)
    requires Gap(norm, a, b) >= MIN_DENOMINATOR
    requires u1 == p.x - a.x && u2 == p.y - a.y && v1 == b.x - a.x && v2 == b.y - a.y
    ensures PointLineDistance(norm, p, a, b) == Abs(u1 * v2 - u2 * v1) / Gap(norm, a, b)
  {
    assert (p.x - a.x) * (b.y - a.y) - (p.y - a.y) * (b.x - a.x) == u1 * v2 - u2 * v1;
  }

  lemma QuotientAtMost(a: real, b: real, d: real)
    requires d > 0.0 && a <= b * d
    ensures a / d <= b
  {
    assert (b * d) / d == b;
  }

  /** With a tolerance of at least MIN_CHORD the parts of a split span have long chords again. */
  lemma SplitChords(f: Fit, chain: seq<Point>, i0: nat, i1: nat)
    requires Euclidean(f.norm) && i0 < i1 < |chain| && NeedsSplit(f, chain, i0, i1) && f.tol >= MIN_CHORD
    ensures var mid := Middle(f, chain, i0, i1);
            Chord(f, chain[i0], chain[mid]) >= MIN_CHORD && Chord(f, chain[mid], chain[i1]) >= MIN_CHORD
  {
    hide Euclidean, FitCubic, Farthest, Gap, PointLineDistance;
    var m := Farthest(f, chain, i0, i1, i1);
    DistanceAtMost(f.norm, chain[m], chain[i0], chain[i1]);
    GapSymmetric(f.norm, chain[i0], chain[i0]);
    GapSymmetric(f.norm, chain[i1], chain[i1]);
  }

  /** Splitting cannot lead to a short chord: the tolerance is above it, or there is no splitting. */
  predicate Coarse(f: Fit) { f.tol >= 0.000001 || f.maxSegments <= 1 }

  ghost predicate NoneSkipped(ps: seq<Piece>) { forall k: nat | k < |ps| :: !ps[k].Skipped? }

  lemma {:induction false} NoSkips(f: Fit, chain: seq<Point>, i0: nat, i1: nat, count: nat)
    requires Euclidean(f.norm) && Coarse(f) && i0 < i1 < |chain|
    requires Chord(f, chain[i0], chain[i1]) >= MIN_CHORD || count >= f.maxSegments
    ensures NoneSkipped(Pieces(f, chain, i0, i1, count))
    decreases i1 - i0
  {
    hide Pieces, Leaf, Middle, Euclidean, NeedsSplit, Chord;
    if Splits(f, chain, i0, i1, count) {
      SplitsIsWide(f, chain, i0, i1, count);
      SplitChords(f, chain, i0, i1);
      var mid := Middle(f, chain, i0, i1);
      var left := Pieces(f, chain, i0, mid, count);
      PiecesSplit(f, chain, i0, i1, count);
      NoSkips(f, chain, i0, mid, count);
      NoSkips(f, chain, mid, i1, count + Emitted(left));
    } else {
      PiecesLeaf(f, chain, i0, i1, count);
      LeafOfLong(f, chain, i0, i1, count);
    }
  }

  lemma LeafOfLong(f: Fit, chain: seq<Point>, i0: nat, i1: nat, count: nat)
    requires i0 < i1 < |chain|
    ensures Leaf(f, chain, i0, i1, count).Skipped?
       <==> count < f.maxSegments && Chord(f, chain[i0], chain[i1]) < MIN_CHORD
  {}

  lemma ShortIsSkipped(f: Fit, chain: seq<Point>, i0: nat, i1: nat, count: nat)
    requires i0 < i1 < |chain| && Chord(f, chain[i0], chain[i1]) < MIN_CHORD && count < f.maxSegments
    ensures Pieces(f, chain, i0, i1, count) == [Skipped(i0, i1)]
    ensures Emitted(Pieces(f, chain, i0, i1, count)) == 0
  {
    assert [Skipped(i0, i1)][..0] == [];
  }

  lemma WorstOfSkipped(w: real, i: nat, j: nat)
    ensures Worst(w, [Skipped(i, j)]) == w
  {
    assert [Skipped(i, j)][..0] == [];
  }

  /** A polygon whose anchor and opposite vertex are closer than MIN_CHORD loses its whole outline,
      with residual 0, at any tolerance. */
  lemma ShortAnchorLosesAll(f: Fit, poly: seq<Point>, segs: seq<Segment>)
    requires Euclidean(f.norm) && f.maxSegments >= 1 && |poly| >= 3 && FittedLoop(f, poly, segs)
    requires Chord(f, Rotated(poly)[0], Rotated(poly)[Opposite(|poly|)]) < 0.000001
    ensures segs == [] && Worst(Worst(0.0, PiecesA(f, poly)), PiecesB(f, poly)) == 0.0
  {
    hide Pieces, Euclidean, Chord, Rotated, Emitted, SegmentsOf, Gap, Worst;
    var (o, n, r) := (Opposite(|poly|), |poly|, Rotated(poly));
    assert ChainA(poly)[0] == r[0] && ChainA(poly)[o] == r[o];
    assert ChainB(poly)[0] == r[o] && ChainB(poly)[n - o] == r[0];
    ChordSymmetric(f, r[0], r[o]);
    ShortIsSkipped(f, ChainA(poly), 0, o, 0);
    ShortIsSkipped(f, ChainB(poly), 0, n - o, 0);
    WorstOfSkipped(0.0, 0, o);
    WorstOfSkipped(0.0, 0, n - o);
  }

  /** With such bounds the fit is empty exactly when the anchor and the opposite vertex are
      closer than MIN_CHORD, and otherwise no span of the polygon is skipped. */
  lemma EmptyExactly(f: Fit, poly: seq<Point>, segs: seq<Segment>)
    requires Euclidean(f.norm) && Coarse(f) && |poly| >= 3 && FittedLoop(f, poly, segs)
    ensures segs == []
       <==> f.maxSegments >= 1 && Chord(f, Rotated(poly)[0], Rotated(poly)[Opposite(|poly|)]) < 0.000001
    ensures segs != [] ==> NoneSkipped(PiecesA(f, poly)) && NoneSkipped(PiecesB(f, poly))
  {
    hide Pieces, Euclidean, Chord, Rotated, Emitted, SegmentsOf, Gap;
    var (o, n, r) := (Opposite(|poly|), |poly|, Rotated(poly));
    assert ChainA(poly)[0] == r[0] && ChainA(poly)[o] == r[o];
    assert ChainB(poly)[0] == r[o] && ChainB(poly)[n - o] == r[0];
    ChordSymmetric(f, r[0], r[o]);
    if f.maxSegments >= 1 && Chord(f, r[0], r[o]) < MIN_CHORD {
      ShortAnchorLosesAll(f, poly, segs);
    } else {
      NoSkips(f, ChainA(poly), 0, o, 0);
      NoSkips(f, ChainB(poly), 0, n - o, Emitted(PiecesA(f, poly)));
      EmittedAtMost(PiecesA(f, poly));
      HalvesInChain(f, poly);
    }
  }

  lemma ChordSymmetric(f: Fit, a: Point, b: Point)
    requires Euclidean(f.norm)
    ensures Chord(f, a, b) == Chord(f, b, a)
  {
    GapSymmetric(f.norm, a, b);
  }

  lemma UnskippedRuns(chain: seq<Point>, ps: seq<Piece>)
    requires ps != [] && InChain(chain, ps) && NoneSkipped(ps)
    ensures RunsClosed(chain, ps)
  {}

  /** With such bounds every polygon is fitted by a chain from the anchor back to it. */
  lemma CoarseCloses(f: Fit, poly: seq<Point>, segs: seq<Segment>)
    requires Euclidean(f.norm) && Coarse(f) && |poly| >= 3 && FittedLoop(f, poly, segs)
    ensures ChainFrom(segs, Rotated(poly)[0], Rotated(poly)[0])
  {
    hide Pieces, Euclidean, Chord, Rotated, SegmentsOf, RunsClosed;
    EmptyExactly(f, poly, segs);
    FittedLoopCloses(f, poly, segs);
    if segs != [] {
      UnskippedRuns(Loop(poly), LoopPieces(f, poly));
    }
  }
}
