/** The ink mask recovered from the points of the returned contours, whatever their order. */
module ContourRecovery {
  import Outline
  import opened MarchingSquares
  import opened ContourWalk
  import opened ContourMask
  import opened ContourPoints

  function Corner(y: int, x: int): Point { Outline.Point(x as real, y as real) }

  predicate OnEdge(e: EdgeKey, p: Point) {
    match e
    case H(y, x) => p.y == y as real && x as real <= p.x <= (x + 1) as real
    case V(y, x) => p.x == x as real && y as real <= p.y <= (y + 1) as real
  }

  predicate Inside(e: EdgeKey, p: Point) {
    match e
    case H(y, x) => p.y == y as real && (x as real) < p.x < (x + 1) as real
    case V(y, x) => p.x == x as real && (y as real) < p.y < (y + 1) as real
  }

  /** Samples (y, x) and (v, u) are neighbours on the grid. */
  predicate Next(y: int, x: int, v: int, u: int) {
    (v == y && (u == x - 1 || u == x + 1)) || (u == x && (v == y - 1 || v == y + 1))
  }

  /** The grid edge between two neighbours. */
  function EdgeOf(y: int, x: int, v: int, u: int): EdgeKey
    requires Next(y, x, v, u)
  {
    if v == y then H(y, if u < x then u else x) else V(if v < y then v else y, x)
  }

  ghost predicate Crossed(cov: Coverage, iso: real, e: EdgeKey)
    requires Rectangular(cov)
  {
    InEdges(cov, e) && Changes(cov, iso, e)
  }

  // ---------------------------------------------------------------- where a vertex lies

  /** A point strictly inside a grid edge is on no other. */
  lemma InsideIsOwn(e: EdgeKey, f: EdgeKey, p: Point)
    requires Inside(e, p) && OnEdge(f, p)
    ensures e == f
  {
    match e {
      case H(y, x) => assert f.x <= x <= f.x + 1;
      case V(y, x) => assert f.y <= y <= f.y + 1;
    }
  }

  predicate OneOf(d: EdgeKey, e: EdgeKey, f: EdgeKey, g: EdgeKey, h: EdgeKey) { d == e || d == f || d == g || d == h }

  lemma CornerEdges(e: EdgeKey, y: int, x: int)
    requires OnEdge(e, Corner(y, x))
    ensures OneOf(e, H(y, x - 1), H(y, x), V(y - 1, x), V(y, x))
  {
    match e {
      case H(ey, ex) =>
        assert ey == y;
        assert ex == x - 1 || ex == x;
      case V(ey, ex) =>
        assert ex == x;
        assert ey == y - 1 || ey == y;
    }
  }

  lemma VertexOnEdge(cov: Coverage, iso: real, e: EdgeKey)
    requires Rectangular(cov) && Crossed(cov, iso, e)
    ensures OnEdge(e, Vertices(cov, iso)(e))
  {
    hide Crossing;
  }

  lemma VertexOfPair(cov: Coverage, iso: real, y: int, x: int, v: int, u: int)
    requires Rectangular(cov) && Next(y, x, v, u) && InSamples(cov, y, x) && InSamples(cov, v, u)
    requires !Ink(cov, iso, y, x) && Ink(cov, iso, v, u)
    ensures var (e, at) := (EdgeOf(y, x, v, u), Vertices(cov, iso));
            Crossed(cov, iso, e)
            && if Stands(cov, iso, y, x, v, u) then at(e) == Corner(y, x) else Inside(e, at(e))
  {
    var (d, b) := (At(cov, y, x), At(cov, v, u));
    CrossingAtEnd(d, b, iso);
    CrossingAtEnd(b, d, iso);
    hide Crossing;
  }

  /** A changing edge of a sample has its vertex on the sample exactly when it stands there. */
  lemma CornerOfPair(cov: Coverage, iso: real, y: int, x: int, v: int, u: int)
    requires Rectangular(cov) && Next(y, x, v, u)
    ensures var e := EdgeOf(y, x, v, u);
            Crossed(cov, iso, e) && Vertices(cov, iso)(e) == Corner(y, x) <==> Stands(cov, iso, y, x, v, u)
  {
    if InSamples(cov, y, x) && InSamples(cov, v, u) && Ink(cov, iso, y, x) != Ink(cov, iso, v, u) {
      var (d, b) := (At(cov, y, x), At(cov, v, u));
      CrossingAtEnd(d, b, iso);
      CrossingAtEnd(b, d, iso);
      hide Crossing;
    }
  }

  // ---------------------------------------------------------------- how often a point occurs

  function Share(s: seq<EdgeKey>, at: EdgeKey -> Point, p: Point, e: EdgeKey): nat {
    if at(e) == p then multiset(s)[e] else 0
  }

  lemma ShareFirst(s: seq<EdgeKey>, at: EdgeKey -> Point, p: Point, e: EdgeKey)
    requires s != []
    ensures Share(s, at, p, e) == Share(s[1..], at, p, e) + Bit(s[0] == e && at(e) == p)
  {
    assert s == [s[0]] + s[1..];
    assert multiset(s) == multiset(s[1..]) + multiset{s[0]};
  }

  lemma PointsFirst(s: seq<EdgeKey>, at: EdgeKey -> Point, p: Point)
    requires s != []
    ensures multiset(Points(s, at))[p] == multiset(Points(s[1..], at))[p] + Bit(at(s[0]) == p)
  {
    assert Points(s, at) == [at(s[0])] + Points(s[1..], at);
  }

  lemma {:induction false} PointCount(
      s: seq<EdgeKey>, at: EdgeKey -> Point, p: Point, e: EdgeKey, f: EdgeKey, g: EdgeKey, h: EdgeKey)
    requires e != f && e != g && e != h && f != g && f != h && g != h
    requires forall d | d in s && at(d) == p :: OneOf(d, e, f, g, h)
    ensures multiset(Points(s, at))[p]
         == Share(s, at, p, e) + Share(s, at, p, f) + Share(s, at, p, g) + Share(s, at, p, h)
  {
    if s != [] {
      PointCount(s[1..], at, p, e, f, g, h);
      PointsFirst(s, at, p);
      ShareFirst(s, at, p, e);
      ShareFirst(s, at, p, f);
      ShareFirst(s, at, p, g);
      ShareFirst(s, at, p, h);
      hide Share, Points;
      assert s[0] in s;
    }
  }

  /** How many vertices stand on a sample. */
  function Standing(cov: Coverage, iso: real, y: int, x: int): nat
    requires Rectangular(cov)
  {
    Bit(Stands(cov, iso, y, x, y, x - 1)) + Bit(Stands(cov, iso, y, x, y, x + 1))
    + Bit(Stands(cov, iso, y, x, y - 1, x)) + Bit(Stands(cov, iso, y, x, y + 1, x))
  }

  /** The points are the vertices of the grid: each is one of them, each of them is there, and a
      sample occurs once for every vertex that stands on it. */
  ghost predicate Drawn(cov: Coverage, iso: real, pts: multiset<Point>)
    requires Rectangular(cov)
  {
    && (forall e | Crossed(cov, iso, e) :: Vertices(cov, iso)(e) in pts)
    && (forall p | p in pts :: exists e :: Crossed(cov, iso, e) && Vertices(cov, iso)(e) == p)
    && forall y, x :: pts[Corner(y, x)] == Standing(cov, iso, y, x)
  }

  lemma CornerCount(cov: Coverage, iso: real, s: seq<EdgeKey>, y: int, x: int)
    requires Rectangular(cov)
    requires forall e :: multiset(s)[e] == if Crossed(cov, iso, e) then 1 else 0
    ensures multiset(Points(s, Vertices(cov, iso)))[Corner(y, x)] == Standing(cov, iso, y, x)
  {
    hide Crossed, Stands, Vertices, Points, OnEdge;
    var (at, p) := (Vertices(cov, iso), Corner(y, x));
    forall d | d in s && at(d) == p
      ensures OneOf(d, H(y, x - 1), H(y, x), V(y - 1, x), V(y, x))
    {
      assert multiset(s)[d] > 0;
      VertexOnEdge(cov, iso, d);
      CornerEdges(d, y, x);
    }
    PointCount(s, at, p, H(y, x - 1), H(y, x), V(y - 1, x), V(y, x));
    CornerOfPair(cov, iso, y, x, y, x - 1);
    CornerOfPair(cov, iso, y, x, y, x + 1);
    CornerOfPair(cov, iso, y, x, y - 1, x);
    CornerOfPair(cov, iso, y, x, y + 1, x);
  }

  /** The returned points are the vertices of the grid. */
  lemma ContoursAreDrawn(
      cov: Coverage, iso: real, segs: seq<Segment>, loops: seq<seq<Point>>, walks: seq<Walk>)
    requires Rectangular(cov) && Contoured(cov, iso, segs, loops, walks)
    ensures forall k | 0 <= k < |loops| :: loops[k] != []
    ensures Drawn(cov, iso, multiset(VertexList(loops)))
  {
    ContouredVertices(cov, iso, segs, loops, walks);
    DoorsOfContours(cov, iso, segs, loops, walks);
    hide Contoured, Doors, VertexList;
    DoorsAreDrawn(cov, iso, Doors(walks));
  }

  lemma DoorsAreDrawn(cov: Coverage, iso: real, s: seq<EdgeKey>)
    requires Rectangular(cov)
    requires forall e :: multiset(s)[e] == if Crossed(cov, iso, e) then 1 else 0
    ensures Drawn(cov, iso, multiset(Points(s, Vertices(cov, iso))))
  {
    hide Crossed, Vertices, Standing;
    var at := Vertices(cov, iso);
    var pts := Points(s, at);
    forall e | Crossed(cov, iso, e)
      ensures at(e) in multiset(pts)
    {
      assert multiset(s)[e] == 1;
      var i :| 0 <= i < |s| && s[i] == e;
      assert pts[i] == at(e);
    }
    forall p | p in multiset(pts)
      ensures exists e :: Crossed(cov, iso, e) && at(e) == p
    {
      var i :| 0 <= i < |pts| && pts[i] == p;
      assert multiset(s)[s[i]] > 0;
      assert Crossed(cov, iso, s[i]) && at(s[i]) == p;
    }
    forall y, x
      ensures multiset(pts)[Corner(y, x)] == Standing(cov, iso, y, x)
    {
      CornerCount(cov, iso, s, y, x);
    }
  }

  // ---------------------------------------------------------------- two grids with the same points

  ghost predicate SamePoints(a: Coverage, b: Coverage, iso: real, pts: multiset<Point>) {
    && Rectangular(a) && Rectangular(b) && Height(a) == Height(b) && Width(a) == Width(b)
    && Drawn(a, iso, pts) && Drawn(b, iso, pts)
  }

  /** A vertex strictly inside an edge of one grid is the vertex of that edge in the other. */
  lemma InsideIsShared(a: Coverage, b: Coverage, iso: real, pts: multiset<Point>, e: EdgeKey)
    requires SamePoints(a, b, iso, pts)
    requires Crossed(b, iso, e) && Inside(e, Vertices(b, iso)(e))
    ensures Crossed(a, iso, e) && Vertices(a, iso)(e) == Vertices(b, iso)(e)
  {
    hide Crossed, Vertices, Standing, OnEdge, Inside;
    var p := Vertices(b, iso)(e);
    assert p in pts;
    var f :| Crossed(a, iso, f) && Vertices(a, iso)(f) == p;
    VertexOnEdge(a, iso, f);
    InsideIsOwn(e, f, p);
  }

  /** Where the masks agree on two neighbours, a vertex stands there in both grids or in neither. */
  lemma StandsInBoth(a: Coverage, b: Coverage, iso: real, pts: multiset<Point>, y: int, x: int, v: int, u: int)
    requires SamePoints(a, b, iso, pts) && Next(y, x, v, u) && InSamples(a, y, x)
    requires Ink(a, iso, y, x) == Ink(b, iso, y, x)
    requires InSamples(a, v, u) ==> Ink(a, iso, v, u) == Ink(b, iso, v, u)
    ensures Stands(a, iso, y, x, v, u) ==> Stands(b, iso, y, x, v, u)
  {
    if Stands(a, iso, y, x, v, u) {
      VertexOfPair(a, iso, y, x, v, u);
      VertexOfPair(b, iso, y, x, v, u);
      var e := EdgeOf(y, x, v, u);
      hide SamePoints, Vertices, Crossed, Stands, EdgeOf;
      if Inside(e, Vertices(b, iso)(e)) {
        InsideIsShared(a, b, iso, pts, e);
      }
      assert !Inside(e, Corner(y, x));
    }
  }

  /** As many vertices stand on a sample in both grids. */
  lemma StandingInBoth(a: Coverage, b: Coverage, iso: real, pts: multiset<Point>, y: int, x: int)
    requires SamePoints(a, b, iso, pts)
    ensures Standing(a, iso, y, x) == Standing(b, iso, y, x)
  {
    hide Standing;
    assert pts[Corner(y, x)] == Standing(a, iso, y, x);
  }

  lemma StandingIsDark(cov: Coverage, iso: real, y: int, x: int)
    requires Rectangular(cov)
    ensures Standing(cov, iso, y, x) > 0 ==> InSamples(cov, y, x) && !Ink(cov, iso, y, x)
  {}

  /** Ink above: a dark sample under it is dark in both grids. */
  lemma UnderInk(a: Coverage, b: Coverage, iso: real, pts: multiset<Point>, y: int, x: int)
    requires SamePoints(a, b, iso, pts) && InSamples(a, y, x) && InSamples(a, y - 1, x)
    requires Ink(a, iso, y - 1, x) && Ink(b, iso, y - 1, x) && !Ink(b, iso, y, x)
    ensures !Ink(a, iso, y, x)
  {
    VertexOfPair(b, iso, y, x, y - 1, x);
    StandingInBoth(a, b, iso, pts, y, x);
    StandingIsDark(a, iso, y, x);
    hide Drawn, Vertices, Stands;
    if !Stands(b, iso, y, x, y - 1, x) {
      InsideIsShared(a, b, iso, pts, V(y - 1, x));
    }
  }

  ghost predicate SameRow(a: Coverage, b: Coverage, iso: real, y: int)
    requires Rectangular(a) && Rectangular(b) && Height(a) == Height(b) && Width(a) == Width(b)
  {
    forall x | InSamples(a, y, x) :: Ink(a, iso, y, x) == Ink(b, iso, y, x)
  }

  /** A vertex that stands on a dark sample coming from the ink below it is one more point there,
      when the sample's other three edges agree: so it stands there in the other grid too. */
  lemma StandsUnder(a: Coverage, b: Coverage, iso: real, pts: multiset<Point>, y: int, x: int)
    requires SamePoints(a, b, iso, pts) && InSamples(a, y, x)
    requires SameRow(a, b, iso, y) && SameRow(a, b, iso, y - 1)
    ensures Stands(a, iso, y, x, y + 1, x) == Stands(b, iso, y, x, y + 1, x)
  {
    StandingInBoth(a, b, iso, pts, y, x);
    OtherThree(a, b, iso, pts, y, x);
    hide SamePoints, SameRow, Stands, InSamples;
  }

  /** Dark above: ink under it is ink in both grids. */
  lemma UnderDark(a: Coverage, b: Coverage, iso: real, pts: multiset<Point>, y: int, x: int)
    requires SamePoints(a, b, iso, pts) && InSamples(a, y, x) && InSamples(a, y - 1, x)
    requires SameRow(a, b, iso, y - 1) && SameRow(a, b, iso, y - 2)
    requires !Ink(a, iso, y - 1, x) && Ink(a, iso, y, x)
    ensures Ink(b, iso, y, x)
  {
    assert Ink(a, iso, y - 1, x) == Ink(b, iso, y - 1, x);
    hide Drawn, Vertices, Stands, SameRow;
    VertexOfPair(a, iso, y - 1, x, y, x);
    if Stands(a, iso, y - 1, x, y, x) {
      StandsUnder(a, b, iso, pts, y - 1, x);
      StandsBelow(b, iso, y - 1, x);
    } else {
      InsideAbove(a, b, iso, pts, y, x);
    }
  }

  lemma InsideAbove(a: Coverage, b: Coverage, iso: real, pts: multiset<Point>, y: int, x: int)
    requires SamePoints(a, b, iso, pts) && InSamples(a, y, x) && InSamples(a, y - 1, x)
    requires Ink(a, iso, y - 1, x) == Ink(b, iso, y - 1, x)
    requires Crossed(a, iso, V(y - 1, x)) && Inside(V(y - 1, x), Vertices(a, iso)(V(y - 1, x)))
    ensures Ink(a, iso, y, x) == Ink(b, iso, y, x)
  {
    hide Drawn, Vertices, Inside;
    SamePointsTurned(a, b, iso, pts);
    InsideIsShared(b, a, iso, pts, V(y - 1, x));
  }

  lemma StandsBelow(cov: Coverage, iso: real, y: int, x: int)
    requires Rectangular(cov) && InSamples(cov, y + 1, x)
    ensures Stands(cov, iso, y, x, y + 1, x) ==> Ink(cov, iso, y + 1, x)
  {}

  /** Where the masks agree on a row and on the one above, the same of a sample's three vertices
      other than the one below it stand there. */
  lemma OtherThree(a: Coverage, b: Coverage, iso: real, pts: multiset<Point>, y: int, x: int)
    requires SamePoints(a, b, iso, pts) && InSamples(a, y, x)
    requires SameRow(a, b, iso, y) && SameRow(a, b, iso, y - 1)
    ensures Stands(a, iso, y, x, y, x - 1) == Stands(b, iso, y, x, y, x - 1)
    ensures Stands(a, iso, y, x, y, x + 1) == Stands(b, iso, y, x, y, x + 1)
    ensures Stands(a, iso, y, x, y - 1, x) == Stands(b, iso, y, x, y - 1, x)
  {
    hide Drawn, Stands, Ink;
    assert Ink(a, iso, y, x) == Ink(b, iso, y, x);
    StandsAlike(a, b, iso, pts, y, x, y, x - 1);
    StandsAlike(a, b, iso, pts, y, x, y, x + 1);
    StandsAlike(a, b, iso, pts, y, x, y - 1, x);
  }

  lemma StandsAlike(a: Coverage, b: Coverage, iso: real, pts: multiset<Point>, y: int, x: int, v: int, u: int)
    requires SamePoints(a, b, iso, pts) && Next(y, x, v, u) && InSamples(a, y, x)
    requires Ink(a, iso, y, x) == Ink(b, iso, y, x)
    requires InSamples(a, v, u) ==> Ink(a, iso, v, u) == Ink(b, iso, v, u)
    ensures Stands(a, iso, y, x, v, u) == Stands(b, iso, y, x, v, u)
  {
    hide Drawn, Stands, Ink;
    SamePointsTurned(a, b, iso, pts);
    StandsInBoth(a, b, iso, pts, y, x, v, u);
    StandsInBoth(b, a, iso, pts, y, x, v, u);
  }

  lemma SamePointsTurned(a: Coverage, b: Coverage, iso: real, pts: multiset<Point>)
    requires SamePoints(a, b, iso, pts)
    ensures SamePoints(b, a, iso, pts)
  {
    hide Drawn;
  }

  lemma NextRow(a: Coverage, b: Coverage, iso: real, pts: multiset<Point>, y: int, x: int)
    requires SamePoints(a, b, iso, pts) && InSamples(a, y, x) && InSamples(a, y - 1, x)
    requires SameRow(a, b, iso, y - 1) && SameRow(a, b, iso, y - 2)
    ensures Ink(a, iso, y, x) ==> Ink(b, iso, y, x)
  {
    hide Drawn;
    if Ink(a, iso, y - 1, x) {
      if !Ink(b, iso, y, x) { UnderInk(a, b, iso, pts, y, x); }
    } else {
      if Ink(a, iso, y, x) { UnderDark(a, b, iso, pts, y, x); }
    }
  }

  lemma {:induction false} RowsAgree(a: Coverage, b: Coverage, iso: real, pts: multiset<Point>, y: nat)
    requires SamePoints(a, b, iso, pts) && BackgroundBorder(a, iso) && BackgroundBorder(b, iso)
    ensures SameRow(a, b, iso, y) && SameRow(a, b, iso, y - 1)
  {
    hide Drawn;
    if y > 0 {
      RowsAgree(a, b, iso, pts, y - 1);
      SamePointsTurned(a, b, iso, pts);
      hide SamePoints, BackgroundBorder;
      forall x | InSamples(a, y, x)
        ensures Ink(a, iso, y, x) == Ink(b, iso, y, x)
      {
        NextRow(a, b, iso, pts, y, x);
        NextRow(b, a, iso, pts, y, x);
      }
    }
  }

  /** Two bordered grids of one size whose loops have the same points have the same ink mask. */
  lemma SameLoopsSameMask(
      a: Coverage, b: Coverage, iso: real, segsA: seq<Segment>, loopsA: seq<seq<Point>>, walksA: seq<Walk>,
      segsB: seq<Segment>, loopsB: seq<seq<Point>>, walksB: seq<Walk>, y: int, x: int)
    requires Rectangular(a) && Contoured(a, iso, segsA, loopsA, walksA)
    requires Rectangular(b) && Contoured(b, iso, segsB, loopsB, walksB)
    requires Height(a) == Height(b) && Width(a) == Width(b) && InSamples(a, y, x)
    requires forall k | 0 <= k < |loopsA| :: loopsA[k] != []
    requires forall k | 0 <= k < |loopsB| :: loopsB[k] != []
    requires multiset(VertexList(loopsA)) == multiset(VertexList(loopsB))
    ensures Ink(a, iso, y, x) == Ink(b, iso, y, x)
  {
    assert BackgroundBorder(a, iso) && BackgroundBorder(b, iso);
    hide Contoured, BackgroundBorder, Drawn;
    ContoursAreDrawn(a, iso, segsA, loopsA, walksA);
    ContoursAreDrawn(b, iso, segsB, loopsB, walksB);
    RowsAgree(a, b, iso, multiset(VertexList(loopsA)), y);
  }
}
