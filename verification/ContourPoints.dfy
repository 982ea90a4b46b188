/** The ink mask read back from the points of the returned contours. */
module ContourPoints {
  import Outline
  import opened MarchingSquares
  import opened ContourWalk
  import opened ContourMask

  /** The points of all loops, each closing point counted once. */
  function VertexList(loops: seq<seq<Point>>): seq<Point>
    requires forall k | 0 <= k < |loops| :: loops[k] != []
  {
    if loops == [] then []
    else var n := |loops| - 1; VertexList(loops[..n]) + loops[n][..|loops[n]| - 1]
  }

  predicate LeftOnRow(p: Point, y: int, x: int) { p.y == y as real && p.x < x as real }

  /** How many points lie on row y left of sample x. */
  function CountLeft(pts: seq<Point>, y: int, x: int): nat {
    if pts == [] then 0 else CountLeft(pts[1..], y, x) + if LeftOnRow(pts[0], y, x) then 1 else 0
  }

  // ---------------------------------------------------------------- points of doors

  lemma PointsAppend(a: seq<EdgeKey>, b: seq<EdgeKey>, at: EdgeKey -> Point)
    ensures Points(a + b, at) == Points(a, at) + Points(b, at)
  {}

  /** The points of the loops are the vertices of the doors their walks pass. */
  lemma {:induction false} VerticesOfDoors(
      segs: seq<Segment>, at: EdgeKey -> Point, loops: seq<seq<Point>>, walks: seq<Walk>)
    requires |loops| == |walks| && AllClosed(segs, walks)
    requires forall k | 0 <= k < |walks| :: loops[k] == Points(walks[k].doors, at)
    ensures forall k | 0 <= k < |loops| :: loops[k] != []
    ensures VertexList(loops) == Points(Doors(walks), at)
  {
    assert forall k | 0 <= k < |walks| :: Closed(segs, walks[k]);
    if walks != [] {
      var n := |walks| - 1;
      VerticesOfDoors(segs, at, loops[..n], walks[..n]);
      PointsAppend(Doors(walks[..n]), Passed(walks[n]), at);
      assert loops[n][..|loops[n]| - 1] == Points(Passed(walks[n]), at);
    }
  }

  const SAME := 0.000000000001

  /** Sample (y, x) is on the level and its neighbour (v, u) is ink, not within 1e-12 of it: the
      vertex between the two stands on the sample. */
  predicate Stands(cov: Coverage, iso: real, y: int, x: int, v: int, u: int)
    requires Rectangular(cov)
  {
    InSamples(cov, y, x) && InSamples(cov, v, u) && At(cov, y, x) == iso && At(cov, v, u) >= iso + SAME
  }

  /** A crossing is at an end exactly when that end is on the level and the other is clear of it. */
  lemma CrossingAtEnd(v0: real, v1: real, iso: real)
    requires (v0 > iso) != (v1 > iso)
    ensures Crossing(v0, v1, iso) == 0.0 <==> v0 == iso && v1 >= iso + SAME
    ensures Crossing(v0, v1, iso) == 1.0 <==> v1 == iso && v0 >= iso + SAME
  {
    CrossingIsOnIso(v0, v1, iso);
    var t := Crossing(v0, v1, iso);
    assert t == 0.0 ==> v0 + t * (v1 - v0) == v0;
    assert t == 1.0 ==> v0 + t * (v1 - v0) == v1;
    if Abs(v1 - v0) >= SAME { AtEnd(t, v0, v1, iso); }
  }

  lemma AtEnd(t: real, v0: real, v1: real, iso: real)
    requires v0 != v1 && v0 + t * (v1 - v0) == iso
    ensures (v0 == iso ==> t == 0.0) && (v1 == iso ==> t == 1.0)
  {
    var d := v1 - v0;
    if v0 == iso { ZeroProduct(t, d); }
    if v1 == iso { ZeroProduct(t - 1.0, d); }
  }

  lemma ZeroProduct(s: real, d: real)
    requires s * d == 0.0 && d != 0.0
    ensures s == 0.0
  {}

  /** The edge is crossed left of sample x on row y. */
  predicate Crosses(e: EdgeKey, y: int, x: int) { e.H? && e.y == y && 0 <= e.x < x }

  /** A vertical edge whose vertex stands on a sample of row y left of sample x. */
  predicate Strays(cov: Coverage, iso: real, e: EdgeKey, y: int, x: int)
    requires Rectangular(cov)
  {
    && e.V? && 0 <= e.x < x
    && ((e.y == y && Stands(cov, iso, y, e.x, y + 1, e.x)) || (e.y == y - 1 && Stands(cov, iso, y, e.x, y - 1, e.x)))
  }

  /** The edge left of sample x, whose vertex stands on that sample and not left of it. */
  predicate Lost(cov: Coverage, iso: real, e: EdgeKey, y: int, x: int)
    requires Rectangular(cov)
  {
    e == H(y, x - 1) && Stands(cov, iso, y, x, y, x - 1)
  }

  function Bit(b: bool): nat { if b then 1 else 0 }

  /** Which vertices lie left of sample x on row y. */
  lemma VertexLeft(cov: Coverage, iso: real, e: EdgeKey, y: int, x: nat)
    requires Rectangular(cov) && InEdges(cov, e) && Changes(cov, iso, e)
    ensures LeftOnRow(Vertices(cov, iso)(e), y, x)
       <==> (Crosses(e, y, x) && !Lost(cov, iso, e, y, x)) || Strays(cov, iso, e, y, x)
    ensures Lost(cov, iso, e, y, x) ==> Crosses(e, y, x)
  {
    match e
    case H(ey, ex) =>
      var (v0, v1) := (At(cov, ey, ex), At(cov, ey, ex + 1));
      CrossingAtEnd(v0, v1, iso);
      hide Crossing;
      LeftOfCorner(ex, x, Crossing(v0, v1, iso));
    case V(ey, ex) =>
      var (v0, v1) := (At(cov, ey, ex), At(cov, ey + 1, ex));
      CrossingAtEnd(v0, v1, iso);
      hide Crossing;
      OnRow(ey, y, Crossing(v0, v1, iso));
  }

  lemma LeftOfCorner(ex: int, x: int, t: real)
    requires 0.0 <= t <= 1.0
    ensures ex as real + t < x as real <==> ex < x && (ex + 1 < x || t < 1.0)
  {
    if ex < x && ex + 1 >= x { assert ex as real + 1.0 == x as real; }
  }

  lemma OnRow(ey: int, y: int, t: real)
    requires 0.0 <= t <= 1.0
    ensures ey as real + t == y as real <==> (y == ey && t == 0.0) || (y == ey + 1 && t == 1.0)
  {
    assert y <= ey || ey + 1 <= y;
  }

  lemma {:induction false} CrossingsAdd(doors: multiset<EdgeKey>, e: EdgeKey, y: int, x: nat)
    ensures Crossings(doors + multiset{e}, y, x) == Crossings(doors, y, x) + Bit(Crosses(e, y, x))
  {
    if x > 0 { CrossingsAdd(doors, e, y, x - 1); }
  }

  /** Doors whose vertex stands on a sample of row y left of sample x. */
  ghost function StrayDoors(cov: Coverage, iso: real, doors: multiset<EdgeKey>, y: int, x: nat): nat
    requires Rectangular(cov)
  {
    if x == 0 then 0 else
    StrayDoors(cov, iso, doors, y, x - 1)
    + Bit(Stands(cov, iso, y, x - 1, y - 1, x - 1)) * doors[V(y - 1, x - 1)]
    + Bit(Stands(cov, iso, y, x - 1, y + 1, x - 1)) * doors[V(y, x - 1)]
  }

  lemma {:induction false} StraysAdd(cov: Coverage, iso: real, doors: multiset<EdgeKey>, e: EdgeKey, y: int, x: nat)
    requires Rectangular(cov)
    ensures StrayDoors(cov, iso, doors + multiset{e}, y, x)
         == StrayDoors(cov, iso, doors, y, x) + Bit(Strays(cov, iso, e, y, x))
  {
    hide Stands;
    if x > 0 { StraysAdd(cov, iso, doors, e, y, x - 1); }
  }

  lemma {:induction false} NoneCounted(cov: Coverage, iso: real, y: int, x: nat)
    requires Rectangular(cov)
    ensures Crossings(multiset{}, y, x) == 0 && StrayDoors(cov, iso, multiset{}, y, x) == 0
  {
    hide Stands;
    if x > 0 { NoneCounted(cov, iso, y, x - 1); }
  }

  /** The points left on the row are the doors crossed there and the vertices that stray onto it,
      without the one that stands on the sample itself. */
  lemma {:induction false} CountOfDoors(cov: Coverage, iso: real, s: seq<EdgeKey>, y: int, x: nat)
    requires Rectangular(cov)
    requires forall e | e in s :: InEdges(cov, e) && Changes(cov, iso, e)
    ensures CountLeft(Points(s, Vertices(cov, iso)), y, x)
            + Bit(Stands(cov, iso, y, x, y, x - 1)) * multiset(s)[H(y, x - 1)]
         == Crossings(multiset(s), y, x) + StrayDoors(cov, iso, multiset(s), y, x)
  {
    hide Changes, Stands, Vertices, LeftOnRow;
    var at := Vertices(cov, iso);
    if s == [] {
      NoneCounted(cov, iso, y, x);
    } else {
      var (e, rest) := (s[0], s[1..]);
      assert s == [e] + rest && multiset(s) == multiset(rest) + multiset{e};
      assert Points(s, at)[0] == at(e) && Points(s, at)[1..] == Points(rest, at);
      CountOfDoors(cov, iso, rest, y, x);
      assert e in s;
      VertexLeft(cov, iso, e, y, x);
      CrossingsAdd(multiset(rest), e, y, x);
      StraysAdd(cov, iso, multiset(rest), e, y, x);
      CountFirst(Points(s, at), y, x);
    }
  }

  lemma CountFirst(pts: seq<Point>, y: int, x: int)
    requires pts != []
    ensures CountLeft(pts, y, x) == CountLeft(pts[1..], y, x) + Bit(LeftOnRow(pts[0], y, x))
  {}

  // ---------------------------------------------------------------- samples on the level

  /** How many samples of row y left of x carry a vertex of their upper or lower edge, each counted. */
  function StandCount(cov: Coverage, iso: real, y: int, x: nat): nat
    requires Rectangular(cov)
  {
    if x == 0 then 0 else
    StandCount(cov, iso, y, x - 1) + Bit(Stands(cov, iso, y, x - 1, y - 1, x - 1))
    + Bit(Stands(cov, iso, y, x - 1, y + 1, x - 1))
  }

  lemma StandingChanges(cov: Coverage, iso: real, y: int, x: int)
    requires Rectangular(cov)
    ensures Stands(cov, iso, y, x, y - 1, x) ==> InEdges(cov, V(y - 1, x)) && Changes(cov, iso, V(y - 1, x))
    ensures Stands(cov, iso, y, x, y + 1, x) ==> InEdges(cov, V(y, x)) && Changes(cov, iso, V(y, x))
    ensures Stands(cov, iso, y, x, y, x - 1) ==> InEdges(cov, H(y, x - 1)) && Changes(cov, iso, H(y, x - 1))
  {}

  lemma {:induction false} StraysOnce(cov: Coverage, iso: real, doors: multiset<EdgeKey>, y: int, x: nat)
    requires Rectangular(cov)
    requires forall e :: doors[e] == if InEdges(cov, e) && Changes(cov, iso, e) then 1 else 0
    ensures StrayDoors(cov, iso, doors, y, x) == StandCount(cov, iso, y, x)
    ensures Bit(Stands(cov, iso, y, x, y, x - 1)) * doors[H(y, x - 1)] == Bit(Stands(cov, iso, y, x, y, x - 1))
  {
    hide Stands, Changes, InEdges;
    StandingChanges(cov, iso, y, x);
    if x > 0 {
      StraysOnce(cov, iso, doors, y, x - 1);
      StandingChanges(cov, iso, y, x - 1);
    }
  }

  // ---------------------------------------------------------------- the mask from the returned points

  lemma ContouredVertices(
      cov: Coverage, iso: real, segs: seq<Segment>, loops: seq<seq<Point>>, walks: seq<Walk>)
    requires Rectangular(cov) && Contoured(cov, iso, segs, loops, walks)
    ensures forall k | 0 <= k < |loops| :: loops[k] != []
    ensures forall k | 0 <= k < |walks| :: |walks[k].steps| <= |walks[k].doors|
    ensures VertexList(loops) == Points(Doors(walks), Vertices(cov, iso))
    ensures forall e | e in Doors(walks) :: InEdges(cov, e) && Changes(cov, iso, e)
  {
    hide Changes, Closed, Traced, BackgroundBorder;
    VerticesOfDoors(segs, Vertices(cov, iso), loops, walks);
    AllClosedFit(segs, walks);
    forall e | e in Doors(walks)
      ensures InEdges(cov, e) && Changes(cov, iso, e)
    {
      hide Contoured;
      DoorsAreChanges(cov, iso, segs, loops, walks, e);
    }
  }

  lemma AllClosedFit(segs: seq<Segment>, walks: seq<Walk>)
    requires AllClosed(segs, walks)
    ensures forall k | 0 <= k < |walks| :: |walks[k].steps| <= |walks[k].doors|
  {
    assert forall k | 0 <= k < |walks| :: Closed(segs, walks[k]);
  }

  lemma DoorsOfContours(
      cov: Coverage, iso: real, segs: seq<Segment>, loops: seq<seq<Point>>, walks: seq<Walk>)
    requires Rectangular(cov) && Contoured(cov, iso, segs, loops, walks)
    ensures forall k | 0 <= k < |walks| :: |walks[k].steps| <= |walks[k].doors|
    ensures forall e :: multiset(Doors(walks))[e] == if InEdges(cov, e) && Changes(cov, iso, e) then 1 else 0
  {
    ContouredVertices(cov, iso, segs, loops, walks);
    hide Contoured, Changes, InEdges, Doors;
    forall e
      ensures multiset(Doors(walks))[e] == if InEdges(cov, e) && Changes(cov, iso, e) then 1 else 0
    {
      DoorCount(cov, iso, segs, loops, walks, e);
    }
  }

  /** The points of the returned loops left of a sample on its row: one for each crossed edge, and
      one for each vertex that stands on a sample there, without the one on the sample itself. */
  lemma VertexCountExactly(
      cov: Coverage, iso: real, segs: seq<Segment>, loops: seq<seq<Point>>, walks: seq<Walk>, y: int, x: nat)
    requires Rectangular(cov) && Contoured(cov, iso, segs, loops, walks) && InSamples(cov, y, x)
    ensures forall k | 0 <= k < |loops| :: loops[k] != []
    ensures forall k | 0 <= k < |walks| :: |walks[k].steps| <= |walks[k].doors|
    ensures CountLeft(VertexList(loops), y, x) + Bit(Stands(cov, iso, y, x, y, x - 1))
         == Crossings(multiset(Doors(walks)), y, x) + StandCount(cov, iso, y, x)
  {
    hide Changes, Contoured, Doors, Points, Stands, InEdges;
    ContouredVertices(cov, iso, segs, loops, walks);
    CountOfDoors(cov, iso, Doors(walks), y, x);
    DoorsOfContours(cov, iso, segs, loops, walks);
    StraysOnce(cov, iso, multiset(Doors(walks)), y, x);
  }

  /** The parity of the points to its left tells whether a sample is ink, exactly when an even
      number of vertices stands on samples of its row left of it or, coming from the left, on it. */
  lemma ParityExactly(
      cov: Coverage, iso: real, segs: seq<Segment>, loops: seq<seq<Point>>, walks: seq<Walk>, y: int, x: nat)
    requires Rectangular(cov) && Contoured(cov, iso, segs, loops, walks) && InSamples(cov, y, x)
    ensures forall k | 0 <= k < |loops| :: loops[k] != []
    ensures (Ink(cov, iso, y, x) <==> CountLeft(VertexList(loops), y, x) % 2 == 1)
       <==> (StandCount(cov, iso, y, x) + Bit(Stands(cov, iso, y, x, y, x - 1))) % 2 == 0
  {
    hide Contoured, Doors, Stands, Ink, CountLeft, VertexList, StandCount, Crossings;
    VertexCountExactly(cov, iso, segs, loops, walks, y, x);
    ContoursDetermineInk(cov, iso, segs, loops, walks, y, x);
    SameParity(CountLeft(VertexList(loops), y, x), Bit(Stands(cov, iso, y, x, y, x - 1)),
               Crossings(multiset(Doors(walks)), y, x), StandCount(cov, iso, y, x));
  }

  lemma SameParity(count: nat, lost: nat, crossed: nat, standing: nat)
    requires count + lost == crossed + standing
    ensures count % 2 == crossed % 2 <==> (standing + lost) % 2 == 0
  {}

  /** No sample lies exactly on the iso level. */
  ghost predicate OffLevel(cov: Coverage, iso: real)
    requires Rectangular(cov)
  {
    forall y, x | InSamples(cov, y, x) :: At(cov, y, x) != iso
  }

  lemma {:induction false} NothingStands(cov: Coverage, iso: real, y: int, x: nat)
    requires Rectangular(cov) && OffLevel(cov, iso)
    ensures StandCount(cov, iso, y, x) == 0 && !Stands(cov, iso, y, x, y, x - 1)
  {
    if x > 0 { NothingStands(cov, iso, y, x - 1); }
  }

  /** Where no sample lies on the level, a sample is ink exactly when an odd number of the points
      of the returned loops lies to its left on its row. */
  lemma VerticesDetermineInk(
      cov: Coverage, iso: real, segs: seq<Segment>, loops: seq<seq<Point>>, walks: seq<Walk>, y: int, x: nat)
    requires Rectangular(cov) && Contoured(cov, iso, segs, loops, walks) && OffLevel(cov, iso)
    requires InSamples(cov, y, x)
    ensures forall k | 0 <= k < |loops| :: loops[k] != []
    ensures Ink(cov, iso, y, x) <==> CountLeft(VertexList(loops), y, x) % 2 == 1
  {
    hide Contoured, OffLevel, Stands;
    ParityExactly(cov, iso, segs, loops, walks, y, x);
    NothingStands(cov, iso, y, x);
  }

  // ---------------------------------------------------------------- a sample on the level

  /** One ink sample below a sample that lies exactly on the level. */
  const OnLevel: Coverage := [
    [0.0, 0.0, 0.0, 0.0], [0.0, 0.5, 0.0, 0.0], [0.0, 1.0, 0.0, 0.0], [0.0, 0.0, 0.0, 0.0]]

  lemma OnLevelDoors(e: EdgeKey)
    requires Rectangular(OnLevel)
    ensures InEdges(OnLevel, e) && Changes(OnLevel, 0.5, e) <==> e in [H(2, 0), H(2, 1), V(1, 1), V(2, 1)]
  {
    assert forall y, x | InSamples(OnLevel, y, x) :: Ink(OnLevel, 0.5, y, x) <==> y == 2 && x == 1;
  }

  lemma {:induction false} CountOnly(s: seq<EdgeKey>, at: EdgeKey -> Point, e: EdgeKey, y: int, x: int)
    requires forall d | d in s :: LeftOnRow(at(d), y, x) <==> d == e
    ensures CountLeft(Points(s, at), y, x) == multiset(s)[e]
  {
    if s != [] {
      assert s == [s[0]] + s[1..];
      assert Points(s, at)[1..] == Points(s[1..], at);
      CountOnly(s[1..], at, e, y, x);
    }
  }

  /** The vertex between the level and the ink lies on the upper sample's row: the sample to the
      right of it is no ink, and yet exactly one returned point lies to its left on its row. */
  lemma OnLevelMiscounts(segs: seq<Segment>, loops: seq<seq<Point>>, walks: seq<Walk>)
    requires Rectangular(OnLevel) && Contoured(OnLevel, 0.5, segs, loops, walks)
    ensures forall k | 0 <= k < |loops| :: loops[k] != []
    ensures InSamples(OnLevel, 1, 2) && !Ink(OnLevel, 0.5, 1, 2)
    ensures CountLeft(VertexList(loops), 1, 2) == 1
  {
    hide Changes, Contoured, Doors, Points, Vertices, InEdges;
    var at := Vertices(OnLevel, 0.5);
    ContouredVertices(OnLevel, 0.5, segs, loops, walks);
    forall d | d in Doors(walks)
      ensures LeftOnRow(at(d), 1, 2) <==> d == V(1, 1)
    {
      OnLevelDoors(d);
      OnLevelVertices();
    }
    CountOnly(Doors(walks), at, V(1, 1), 1, 2);
    DoorCount(OnLevel, 0.5, segs, loops, walks, V(1, 1));
    OnLevelDoors(V(1, 1));
  }

  lemma OnLevelVertices()
    requires Rectangular(OnLevel)
    ensures var at := Vertices(OnLevel, 0.5);
            && at(V(1, 1)) == Outline.Point(1.0, 1.0) && at(V(2, 1)) == Outline.Point(1.0, 2.5)
            && at(H(2, 0)) == Outline.Point(0.5, 2.0) && at(H(2, 1)) == Outline.Point(1.5, 2.0)
  {}
}
