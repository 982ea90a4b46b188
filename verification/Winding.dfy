/** Signed areas, segment reversal, and the winding step of the geometry chain. */
module Winding {
  import opened Outline

  function Cross(a: Point, b: Point): real { a.x * b.y - b.x * a.y }

  /** Shoelace terms along an open path. */
  function PathSum(pts: seq<Point>): real {
    if |pts| < 2 then 0.0 else PathSum(pts[..|pts| - 1]) + Cross(pts[|pts| - 2], pts[|pts| - 1])
  }

  /** Shoelace area of a polygon, the closing edge included. */
  function SignedArea(poly: seq<Point>): real {
    if poly == [] then 0.0 else 0.5 * (PathSum(poly) + Cross(poly[|poly| - 1], poly[0]))
  }

  function Reversed<T>(s: seq<T>): (r: seq<T>)
    ensures |r| == |s| && forall i | 0 <= i < |s| :: r[i] == s[|s| - 1 - i]
  {
    if s == [] then [] else Reversed(s[1..]) + [s[0]]
  }

  // ---------------------------------------------------------------- area under the mapping

  function MapPoints(m: CellMapping, pts: seq<Point>): (r: seq<Point>)
    requires m.sizePx != 0.0
    ensures |r| == |pts| && forall i | 0 <= i < |pts| :: r[i] == m.PxToUpem(pts[i])
  {
    seq(|pts|, i requires 0 <= i < |pts| => m.PxToUpem(pts[i]))
  }

  /** One shoelace term under (x, y) -> (k (x - c), k (d - y)). */
  lemma CrossUnderMap(k: real, c: real, d: real, a: Point, b: Point)
    ensures Cross(Point((a.x - c) * k, (d - a.y) * k), Point((b.x - c) * k, (d - b.y) * k))
         == k * k * (d * (a.x - b.x) + c * (b.y - a.y) - Cross(a, b))
  {
    var (p, q, r, s) := (a.x - c, d - a.y, b.x - c, d - b.y);
    assert (p * k) * (s * k) == k * k * (p * s);
    assert (r * k) * (q * k) == k * k * (r * q);
    assert p * s - r * q == d * (a.x - b.x) + c * (b.y - a.y) - Cross(a, b);
  }

  /** What PathSum becomes under the map, from the path's two ends and its own sum. */
  function Mapped(m: CellMapping, a: Point, b: Point, sum: real): real
    requires m.sizePx != 0.0
  {
    var (k, c, d) := (m.UpemPerPx(), m.padLeft + m.phaseX, m.padTop + m.ascent + m.phaseY);
    k * k * (d * (a.x - b.x) + c * (b.y - a.y) - sum)
  }

  lemma MappedStep(m: CellMapping, a: Point, b: Point, e: Point, sum: real)
    requires m.sizePx != 0.0
    ensures Mapped(m, a, b, sum) + Cross(m.PxToUpem(b), m.PxToUpem(e)) == Mapped(m, a, e, sum + Cross(b, e))
  {
    var (k, c, d) := (m.UpemPerPx(), m.padLeft + m.phaseX, m.padTop + m.ascent + m.phaseY);
    CrossUnderMap(k, c, d, b, e);
    Distribute(k * k, d * (a.x - b.x) + c * (b.y - a.y) - sum, d * (b.x - e.x) + c * (e.y - b.y) - Cross(b, e));
    assert d * (a.x - b.x) + d * (b.x - e.x) == d * (a.x - e.x);
    assert c * (b.y - a.y) + c * (e.y - b.y) == c * (e.y - a.y);
  }

  lemma MapPrefix(m: CellMapping, pts: seq<Point>, n: nat)
    requires m.sizePx != 0.0 && n <= |pts|
    ensures MapPoints(m, pts)[..n] == MapPoints(m, pts[..n])
  {
    forall i | 0 <= i < n
      ensures MapPoints(m, pts)[i] == MapPoints(m, pts[..n])[i]
    {
      assert pts[..n][i] == pts[i];
    }
  }

  lemma {:induction false} PathUnderMap(m: CellMapping, pts: seq<Point>)
    requires m.sizePx != 0.0 && pts != []
    ensures PathSum(MapPoints(m, pts)) == Mapped(m, pts[0], pts[|pts| - 1], PathSum(pts))
  {
    hide Mapped, Cross;
    var n := |pts| - 1;
    if n > 0 {
      PathUnderMap(m, pts[..n]);
      MapPrefix(m, pts, n);
      MappedStep(m, pts[0], pts[n - 1], pts[n], PathSum(pts[..n]));
    } else {
      MappedNothing(m, pts[0]);
    }
  }

  lemma MappedNothing(m: CellMapping, a: Point)
    requires m.sizePx != 0.0
    ensures Mapped(m, a, a, 0.0) == 0.0
  {}

  lemma Distribute(k: real, a: real, b: real)
    ensures k * a + k * b == k * (a + b)
  {}

  /** The pixel-to-design mapping multiplies area by minus the squared scale. */
  lemma AreaUnderMap(m: CellMapping, poly: seq<Point>)
    requires m.sizePx != 0.0
    ensures SignedArea(MapPoints(m, poly)) == -(m.UpemPerPx() * m.UpemPerPx()) * SignedArea(poly)
  {
    hide Mapped, Cross;
    if poly != [] {
      var (a, b) := (poly[0], poly[|poly| - 1]);
      PathUnderMap(m, poly);
      MappedStep(m, a, b, a, PathSum(poly));
      MappedLoop(m, a, PathSum(poly) + Cross(b, a));
    }
  }

  lemma MappedLoop(m: CellMapping, a: Point, sum: real)
    requires m.sizePx != 0.0
    ensures 0.5 * Mapped(m, a, a, sum) == -(m.UpemPerPx() * m.UpemPerPx()) * (0.5 * sum)
  {
    var k2 := m.UpemPerPx() * m.UpemPerPx();
    assert Mapped(m, a, a, sum) == k2 * -sum;
  }

  // ---------------------------------------------------------------- reversal

  lemma {:induction false} PathPrepend(p: Point, pts: seq<Point>)
    requires pts != []
    ensures PathSum([p] + pts) == Cross(p, pts[0]) + PathSum(pts)
  {
    var n := |pts| - 1;
    assert ([p] + pts)[..n + 1] == [p] + pts[..n];
    if n > 0 {
      PathPrepend(p, pts[..n]);
    } else {
      assert PathSum([p] + pts[..0]) == 0.0;
    }
  }

  lemma CrossFlips(a: Point, b: Point)
    ensures Cross(b, a) == -Cross(a, b)
  {}

  lemma {:induction false} PathReversed(pts: seq<Point>)
    ensures PathSum(Reversed(pts)) == -PathSum(pts)
  {
    hide Cross;
    if |pts| >= 2 {
      var n := |pts| - 1;
      CrossFlips(pts[n - 1], pts[n]);
      PathReversed(pts[..n]);
      assert Reversed(pts) == [pts[n]] + Reversed(pts[..n]);
      PathPrepend(pts[n], Reversed(pts[..n]));
    }
  }

  /** Reversing a polygon negates its area. */
  lemma AreaReversed(poly: seq<Point>)
    ensures SignedArea(Reversed(poly)) == -SignedArea(poly)
  {
    hide Cross, PathSum;
    PathReversed(poly);
    if poly != [] {
      var (n, r) := (|poly| - 1, Reversed(poly));
      assert r[0] == poly[n] && r[n] == poly[0];
      CrossFlips(poly[n], poly[0]);
    }
  }

  function ReverseSegment(s: Segment): Segment {
    match s
    case Line(p0, p1) => Line(p1, p0)
    case Cubic(p0, p1, p2, p3) => Cubic(p3, p2, p1, p0)
  }

  function ReverseAll(segs: seq<Segment>): (r: seq<Segment>)
    ensures |r| == |segs| && forall i | 0 <= i < |segs| :: r[i] == ReverseSegment(segs[|segs| - 1 - i])
  {
    var b := Reversed(segs);
    seq(|b|, i requires 0 <= i < |b| => ReverseSegment(b[i]))
  }

  /** Reversing keeps a closed chain closed. */
  lemma ReverseKeepsChain(segs: seq<Segment>)
    requires ClosedChain(segs)
    ensures ClosedChain(ReverseAll(segs)) && ReverseAll(ReverseAll(segs)) == segs
  {
    var r := ReverseAll(segs);
    forall i | 0 <= i < |r| - 1
      ensures End(r[i]) == Start(r[i + 1])
    {
      var j := |segs| - 2 - i;
      assert End(segs[j]) == Start(segs[j + 1]);
    }
  }

  lemma BernsteinMirrored(a: real, b: real, c: real, d: real, t: real)
    ensures Bernstein(d, c, b, a, 1.0 - t) == Bernstein(a, b, c, d, t)
  {
    var u := 1.0 - t;
    assert 1.0 - u == t;
    assert 3.0 * t * t * u * c == 3.0 * u * t * t * c;
    assert 3.0 * t * u * u * b == 3.0 * u * u * t * b;
  }

  lemma EvaluateMirrored(s: Segment, t: real)
    requires s.Cubic?
    ensures Evaluate(ReverseSegment(s), 1.0 - t) == Evaluate(s, t)
  {
    BernsteinMirrored(s.p0.x, s.p1.x, s.p2.x, s.p3.x, t);
    BernsteinMirrored(s.p0.y, s.p1.y, s.p2.y, s.p3.y, t);
  }

  // ---------------------------------------------------------------- area of a fitted outline

  /** Sample points of one segment, both ends included. */
  function Sampled(s: Segment): (pts: seq<Point>)
    ensures |pts| >= 2
  {
    if s.Line? then [s.p0, s.p1]
    else seq(8, i requires 0 <= i < 8 => Evaluate(s, i as real / 7.0))
  }

  function DropLast<T>(s: seq<T>): seq<T>
    requires s != []
  {
    s[..|s| - 1]
  }

  /** The polygon whose area stands for the outline: each segment without its end point. */
  function OutlinePoints(segs: seq<Segment>): seq<Point> {
    if segs == [] then [] else OutlinePoints(DropLast(segs)) + DropLast(Sampled(segs[|segs| - 1]))
  }

  function OutlineArea(segs: seq<Segment>): real {
    if |OutlinePoints(segs)| < 3 then 0.0 else SignedArea(OutlinePoints(segs))
  }

  function SegmentSums(segs: seq<Segment>): real {
    if segs == [] then 0.0 else SegmentSums(DropLast(segs)) + PathSum(Sampled(segs[|segs| - 1]))
  }

  lemma SampledEnds(s: Segment)
    ensures Sampled(s)[0] == Start(s) && Sampled(s)[|Sampled(s)| - 1] == End(s)
  {
    EvaluateEnds(s);
    assert 0 as real / 7.0 == 0.0 && 7 as real / 7.0 == 1.0;
  }

  /** Sums of two paths that share an end point. */
  lemma {:induction false} PathJoin(a: seq<Point>, b: seq<Point>)
    requires a != [] && b != [] && a[|a| - 1] == b[0]
    ensures PathSum(a + b[1..]) == PathSum(a) + PathSum(b)
  {
    hide Cross;
    if |b| == 1 {
      assert a + b[1..] == a;
    } else {
      var n := |b| - 1;
      PathJoin(a, b[..n]);
      var j := a + b[1..];
      assert j[..|j| - 1] == a + b[..n][1..];
      assert j[|j| - 1] == b[n] && j[|j| - 2] == b[n - 1];
    }
  }

  lemma {:induction false} OutlinePath(segs: seq<Segment>)
    requires Chained(segs) && segs != []
    ensures PathSum(OutlinePoints(segs) + [End(segs[|segs| - 1])]) == SegmentSums(segs)
    ensures (OutlinePoints(segs) + [End(segs[|segs| - 1])])[0] == Start(segs[0])
  {
    hide Cross, Sampled, Evaluate;
    var n := |segs| - 1;
    var s := segs[n];
    var pts := Sampled(s);
    SampledEnds(s);
    assert DropLast(pts) + [End(s)] == pts;
    if n == 0 {
      assert DropLast(segs) == [];
      assert OutlinePoints(segs) + [End(s)] == pts;
    } else {
      OutlinePath(DropLast(segs));
      var a := OutlinePoints(DropLast(segs));
      assert End(segs[n - 1]) == Start(s);
      PathJoin(a + [Start(s)], pts);
      assert (a + [Start(s)]) + pts[1..] == a + pts;
      assert OutlinePoints(segs) + [End(s)] == a + pts;
    }
  }

  lemma ShortAreaIsZero(pts: seq<Point>)
    requires |pts| < 3
    ensures SignedArea(pts) == 0.0
  {
    if |pts| == 2 {
      assert PathSum(pts[..1]) == 0.0;
      CrossFlips(pts[0], pts[1]);
    }
  }

  lemma OutlineAreaIsSum(segs: seq<Segment>)
    requires ClosedChain(segs)
    ensures OutlineArea(segs) == 0.5 * SegmentSums(segs)
  {
    hide Cross, Sampled;
    if segs != [] {
      var pts := OutlinePoints(segs);
      if |pts| < 3 { ShortAreaIsZero(pts); }
      OutlinePath(segs);
      var e := End(segs[|segs| - 1]);
      SampledEnds(segs[|segs| - 1]);
      assert pts != [] && pts[0] == e;
      assert DropLast(pts + [e]) == pts;
      assert PathSum(pts + [e]) == PathSum(pts) + Cross(pts[|pts| - 1], e);
    }
  }

  lemma SampledReversed(s: Segment)
    ensures Sampled(ReverseSegment(s)) == Reversed(Sampled(s))
  {
    if s.Cubic? {
      forall i | 0 <= i < 8
        ensures Sampled(ReverseSegment(s))[i] == Sampled(s)[7 - i]
      {
        EvaluateMirrored(s, (7 - i) as real / 7.0);
        assert 1.0 - (7 - i) as real / 7.0 == i as real / 7.0;
      }
    } else {
      assert [s.p0, s.p1][1..] == [s.p1];
    }
  }

  lemma {:induction false} SumsPrepend(s: Segment, segs: seq<Segment>)
    ensures SegmentSums([s] + segs) == PathSum(Sampled(s)) + SegmentSums(segs)
  {
    hide Sampled, PathSum;
    var all := [s] + segs;
    if segs == [] {
      assert DropLast(all) == [];
    } else {
      assert DropLast(all) == [s] + DropLast(segs);
      SumsPrepend(s, DropLast(segs));
    }
  }

  lemma {:induction false} SumsReversed(segs: seq<Segment>)
    ensures SegmentSums(ReverseAll(segs)) == -SegmentSums(segs)
  {
    hide Sampled, PathSum;
    if segs != [] {
      var n := |segs| - 1;
      SumsReversed(DropLast(segs));
      assert ReverseAll(segs) == [ReverseSegment(segs[n])] + ReverseAll(DropLast(segs));
      SumsPrepend(ReverseSegment(segs[n]), ReverseAll(DropLast(segs)));
      SampledReversed(segs[n]);
      PathReversed(Sampled(segs[n]));
    }
  }

  /** Reversing a closed outline negates the area of its sampled polygon. */
  lemma OutlineReversed(segs: seq<Segment>)
    requires ClosedChain(segs)
    ensures OutlineArea(ReverseAll(segs)) == -OutlineArea(segs)
  {
    ReverseKeepsChain(segs);
    OutlineAreaIsSum(segs);
    OutlineAreaIsSum(ReverseAll(segs));
    SumsReversed(segs);
  }

  // ---------------------------------------------------------------- the winding step

  predicate NeedsReversal(isHole: bool, area: real) {
    (!isHole && area < 0.0) || (isHole && area > 0.0)
  }

  /** The winding step: outers counter-clockwise, holes clockwise (y up). */
  function Orient(segs: seq<Segment>, isHole: bool, area: real): seq<Segment> {
    if NeedsReversal(isHole, area) then ReverseAll(segs) else segs
  }

  /** The polygon, reversed when the test says so. */
  function OrientPolygon(poly: seq<Point>, isHole: bool): seq<Point> {
    if NeedsReversal(isHole, SignedArea(poly)) then Reversed(poly) else poly
  }

  predicate WoundAs(isHole: bool, area: real) { if isHole then area < 0.0 else area > 0.0 }

  /** The test that decides on a reversal is right for the polygon it looks at: reversing whenever
      it says so would wind the polygon as its kind demands, exactly if it has area. */
  lemma PolygonIsWound(poly: seq<Point>, isHole: bool)
    ensures WoundAs(isHole, SignedArea(OrientPolygon(poly, isHole))) <==> SignedArea(poly) != 0.0
  {
    AreaReversed(poly);
  }

  /** The oriented outline stays a closed chain, and is wound as its kind demands exactly when
      the fitted outline runs the same way round as the polygon it was fitted to. */
  lemma OutlineIsWound(segs: seq<Segment>, poly: seq<Point>, isHole: bool)
    requires ClosedChain(segs) && SignedArea(poly) != 0.0
    ensures ClosedChain(Orient(segs, isHole, SignedArea(poly)))
    ensures WoundAs(isHole, OutlineArea(Orient(segs, isHole, SignedArea(poly))))
       <==> if SignedArea(poly) > 0.0 then OutlineArea(segs) > 0.0 else OutlineArea(segs) < 0.0
  {
    ReverseKeepsChain(segs);
    OutlineReversed(segs);
  }

  function PolygonEdge(poly: seq<Point>, i: nat): Segment
    requires i < |poly|
  {
    Line(poly[i], poly[if i + 1 < |poly| then i + 1 else 0])
  }

  /** One line per polygon edge, from the first vertex around. */
  ghost predicate EdgeLines(segs: seq<Segment>, poly: seq<Point>) {
    |segs| == |poly| && forall i: nat | i < |segs| :: segs[i] == PolygonEdge(poly, i)
  }

  lemma {:induction false} LinePoints(segs: seq<Segment>, poly: seq<Point>)
    requires |segs| == |poly| && forall i | 0 <= i < |segs| :: segs[i].Line? && segs[i].p0 == poly[i]
    ensures OutlinePoints(segs) == poly
  {
    if segs != [] {
      var n := |segs| - 1;
      LinePoints(DropLast(segs), DropLast(poly));
      assert DropLast(Sampled(segs[n])) == [poly[n]];
    }
  }

  /** An outline of one line per edge has the polygon's area, and comes out wound as its kind
      demands exactly when the polygon has area. */
  lemma EdgeLinesAreWound(segs: seq<Segment>, poly: seq<Point>, isHole: bool)
    requires |poly| >= 3 && EdgeLines(segs, poly)
    ensures ClosedChain(segs) && OutlineArea(segs) == SignedArea(poly)
    ensures WoundAs(isHole, OutlineArea(Orient(segs, isHole, SignedArea(poly)))) <==> SignedArea(poly) != 0.0
  {
    hide SignedArea, OutlinePoints;
    forall i: nat | i < |segs|
      ensures segs[i].Line? && segs[i].p0 == poly[i]
    {
      assert segs[i] == PolygonEdge(poly, i);
    }
    forall i: nat | i < |segs| - 1
      ensures End(segs[i]) == Start(segs[i + 1])
    {
      assert segs[i] == PolygonEdge(poly, i) && segs[i + 1] == PolygonEdge(poly, i + 1);
    }
    var n := |segs| - 1;
    assert segs[n] == PolygonEdge(poly, n) && segs[0] == PolygonEdge(poly, 0);
    LinePoints(segs, poly);
    if SignedArea(poly) != 0.0 { OutlineIsWound(segs, poly, isHole); }
  }
}
