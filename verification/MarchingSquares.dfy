/** Marching squares: the iso-line pieces of one coverage grid, cell by cell. */
module MarchingSquares {
  import Outline

  type Coverage = seq<seq<real>>

  type Point = Outline.Point

  /** H(y, x) joins samples (y, x) and (y, x+1); V(y, x) joins samples (y, x) and (y+1, x). */
  datatype EdgeKey = H(y: int, x: int) | V(y: int, x: int)

  /** One iso-line piece and the grid edges it ends on; (cy, cx) is the cell that drew it. */
  datatype Segment = Segment(cy: int, cx: int, ka: EdgeKey, pa: Point, kb: EdgeKey, pb: Point)

  ghost predicate Rectangular(cov: Coverage) {
    forall y | 0 <= y < |cov| :: |cov[y]| == |cov[0]|
  }

  function Height(cov: Coverage): nat { |cov| }

  function Width(cov: Coverage): nat { if cov == [] then 0 else |cov[0]| }

  predicate InCells(cov: Coverage, y: int, x: int) {
    0 <= y < Height(cov) - 1 && 0 <= x < Width(cov) - 1
  }

  predicate InSamples(cov: Coverage, y: int, x: int) {
    0 <= y < Height(cov) && 0 <= x < Width(cov)
  }

  function At(cov: Coverage, y: int, x: int): real
    requires Rectangular(cov) && InSamples(cov, y, x)
  {
    cov[y][x]
  }

  predicate Ink(cov: Coverage, iso: real, y: int, x: int)
    requires Rectangular(cov) && InSamples(cov, y, x)
  {
    At(cov, y, x) > iso
  }

  predicate InEdges(cov: Coverage, e: EdgeKey) {
    match e
    case H(y, x) => InSamples(cov, y, x) && InSamples(cov, y, x + 1)
    case V(y, x) => InSamples(cov, y, x) && InSamples(cov, y + 1, x)
  }

  /** The two ends of the grid edge lie on different sides of the iso level. */
  predicate Changes(cov: Coverage, iso: real, e: EdgeKey)
    requires Rectangular(cov) && InEdges(cov, e)
  {
    match e
    case H(y, x) => Ink(cov, iso, y, x) != Ink(cov, iso, y, x + 1)
    case V(y, x) => Ink(cov, iso, y, x) != Ink(cov, iso, y + 1, x)
  }

  function Abs(d: real): real { if d < 0.0 then -d else d }

  function Clip(t: real): real { if t < 0.0 then 0.0 else if t > 1.0 then 1.0 else t }

  /** Clipped position of the iso crossing between two samples. */
  function Crossing(v0: real, v1: real, iso: real): (t: real)
    ensures 0.0 <= t <= 1.0
  {
    var d := v1 - v0;
    Clip(if Abs(d) < 0.000000000001 then 0.5 else (iso - v0) / d)
  }

  /** Between samples on different sides the crossing interpolates exactly to the iso level, and
      for nearly equal samples it is the midpoint, less than 1e-12 off the level. */
  lemma CrossingIsOnIso(v0: real, v1: real, iso: real)
    requires (v0 > iso) != (v1 > iso)
    ensures Abs(v1 - v0) >= 0.000000000001 ==> v0 + Crossing(v0, v1, iso) * (v1 - v0) == iso
    ensures Abs(v1 - v0) < 0.000000000001
            ==> Crossing(v0, v1, iso) == 0.5 && Abs(v0 + 0.5 * (v1 - v0) - iso) < 0.000000000001
  {
    var d := v1 - v0;
    if Abs(d) >= 0.000000000001 {
      var t := (iso - v0) / d;
      assert t * d == iso - v0;
      if d > 0.0 {
        Scaled(t, d);
      } else {
        assert (-t) * d == v0 - iso;
        assert t * -d == v0 - iso;
        Scaled(t, -d);
      }
    }
  }

  /** Samples on different sides, neither on the level: the crossing is strictly between them. */
  lemma CrossingIsInside(v0: real, v1: real, iso: real)
    requires (v0 > iso) != (v1 > iso) && v0 != iso && v1 != iso
    ensures 0.0 < Crossing(v0, v1, iso) < 1.0
  {
    CrossingIsOnIso(v0, v1, iso);
    var t := Crossing(v0, v1, iso);
    assert t == 0.0 ==> v0 + t * (v1 - v0) == v0;
    assert t == 1.0 ==> v0 + t * (v1 - v0) == v1;
  }

  /** Clipping moves a value to the nearest one between 0 and 1. */
  lemma ClipIsNearest(t: real, u: real)
    requires 0.0 <= u <= 1.0
    ensures 0.0 <= Clip(t) <= 1.0 && Abs(t - Clip(t)) <= Abs(t - u)
  {}

  lemma Scaled(t: real, d: real)
    requires d > 0.0 && 0.0 <= t * d <= d
    ensures 0.0 <= t <= 1.0
  {
    assert t == (t * d) / d;
  }

  /** The contour vertex on a grid edge. It depends on the edge's two samples only, so both
      adjacent cells draw the same vertex. */
  function EdgePoint(cov: Coverage, iso: real, e: EdgeKey): Point
    requires Rectangular(cov) && InEdges(cov, e)
  {
    match e
    case H(y, x) => Outline.Point(x as real + Crossing(At(cov, y, x), At(cov, y, x + 1), iso), y as real)
    case V(y, x) => Outline.Point(x as real, y as real + Crossing(At(cov, y, x), At(cov, y + 1, x), iso))
  }

  /** The vertices of a grid as a function of the edge key. */
  function Vertices(cov: Coverage, iso: real): EdgeKey -> Point
    requires Rectangular(cov)
  {
    e => if InEdges(cov, e) then EdgePoint(cov, iso, e) else Outline.Point(0.0, 0.0)
  }

  function CaseOf(tl: bool, tr: bool, br: bool, bl: bool): nat {
    (if tl then 8 else 0) + (if tr then 4 else 0) + (if br then 2 else 0) + (if bl then 1 else 0)
  }

  function Piece(at: EdgeKey -> Point, y: int, x: int, a: EdgeKey, b: EdgeKey): Segment {
    Segment(y, x, a, at(a), b, at(b))
  }

  /** The sixteen cases of one cell; the two saddles are resolved by the cell average. */
  function CellPairs(c: nat, centerInk: bool, y: int, x: int): seq<(EdgeKey, EdgeKey)> {
    var (top, bottom, left, right) := (H(y, x), H(y + 1, x), V(y, x), V(y, x + 1));
    if c == 1 || c == 14 then [(left, bottom)]
    else if c == 2 || c == 13 then [(bottom, right)]
    else if c == 3 || c == 12 then [(left, right)]
    else if c == 4 || c == 11 then [(top, right)]
    else if c == 5 then
      if centerInk then [(left, top), (bottom, right)] else [(left, bottom), (top, right)]
    else if c == 6 || c == 9 then [(top, bottom)]
    else if c == 10 then
      if centerInk then [(top, right), (left, bottom)] else [(left, top), (bottom, right)]
    else if c == 7 || c == 8 then [(left, top)]
    else []
  }

  function CellCase(cov: Coverage, iso: real, y: int, x: int): nat
    requires Rectangular(cov) && InCells(cov, y, x)
  {
    CaseOf(Ink(cov, iso, y, x), Ink(cov, iso, y, x + 1), Ink(cov, iso, y + 1, x + 1), Ink(cov, iso, y + 1, x))
  }

  predicate CenterInk(cov: Coverage, iso: real, y: int, x: int)
    requires Rectangular(cov) && InCells(cov, y, x)
  {
    (At(cov, y, x) + At(cov, y, x + 1) + At(cov, y + 1, x + 1) + At(cov, y + 1, x)) / 4.0 > iso
  }

  function PairsOf(cov: Coverage, iso: real, y: int, x: int): (ps: seq<(EdgeKey, EdgeKey)>)
    requires Rectangular(cov) && InCells(cov, y, x)
    ensures forall i | 0 <= i < |ps| :: InEdges(cov, ps[i].0) && InEdges(cov, ps[i].1)
  {
    CellPairs(CellCase(cov, iso, y, x), CenterInk(cov, iso, y, x), y, x)
  }

  function CellSegments(cov: Coverage, iso: real, at: EdgeKey -> Point, y: int, x: int): (segs: seq<Segment>)
    requires Rectangular(cov) && InCells(cov, y, x)
  {
    var ps := PairsOf(cov, iso, y, x);
    seq(|ps|, i requires 0 <= i < |ps| => Piece(at, y, x, ps[i].0, ps[i].1))
  }

  predicate CellEdge(y: int, x: int, e: EdgeKey) {
    e == H(y, x) || e == H(y + 1, x) || e == V(y, x) || e == V(y, x + 1)
  }

  predicate Touches(s: Segment, e: EdgeKey) { s.ka == e || s.kb == e }

  predicate EdgeMeets(e: EdgeKey, y: int, x: int) {
    match e
    case H(ey, ex) => ey == y && ex <= x <= ex + 1
    case V(ey, ex) => ey <= y <= ey + 1 && ex == x
  }

  /** The corners of the two diagonals lie on different sides. */
  predicate Saddle(cov: Coverage, iso: real, y: int, x: int)
    requires Rectangular(cov) && InCells(cov, y, x)
  {
    && Ink(cov, iso, y, x) == Ink(cov, iso, y + 1, x + 1) && Ink(cov, iso, y, x + 1) == Ink(cov, iso, y + 1, x)
    && Ink(cov, iso, y, x) != Ink(cov, iso, y, x + 1)
  }

  /** Where a pair cuts off a corner whose opposite corner lies on the same side (a saddle),
      the cell average lies on the other side; and a saddle is cut at its corners only. */
  ghost predicate SaddleResolved(cov: Coverage, iso: real, y: int, x: int, p: (EdgeKey, EdgeKey))
    requires Rectangular(cov) && InCells(cov, y, x)
  {
    && (forall ky, kx | y <= ky <= y + 1 && x <= kx <= x + 1 && EdgeMeets(p.0, ky, kx) && EdgeMeets(p.1, ky, kx) ::
      Ink(cov, iso, ky, kx) == Ink(cov, iso, 2 * y + 1 - ky, 2 * x + 1 - kx)
      ==> CenterInk(cov, iso, y, x) != Ink(cov, iso, ky, kx))
    && (Saddle(cov, iso, y, x) ==> p.0.H? != p.1.H?)
  }

  /** A piece stays in its cell, between two different changing edges, on their vertices. */
  ghost predicate Faithful(cov: Coverage, iso: real, at: EdgeKey -> Point, s: Segment)
    requires Rectangular(cov)
  {
    && InCells(cov, s.cy, s.cx) && CellEdge(s.cy, s.cx, s.ka) && CellEdge(s.cy, s.cx, s.kb) && s.ka != s.kb
    && InEdges(cov, s.ka) && InEdges(cov, s.kb)
    && Changes(cov, iso, s.ka) && Changes(cov, iso, s.kb)
    && s.pa == at(s.ka) && s.pb == at(s.kb)
    && SaddleResolved(cov, iso, s.cy, s.cx, (s.ka, s.kb))
  }

  ghost predicate SameCellApart(segs: seq<Segment>) {
    forall i, j, e | 0 <= i < |segs| && 0 <= j < |segs| && Touches(segs[i], e) && Touches(segs[j], e) ::
      segs[i].cy == segs[j].cy && segs[i].cx == segs[j].cx ==> i == j
  }

  ghost predicate EndsOn(segs: seq<Segment>, y: int, x: int, e: EdgeKey) {
    exists i :: 0 <= i < |segs| && segs[i].cy == y && segs[i].cx == x && Touches(segs[i], e)
  }

  ghost predicate Ends(p: (EdgeKey, EdgeKey), e: EdgeKey) { p.0 == e || p.1 == e }

  /** In all sixteen cases every changing edge of the cell gets exactly one segment end. */
  lemma CellPairsExact(tl: bool, tr: bool, br: bool, bl: bool, centerInk: bool, y: int, x: int)
    ensures var ps := CellPairs(CaseOf(tl, tr, br, bl), centerInk, y, x);
            && |ps| <= 2
            && (forall i | 0 <= i < |ps| :: CellEdge(y, x, ps[i].0) && CellEdge(y, x, ps[i].1) && ps[i].0 != ps[i].1)
            && (forall i, j, e | 0 <= i < |ps| && 0 <= j < |ps| && Ends(ps[i], e) && Ends(ps[j], e) :: i == j)
    ensures var ps := CellPairs(CaseOf(tl, tr, br, bl), centerInk, y, x);
            && (tl != tr <==> exists i :: 0 <= i < |ps| && Ends(ps[i], H(y, x)))
            && (bl != br <==> exists i :: 0 <= i < |ps| && Ends(ps[i], H(y + 1, x)))
            && (tl != bl <==> exists i :: 0 <= i < |ps| && Ends(ps[i], V(y, x)))
            && (tr != br <==> exists i :: 0 <= i < |ps| && Ends(ps[i], V(y, x + 1)))
  {
    var ps := CellPairs(CaseOf(tl, tr, br, bl), centerInk, y, x);
    assert |ps| > 0 ==> Ends(ps[0], ps[0].0) && Ends(ps[0], ps[0].1);
    assert |ps| > 1 ==> Ends(ps[1], ps[1].0) && Ends(ps[1], ps[1].1);
  }

  lemma PairsOfExact(cov: Coverage, iso: real, y: int, x: int)
    requires Rectangular(cov) && InCells(cov, y, x)
    ensures var ps := PairsOf(cov, iso, y, x);
            && (forall i | 0 <= i < |ps| :: CellEdge(y, x, ps[i].0) && CellEdge(y, x, ps[i].1) && ps[i].0 != ps[i].1)
            && (forall i, j, e | 0 <= i < |ps| && 0 <= j < |ps| && Ends(ps[i], e) && Ends(ps[j], e) :: i == j)
    ensures var ps := PairsOf(cov, iso, y, x);
            forall e | CellEdge(y, x, e) :: Changes(cov, iso, e) <==> exists i :: 0 <= i < |ps| && Ends(ps[i], e)
  {
    hide CellPairs, CaseOf, CenterInk;
    CellPairsExact(Ink(cov, iso, y, x), Ink(cov, iso, y, x + 1), Ink(cov, iso, y + 1, x + 1), Ink(cov, iso, y + 1, x),
                   CenterInk(cov, iso, y, x), y, x);
  }

  lemma CellFaithful(cov: Coverage, iso: real, at: EdgeKey -> Point, y: int, x: int, i: int)
    requires Rectangular(cov) && InCells(cov, y, x) && 0 <= i < |PairsOf(cov, iso, y, x)|
    ensures Faithful(cov, iso, at, CellSegments(cov, iso, at, y, x)[i])
  {
    PairsOfExact(cov, iso, y, x);
    var p := PairsOf(cov, iso, y, x)[i];
    assert Ends(p, p.0) && Ends(p, p.1);
    PairSaddle(cov, iso, y, x, i);
  }

  lemma PairSaddle(cov: Coverage, iso: real, y: int, x: int, i: int)
    requires Rectangular(cov) && InCells(cov, y, x) && 0 <= i < |PairsOf(cov, iso, y, x)|
    ensures SaddleResolved(cov, iso, y, x, PairsOf(cov, iso, y, x)[i])
  {
    var p := PairsOf(cov, iso, y, x)[i];
    assert i == 0 || i == 1;
    forall ky, kx | y <= ky <= y + 1 && x <= kx <= x + 1 && EdgeMeets(p.0, ky, kx) && EdgeMeets(p.1, ky, kx)
                    && Ink(cov, iso, ky, kx) == Ink(cov, iso, 2 * y + 1 - ky, 2 * x + 1 - kx)
      ensures CenterInk(cov, iso, y, x) != Ink(cov, iso, ky, kx)
    {
      if ky == y && kx == x {
      } else if ky == y {
      } else if kx == x {
      } else {
      }
    }
  }

  predicate JoinsEdges(s: Segment, a: EdgeKey, b: EdgeKey) { (s.ka == a && s.kb == b) || (s.ka == b && s.kb == a) }

  /** In a saddle the two corners of the minority side, by the sum of the four samples against four
      times the level, are cut off, each by the piece between its two cell edges. */
  lemma SaddleByMean(cov: Coverage, iso: real, at: EdgeKey -> Point, s: Segment)
    requires Rectangular(cov) && Faithful(cov, iso, at, s)
    ensures var (y, x) := (s.cy, s.cx);
            var (tl, tr, bl, br) := (At(cov, y, x), At(cov, y, x + 1), At(cov, y + 1, x), At(cov, y + 1, x + 1));
            var (top, bottom, left, right) := (H(y, x), H(y + 1, x), V(y, x), V(y, x + 1));
            var inked := tl + tr + bl + br > 4.0 * iso;
            (tl > iso) == (br > iso) && (tr > iso) == (bl > iso) && (tl > iso) != (tr > iso) ==>
              && (inked != (tl > iso) <==> JoinsEdges(s, top, left) || JoinsEdges(s, bottom, right))
              && (inked != (tr > iso) <==> JoinsEdges(s, top, right) || JoinsEdges(s, bottom, left))
  {
    var (y, x) := (s.cy, s.cx);
    assert Ink(cov, iso, y, x) <==> At(cov, y, x) > iso;
    assert Ink(cov, iso, y, x + 1) <==> At(cov, y, x + 1) > iso;
    assert Ink(cov, iso, y + 1, x) <==> At(cov, y + 1, x) > iso;
    assert Ink(cov, iso, y + 1, x + 1) <==> At(cov, y + 1, x + 1) > iso;
    assert CenterInk(cov, iso, y, x)
      <==> At(cov, y, x) + At(cov, y, x + 1) + At(cov, y + 1, x) + At(cov, y + 1, x + 1) > 4.0 * iso;
  }

  /** s is a full set of pieces of the one cell (y, x). */
  ghost predicate CellTraced(cov: Coverage, iso: real, at: EdgeKey -> Point, s: seq<Segment>, y: int, x: int)
    requires Rectangular(cov) && InCells(cov, y, x)
  {
    && (forall i | 0 <= i < |s| :: Faithful(cov, iso, at, s[i]) && s[i].cy == y && s[i].cx == x)
    && SameCellApart(s)
    && forall e | CellEdge(y, x, e) :: Changes(cov, iso, e) <==> EndsOn(s, y, x, e)
  }

  lemma CellSegmentsExact(cov: Coverage, iso: real, at: EdgeKey -> Point, y: int, x: int)
    requires Rectangular(cov) && InCells(cov, y, x)
    ensures CellTraced(cov, iso, at, CellSegments(cov, iso, at, y, x), y, x)
  {
    var ps := PairsOf(cov, iso, y, x);
    var s := CellSegments(cov, iso, at, y, x);
    forall i | 0 <= i < |s|
      ensures Faithful(cov, iso, at, s[i]) && s[i].cy == y && s[i].cx == x
    {
      CellFaithful(cov, iso, at, y, x, i);
    }
    CellApart(cov, iso, at, y, x);
  }

  lemma CellApart(cov: Coverage, iso: real, at: EdgeKey -> Point, y: int, x: int)
    requires Rectangular(cov) && InCells(cov, y, x)
    ensures var s := CellSegments(cov, iso, at, y, x);
            SameCellApart(s) && forall e | CellEdge(y, x, e) :: Changes(cov, iso, e) <==> EndsOn(s, y, x, e)
  {
    PairsOfExact(cov, iso, y, x);
    var ps := PairsOf(cov, iso, y, x);
    var s := CellSegments(cov, iso, at, y, x);
    assert forall i, e | 0 <= i < |s| :: Touches(s[i], e) <==> Ends(ps[i], e);
    forall e | CellEdge(y, x, e)
      ensures Changes(cov, iso, e) <==> EndsOn(s, y, x, e)
    {
      if Changes(cov, iso, e) {
        var i :| 0 <= i < |ps| && Ends(ps[i], e);
        assert Touches(s[i], e);
      }
    }
  }

  // ---------------------------------------------------------------- the whole grid

  predicate Earlier(y: int, x: int, y': int, x': int) { y < y' || (y == y' && x < x') }

  /** The pieces of every cell before (y, x) in row-major order. */
  ghost predicate TracedBefore(cov: Coverage, iso: real, at: EdgeKey -> Point, segs: seq<Segment>, y: int, x: int)
    requires Rectangular(cov)
  {
    && (forall i | 0 <= i < |segs| :: Faithful(cov, iso, at, segs[i]) && Earlier(segs[i].cy, segs[i].cx, y, x))
    && SameCellApart(segs)
    && forall cy, cx, e | InCells(cov, cy, cx) && Earlier(cy, cx, y, x) && CellEdge(cy, cx, e) ::
         Changes(cov, iso, e) ==> EndsOn(segs, cy, cx, e)
  }

  ghost predicate Traced(cov: Coverage, iso: real, at: EdgeKey -> Point, segs: seq<Segment>)
    requires Rectangular(cov)
  {
    && (forall i | 0 <= i < |segs| :: Faithful(cov, iso, at, segs[i]))
    && SameCellApart(segs)
    && forall cy, cx, e | InCells(cov, cy, cx) && CellEdge(cy, cx, e) ::
         Changes(cov, iso, e) ==> EndsOn(segs, cy, cx, e)
  }

  lemma AddCell(cov: Coverage, iso: real, at: EdgeKey -> Point, segs: seq<Segment>, s: seq<Segment>, y: int, x: int)
    requires Rectangular(cov) && InCells(cov, y, x)
    requires TracedBefore(cov, iso, at, segs, y, x) && CellTraced(cov, iso, at, s, y, x)
    ensures TracedBefore(cov, iso, at, segs + s, y, x + 1)
  {
    hide Faithful, SameCellApart, Changes, EndsOn;
    AddApart(segs, s, y, x);
    forall cy, cx, e | InCells(cov, cy, cx) && Earlier(cy, cx, y, x + 1) && CellEdge(cy, cx, e) && Changes(cov, iso, e)
      ensures EndsOn(segs + s, cy, cx, e)
    {
      if cy == y && cx == x {
        assert EndsOn(s, y, x, e);
        EndsOnRight(segs, s, y, x, e);
      } else {
        assert EndsOn(segs, cy, cx, e);
        EndsOnLeft(segs, s, cy, cx, e);
      }
    }
  }

  lemma EndsOnLeft(segs: seq<Segment>, s: seq<Segment>, y: int, x: int, e: EdgeKey)
    requires EndsOn(segs, y, x, e)
    ensures EndsOn(segs + s, y, x, e)
  {
    var i :| 0 <= i < |segs| && segs[i].cy == y && segs[i].cx == x && Touches(segs[i], e);
    assert (segs + s)[i] == segs[i];
  }

  lemma EndsOnRight(segs: seq<Segment>, s: seq<Segment>, y: int, x: int, e: EdgeKey)
    requires EndsOn(s, y, x, e)
    ensures EndsOn(segs + s, y, x, e)
  {
    var i :| 0 <= i < |s| && s[i].cy == y && s[i].cx == x && Touches(s[i], e);
    assert (segs + s)[|segs| + i] == s[i];
  }

  lemma AddApart(segs: seq<Segment>, s: seq<Segment>, y: int, x: int)
    requires SameCellApart(segs) && SameCellApart(s)
    requires forall i | 0 <= i < |segs| :: Earlier(segs[i].cy, segs[i].cx, y, x)
    requires forall i | 0 <= i < |s| :: s[i].cy == y && s[i].cx == x
    ensures SameCellApart(segs + s)
  {
    var all := segs + s;
    forall i, j, e | 0 <= i < |all| && 0 <= j < |all| && Touches(all[i], e) && Touches(all[j], e)
                     && all[i].cy == all[j].cy && all[i].cx == all[j].cx
      ensures i == j
    {
      if i >= |segs| && j >= |segs| {
        assert all[i] == s[i - |segs|] && all[j] == s[j - |segs|];
      }
    }
  }

  lemma NothingBefore(cov: Coverage, iso: real, at: EdgeKey -> Point)
    requires Rectangular(cov)
    ensures TracedBefore(cov, iso, at, [], 0, 0)
  {}

  lemma RowEnds(cov: Coverage, iso: real, at: EdgeKey -> Point, segs: seq<Segment>, y: int)
    requires Rectangular(cov) && TracedBefore(cov, iso, at, segs, y, Width(cov) - 1)
    ensures TracedBefore(cov, iso, at, segs, y + 1, 0)
  {
    hide Faithful, SameCellApart, Changes, EndsOn;
    forall cy, cx, e | InCells(cov, cy, cx) && Earlier(cy, cx, y + 1, 0) && CellEdge(cy, cx, e) && Changes(cov, iso, e)
      ensures EndsOn(segs, cy, cx, e)
    {
      assert Earlier(cy, cx, y, Width(cov) - 1);
    }
  }

  lemma GridEnds(cov: Coverage, iso: real, at: EdgeKey -> Point, segs: seq<Segment>)
    requires Rectangular(cov) && TracedBefore(cov, iso, at, segs, Height(cov) - 1, 0)
    ensures Traced(cov, iso, at, segs)
  {
    hide Faithful, SameCellApart, Changes, EndsOn;
    forall cy, cx, e | InCells(cov, cy, cx) && CellEdge(cy, cx, e) && Changes(cov, iso, e)
      ensures EndsOn(segs, cy, cx, e)
    {
      assert Earlier(cy, cx, Height(cov) - 1, 0);
    }
  }

  lemma NoCells(cov: Coverage, iso: real, at: EdgeKey -> Point)
    requires Rectangular(cov) && (Height(cov) < 2 || Width(cov) < 2)
    ensures Traced(cov, iso, at, [])
  {}

  method ExtractSegments(cov: Coverage, iso: real) returns (segs: seq<Segment>)
    requires Rectangular(cov)
    ensures Traced(cov, iso, Vertices(cov, iso), segs)
  {
    hide TracedBefore, Traced, CellTraced, CellSegments;
    var at := Vertices(cov, iso);
    segs := [];
    if Height(cov) < 2 || Width(cov) < 2 {
      NoCells(cov, iso, at);
      return;
    }
    NothingBefore(cov, iso, at);
    for y := 0 to Height(cov) - 1
      invariant TracedBefore(cov, iso, at, segs, y, 0)
    {
      for x := 0 to Width(cov) - 1
        invariant TracedBefore(cov, iso, at, segs, y, x)
      {
        CellSegmentsExact(cov, iso, at, y, x);
        AddCell(cov, iso, at, segs, CellSegments(cov, iso, at, y, x), y, x);
        segs := segs + CellSegments(cov, iso, at, y, x);
      }
      RowEnds(cov, iso, at, segs, y);
    }
    GridEnds(cov, iso, at, segs);
  }
}
