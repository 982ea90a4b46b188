/** Contours of a whole coverage grid, and the ink mask read back from them. */
module ContourMask {
  import opened MarchingSquares
  import opened ContourWalk

  /** Three segments on one grid edge are not three. */
  lemma MeetTwo(cov: Coverage, iso: real, segs: seq<Segment>, i: nat, j: nat, k: nat, e: EdgeKey)
    requires Rectangular(cov) && Traced(cov, iso, Vertices(cov, iso), segs) && Meet(segs, i, j, k, e)
    ensures i == j || j == k || i == k
  {
    var at := Vertices(cov, iso);
    OnItsCell(cov, iso, at, segs[i], e);
    OnItsCell(cov, iso, at, segs[j], e);
    OnItsCell(cov, iso, at, segs[k], e);
    hide Faithful, CellEdge;
    TwoCells(segs[i].cy, segs[i].cx, segs[j].cy, segs[j].cx, segs[k].cy, segs[k].cx, e);
  }

  lemma OnItsCell(cov: Coverage, iso: real, at: EdgeKey -> Point, s: Segment, e: EdgeKey)
    requires Rectangular(cov) && Faithful(cov, iso, at, s) && Touches(s, e)
    ensures CellEdge(s.cy, s.cx, e)
  {}

  lemma OnItsVertices(cov: Coverage, iso: real, at: EdgeKey -> Point, s: Segment)
    requires Rectangular(cov) && Faithful(cov, iso, at, s)
    ensures s.ka != s.kb && s.pa == at(s.ka) && s.pb == at(s.kb)
  {}

  /** A grid edge borders at most two cells, and each draws at most one piece on it. */
  lemma TracedIsAtMostTwo(cov: Coverage, iso: real, segs: seq<Segment>)
    requires Rectangular(cov) && Traced(cov, iso, Vertices(cov, iso), segs)
    ensures AtMostTwo(segs) && OnVertices(segs, Vertices(cov, iso))
  {
    var at := Vertices(cov, iso);
    forall i | 0 <= i < |segs|
      ensures segs[i].ka != segs[i].kb && segs[i].pa == at(segs[i].ka) && segs[i].pb == at(segs[i].kb)
    {
      hide Faithful;
      OnItsVertices(cov, iso, at, segs[i]);
    }
    forall i: nat, j: nat, k: nat, e | Meet(segs, i, j, k, e)
      ensures i == j || j == k || i == k
    {
      hide Traced, Meet;
      MeetTwo(cov, iso, segs, i, j, k, e);
    }
  }

  lemma TwoCells(y0: int, x0: int, y1: int, x1: int, y2: int, x2: int, e: EdgeKey)
    requires CellEdge(y0, x0, e) && CellEdge(y1, x1, e) && CellEdge(y2, x2, e)
    ensures (y0 == y1 && x0 == x1) || (y1 == y2 && x1 == x2) || (y0 == y2 && x0 == x2)
  {}

  /** Two different pieces of one cell: exactly one of them ends on its upper edge. */
  function Slot(s: Segment, width: nat): int {
    2 * (s.cy * (width - 1) + s.cx) + if Touches(s, H(s.cy, s.cx)) then 0 else 1
  }

  lemma SlotInRange(cov: Coverage, iso: real, s: Segment)
    requires Rectangular(cov) && Faithful(cov, iso, Vertices(cov, iso), s)
    ensures 0 <= Slot(s, Width(cov)) < 2 * ((Height(cov) - 1) * (Width(cov) - 1))
  {
    hide Faithful;
    assert InCells(cov, s.cy, s.cx) by { InItsCell(cov, iso, s); }
    RowMajor(s.cy, s.cx, Height(cov) - 1, Width(cov) - 1);
  }

  lemma InItsCell(cov: Coverage, iso: real, s: Segment)
    requires Rectangular(cov) && Faithful(cov, iso, Vertices(cov, iso), s)
    ensures InCells(cov, s.cy, s.cx) && CellEdge(s.cy, s.cx, s.ka) && CellEdge(s.cy, s.cx, s.kb) && s.ka != s.kb
  {}

  lemma Product(a: int, w: int)
    requires w >= 0
    ensures a >= 0 ==> a * w >= 0
    ensures a >= 1 ==> a * w >= w
  {}

  lemma RowMajor(y: int, x: int, h: int, w: int)
    requires 0 <= y < h && 0 <= x < w
    ensures 0 <= y * w + x < h * w
  {
    Product(y, w);
    var d := h - y;
    Product(d, w);
    assert h == y + d;
    assert (y + d) * w == y * w + d * w;
  }

  lemma RowMajorIsOne(y: int, x: int, v: int, u: int, w: int)
    requires 0 <= x < w && 0 <= u < w && y * w + x == v * w + u
    ensures y == v && x == u
  {
    var d := y - v;
    Product(d, w);
    Product(-d, w);
    assert y == v + d;
    assert (v + d) * w == v * w + d * w;
    assert (-d) * w == -(d * w);
  }

  lemma SlotIsOwn(cov: Coverage, iso: real, segs: seq<Segment>, i: nat, j: nat)
    requires Rectangular(cov) && Traced(cov, iso, Vertices(cov, iso), segs) && i < |segs| && j < |segs|
    requires Slot(segs[i], Width(cov)) == Slot(segs[j], Width(cov))
    ensures i == j
  {
    hide Faithful;
    var (s, t, w) := (segs[i], segs[j], Width(cov));
    InItsCell(cov, iso, s);
    InItsCell(cov, iso, t);
    RowMajorIsOne(s.cy, s.cx, t.cy, t.cx, w - 1);
    if Touches(s, H(s.cy, s.cx)) {
      assert Touches(t, H(s.cy, s.cx));
    } else {
      var e := if Touches(t, s.ka) then s.ka else s.kb;
      assert Touches(s, e) && Touches(t, e);
    }
  }

  /** A traced grid has at most two segments for each cell. */
  lemma TracedIsSmall(cov: Coverage, iso: real, segs: seq<Segment>)
    requires Rectangular(cov) && Traced(cov, iso, Vertices(cov, iso), segs)
    ensures segs != [] ==> Height(cov) >= 2 && Width(cov) >= 2
    ensures segs != [] ==> |segs| <= 2 * ((Height(cov) - 1) * (Width(cov) - 1))
  {
    hide Faithful, Slot;
    if segs != [] {
      InItsCell(cov, iso, segs[0]);
      forall i | 0 <= i < |segs|
        ensures 0 <= Slot(segs[i], Width(cov)) < 2 * ((Height(cov) - 1) * (Width(cov) - 1))
      {
        SlotInRange(cov, iso, segs[i]);
      }
      var slots: seq<nat> := seq(|segs|, i requires 0 <= i < |segs| => Slot(segs[i], Width(cov)));
      forall i, j | 0 <= i < j < |slots|
        ensures slots[i] != slots[j]
      {
        if slots[i] == slots[j] { SlotIsOwn(cov, iso, segs, i, j); }
      }
      ElementsSize(slots);
      SubsetSize(Elements(slots), Range(2 * ((Height(cov) - 1) * (Width(cov) - 1))));
    }
  }

  method MarchingSquaresContours(cov: Coverage, iso: real)
    returns (loops: seq<seq<Point>>, ghost segs: seq<Segment>, ghost walks: seq<Walk>)
    requires Rectangular(cov)
    ensures Traced(cov, iso, Vertices(cov, iso), segs)
    ensures Decomposition(segs, Vertices(cov, iso), loops, walks)
    ensures forall k | 0 <= k < |loops| :: |loops[k]| >= 3 && loops[k][0] == loops[k][|loops[k]| - 1]
    ensures (Height(cov) - 1) * (Width(cov) - 1) <= 5_000_000 && BackgroundBorder(cov, iso) ==>
              Contoured(cov, iso, segs, loops, walks)
  {
    var pieces := ExtractSegments(cov, iso);
    TracedIsAtMostTwo(cov, iso, pieces);
    segs := pieces;
    loops, walks := TraceLoops(pieces, Vertices(cov, iso));
    if (Height(cov) - 1) * (Width(cov) - 1) <= 5_000_000 && BackgroundBorder(cov, iso) {
      SmallGridIsContoured(cov, iso, pieces, loops, walks);
    }
  }

  // ---------------------------------------------------------------- nothing is lost

  /** The outermost rows and columns carry no ink. */
  ghost predicate BackgroundBorder(cov: Coverage, iso: real)
    requires Rectangular(cov)
  {
    forall y, x | InSamples(cov, y, x) && (y == 0 || x == 0 || y == Height(cov) - 1 || x == Width(cov) - 1) ::
      !Ink(cov, iso, y, x)
  }

  /** The cell on the other side of one of a cell's changing edges. */
  lemma OtherCell(cov: Coverage, iso: real, y: int, x: int, e: EdgeKey) returns (y': int, x': int)
    requires Rectangular(cov) && BackgroundBorder(cov, iso)
    requires InCells(cov, y, x) && CellEdge(y, x, e) && Changes(cov, iso, e)
    ensures InCells(cov, y', x') && CellEdge(y', x', e) && (y', x') != (y, x)
  {
    if e == H(y, x) { y', x' := y - 1, x; }
    else if e == H(y + 1, x) { y', x' := y + 1, x; }
    else if e == V(y, x) { y', x' := y, x - 1; }
    else { y', x' := y, x + 1; }
  }

  /** A changing edge of a cell carries a segment drawn by that cell. */
  lemma SegmentOn(cov: Coverage, iso: real, segs: seq<Segment>, y: int, x: int, e: EdgeKey) returns (t: nat)
    requires Rectangular(cov) && Traced(cov, iso, Vertices(cov, iso), segs)
    requires InCells(cov, y, x) && CellEdge(y, x, e) && Changes(cov, iso, e)
    ensures t < |segs| && segs[t].cy == y && segs[t].cx == x && Touches(segs[t], e)
  {
    hide Faithful, SameCellApart, Changes, CellEdge;
    assert EndsOn(segs, y, x, e);
    t :| t < |segs| && segs[t].cy == y && segs[t].cx == x && Touches(segs[t], e);
  }

  lemma EndIsChange(cov: Coverage, iso: real, at: EdgeKey -> Point, s: Segment, e: EdgeKey)
    requires Rectangular(cov) && Faithful(cov, iso, at, s) && Touches(s, e)
    ensures InCells(cov, s.cy, s.cx) && CellEdge(s.cy, s.cx, e) && InEdges(cov, e) && Changes(cov, iso, e)
  {}

  lemma BorderedSegmentsAreShared(cov: Coverage, iso: real, segs: seq<Segment>, i: nat, e: EdgeKey)
    requires Rectangular(cov) && Traced(cov, iso, Vertices(cov, iso), segs) && BackgroundBorder(cov, iso)
    requires i < |segs| && Touches(segs[i], e)
    ensures Shared(segs, Range(|segs|), i, e)
  {
    hide BackgroundBorder, Faithful, SameCellApart, EndsOn;
    EndIsChange(cov, iso, Vertices(cov, iso), segs[i], e);
    hide Traced, Changes, CellEdge, InEdges;
    var y, x := OtherCell(cov, iso, segs[i].cy, segs[i].cx, e);
    var t := SegmentOn(cov, iso, segs, y, x, e);
    assert t in Range(|segs|) && t != i;
  }

  /** The traced contours of a grid with a background border, below the step guard. */
  ghost predicate Contoured(cov: Coverage, iso: real, segs: seq<Segment>, loops: seq<seq<Point>>, walks: seq<Walk>)
    requires Rectangular(cov)
  {
    && Traced(cov, iso, Vertices(cov, iso), segs) && BackgroundBorder(cov, iso)
    && Decomposition(segs, Vertices(cov, iso), loops, walks) && |segs| <= 10_000_000
  }

  /** Below the step guard a bordered grid loses no segment: each lies on exactly one loop. */
  lemma NoSegmentLost(cov: Coverage, iso: real, segs: seq<Segment>, loops: seq<seq<Point>>, walks: seq<Walk>, i: nat)
    requires Rectangular(cov) && Contoured(cov, iso, segs, loops, walks)
    requires i < |segs|
    ensures InSome(walks, i)
    ensures forall k, l | 0 <= k < |walks| && 0 <= l < |walks| && i in walks[k].steps && i in walks[l].steps :: k == l
  {
    forall s, e | s in Range(|segs|) && Touches(segs[s], e)
      ensures Shared(segs, Range(|segs|), s, e)
    {
      BorderedSegmentsAreShared(cov, iso, segs, s, e);
    }
    assert Regular(segs, Range(|segs|));
    assert i in Range(|segs|);
    assert OnCycle(segs, i);
    forall k, l | 0 <= k < |walks| && 0 <= l < |walks| && i in walks[k].steps && i in walks[l].steps
      ensures k == l
    {
      assert i in StepSet(walks[k]) && i in StepSet(walks[l]);
    }
  }

  lemma SmallGridIsContoured(
      cov: Coverage, iso: real, segs: seq<Segment>, loops: seq<seq<Point>>, walks: seq<Walk>)
    requires Rectangular(cov) && Traced(cov, iso, Vertices(cov, iso), segs) && BackgroundBorder(cov, iso)
    requires Decomposition(segs, Vertices(cov, iso), loops, walks)
    requires (Height(cov) - 1) * (Width(cov) - 1) <= 5_000_000
    ensures Contoured(cov, iso, segs, loops, walks)
  {
    TracedIsSmall(cov, iso, segs);
    hide Traced, Decomposition, BackgroundBorder, Height, Width, Vertices, Rectangular;
  }

  /** The segment is a step of one walk and of no other. */
  ghost predicate OnOneLoop(walks: seq<Walk>, i: nat) {
    && InSome(walks, i)
    && forall k, l | 0 <= k < |walks| && 0 <= l < |walks| && i in walks[k].steps && i in walks[l].steps :: k == l
  }

  /** A bordered grid of at most five million cells, a square of some 2236 pixels a side, never meets
      the step guard: each of its segments lies on exactly one returned loop. */
  lemma SmallGridLosesNothing(
      cov: Coverage, iso: real, segs: seq<Segment>, loops: seq<seq<Point>>, walks: seq<Walk>)
    requires Rectangular(cov) && Traced(cov, iso, Vertices(cov, iso), segs) && BackgroundBorder(cov, iso)
    requires Decomposition(segs, Vertices(cov, iso), loops, walks)
    requires (Height(cov) - 1) * (Width(cov) - 1) <= 5_000_000
    ensures forall i: nat | i < |segs| :: OnOneLoop(walks, i)
  {
    SmallGridIsContoured(cov, iso, segs, loops, walks);
    hide Traced, Decomposition, BackgroundBorder, Contoured, InSome;
    forall i: nat | i < |segs|
      ensures OnOneLoop(walks, i)
    {
      NoSegmentLost(cov, iso, segs, loops, walks, i);
    }
  }

  // ---------------------------------------------------------------- doors passed by the loops

  /** The grid edges the loops cross, each loop's closing vertex counted once. */
  ghost function Doors(walks: seq<Walk>): seq<EdgeKey>
    requires forall k | 0 <= k < |walks| :: |walks[k].steps| <= |walks[k].doors|
  {
    if walks == [] then []
    else Doors(walks[..|walks| - 1]) + Passed(walks[|walks| - 1])
  }

  ghost function Passed(w: Walk): seq<EdgeKey>
    requires |w.steps| <= |w.doors|
  {
    w.doors[..|w.steps|]
  }

  ghost predicate NoRepeat(s: seq<EdgeKey>) {
    forall i, j | 0 <= i < j < |s| :: s[i] != s[j]
  }

  lemma PassedOnce(segs: seq<Segment>, w: Walk)
    requires AtMostTwo(segs) && Closed(segs, w)
    ensures NoRepeat(Passed(w))
  {
    forall i, j | 0 <= i < j < |w.steps|
      ensures w.doors[i] != w.doors[j]
    {
      if i > 0 {
        assert Joins(segs[w.steps[i - 1]], w.doors[i - 1], w.doors[i]);
        assert Joins(segs[w.steps[i]], w.doors[i], w.doors[i + 1]);
        assert Joins(segs[w.steps[j]], w.doors[j], w.doors[j + 1]);
        NoThird(segs, w.steps[i - 1], w.steps[i], w.steps[j], w.doors[i]);
      }
    }
  }

  lemma NoThird(segs: seq<Segment>, i: nat, j: nat, k: nat, e: EdgeKey)
    requires AtMostTwo(segs) && i < |segs| && j < |segs| && k < |segs| && i != j && j != k && i != k
    requires Touches(segs[i], e) && Touches(segs[j], e)
    ensures !Touches(segs[k], e)
  {
    assert Touches(segs[k], e) ==> Meet(segs, i, j, k, e);
  }

  lemma PassedApart(segs: seq<Segment>, v: Walk, w: Walk, e: EdgeKey)
    requires AtMostTwo(segs) && Closed(segs, v) && Closed(segs, w) && StepSet(v) !! StepSet(w)
    requires e in Passed(v)
    ensures e !in Passed(w)
  {
    var i :| 0 <= i < |v.steps| && v.doors[i] == e;
    assert Joins(segs[v.steps[i]], e, v.doors[i + 1]);
    var k := ClosedShares(segs, v, i, e);
    forall j | 0 <= j < |w.steps|
      ensures w.doors[j] != e
    {
      assert v.steps[i] in StepSet(v) && v.steps[k] in StepSet(v) && w.steps[j] in StepSet(w);
      ThirdMisses(segs, v.steps[i], v.steps[k], w.steps[j], e);
      assert Joins(segs[w.steps[j]], w.doors[j], w.doors[j + 1]);
    }
  }

  lemma {:induction false} DoorsMembership(walks: seq<Walk>, e: EdgeKey)
    requires forall k | 0 <= k < |walks| :: |walks[k].steps| <= |walks[k].doors|
    ensures e in Doors(walks) <==> exists k :: 0 <= k < |walks| && e in Passed(walks[k])
  {
    if walks != [] {
      var n := |walks| - 1;
      DoorsMembership(walks[..n], e);
      if e in Doors(walks[..n]) {
        var k :| 0 <= k < n && e in Passed(walks[..n][k]);
        assert walks[k] == walks[..n][k];
      }
    }
  }

  lemma {:induction false} DoorsOnce(segs: seq<Segment>, walks: seq<Walk>)
    requires AtMostTwo(segs) && AllClosed(segs, walks) && PairwiseDisjoint(walks)
    ensures NoRepeat(Doors(walks))
  {
    if walks != [] {
      var n := |walks| - 1;
      DoorsOnce(segs, walks[..n]);
      PassedOnce(segs, walks[n]);
      var a, b := Doors(walks[..n]), Passed(walks[n]);
      forall i, j | 0 <= i < |a| && 0 <= j < |b|
        ensures a[i] != b[j]
      {
        DoorsMembership(walks[..n], a[i]);
        var k :| 0 <= k < n && a[i] in Passed(walks[..n][k]);
        PassedApart(segs, walks[k], walks[n], a[i]);
      }
    }
  }

  lemma DoorIsChange(cov: Coverage, iso: real, segs: seq<Segment>, w: Walk, e: EdgeKey)
    requires Rectangular(cov) && Traced(cov, iso, Vertices(cov, iso), segs)
    requires Closed(segs, w) && e in Passed(w)
    ensures InEdges(cov, e) && Changes(cov, iso, e)
  {
    var i :| 0 <= i < |w.steps| && w.doors[i] == e;
    assert Joins(segs[w.steps[i]], e, w.doors[i + 1]);
    assert Faithful(cov, iso, Vertices(cov, iso), segs[w.steps[i]]);
  }

  lemma StepPassesItsEnds(segs: seq<Segment>, w: Walk, i: nat, e: EdgeKey)
    requires Closed(segs, w) && i in w.steps && Touches(segs[i], e)
    ensures e in Passed(w)
  {
    var a :| 0 <= a < |w.steps| && w.steps[a] == i;
    assert Joins(segs[i], w.doors[a], w.doors[a + 1]);
    var b := if e == w.doors[a] then a else if a + 1 < |w.steps| then a + 1 else 0;
    assert Passed(w)[b] == e;
  }

  /** The loops of a bordered grid cross exactly the changing grid edges. */
  lemma DoorsAreChanges(cov: Coverage, iso: real, segs: seq<Segment>, loops: seq<seq<Point>>, walks: seq<Walk>,
                        e: EdgeKey)
    requires Rectangular(cov) && Contoured(cov, iso, segs, loops, walks)
    ensures e in Doors(walks) <==> InEdges(cov, e) && Changes(cov, iso, e)
  {
    DoorsMembership(walks, e);
    if e in Doors(walks) {
      var k :| 0 <= k < |walks| && e in Passed(walks[k]);
      DoorIsChange(cov, iso, segs, walks[k], e);
    }
    if InEdges(cov, e) && Changes(cov, iso, e) {
      var y, x := SomeCell(cov, iso, e);
      assert EndsOn(segs, y, x, e);
      var i: nat :| i < |segs| && segs[i].cy == y && segs[i].cx == x && Touches(segs[i], e);
      NoSegmentLost(cov, iso, segs, loops, walks, i);
      var k :| 0 <= k < |walks| && i in walks[k].steps;
      StepPassesItsEnds(segs, walks[k], i, e);
    }
  }

  lemma SomeCell(cov: Coverage, iso: real, e: EdgeKey) returns (y: int, x: int)
    requires Rectangular(cov) && BackgroundBorder(cov, iso) && InEdges(cov, e) && Changes(cov, iso, e)
    ensures InCells(cov, y, x) && CellEdge(y, x, e)
  {
    y, x := e.y, e.x;
  }

  // ---------------------------------------------------------------- the mask

  /** How often the loops cross horizontal grid edges of row y left of sample x. */
  ghost function Crossings(doors: multiset<EdgeKey>, y: int, x: nat): nat {
    if x == 0 then 0 else Crossings(doors, y, x - 1) + doors[H(y, x - 1)]
  }

  lemma {:induction false} NoRepeatCounts(s: seq<EdgeKey>, e: EdgeKey)
    requires NoRepeat(s)
    ensures multiset(s)[e] == if e in s then 1 else 0
  {
    if s != [] {
      NoRepeatCounts(s[1..], e);
      assert s == [s[0]] + s[1..];
      assert s[0] !in s[1..];
    }
  }

  lemma DoorCount(cov: Coverage, iso: real, segs: seq<Segment>, loops: seq<seq<Point>>, walks: seq<Walk>, e: EdgeKey)
    requires Rectangular(cov) && Contoured(cov, iso, segs, loops, walks)
    ensures multiset(Doors(walks))[e] == if InEdges(cov, e) && Changes(cov, iso, e) then 1 else 0
  {
    TracedIsAtMostTwo(cov, iso, segs);
    DoorsOnce(segs, walks);
    NoRepeatCounts(Doors(walks), e);
    DoorsAreChanges(cov, iso, segs, loops, walks, e);
  }

  lemma {:induction false} ChangesDetermineInk(cov: Coverage, iso: real, doors: multiset<EdgeKey>, y: int, x: nat)
    requires Rectangular(cov) && BackgroundBorder(cov, iso) && InSamples(cov, y, x)
    requires forall e :: doors[e] == if InEdges(cov, e) && Changes(cov, iso, e) then 1 else 0
    ensures Ink(cov, iso, y, x) <==> Crossings(doors, y, x) % 2 == 1
  {
    if x > 0 {
      ChangesDetermineInk(cov, iso, doors, y, x - 1);
    }
  }

  /** A sample is ink exactly when the loops cross an odd number of horizontal grid edges left of it
      on its row. */
  lemma ContoursDetermineInk(
      cov: Coverage, iso: real, segs: seq<Segment>, loops: seq<seq<Point>>, walks: seq<Walk>, y: int, x: nat)
    requires Rectangular(cov) && Contoured(cov, iso, segs, loops, walks)
    requires InSamples(cov, y, x)
    ensures Ink(cov, iso, y, x) <==> Crossings(multiset(Doors(walks)), y, x) % 2 == 1
  {
    forall e
      ensures multiset(Doors(walks))[e] == if InEdges(cov, e) && Changes(cov, iso, e) then 1 else 0
    {
      DoorCount(cov, iso, segs, loops, walks, e);
    }
    ChangesDetermineInk(cov, iso, multiset(Doors(walks)), y, x);
  }

  /** Two bordered grids of one size with the same crossed edges have the same ink mask. */
  lemma SameContoursSameMask(
      a: Coverage, b: Coverage, iso: real, segsA: seq<Segment>, loopsA: seq<seq<Point>>, walksA: seq<Walk>,
      segsB: seq<Segment>, loopsB: seq<seq<Point>>, walksB: seq<Walk>, y: int, x: nat)
    requires Rectangular(a) && Contoured(a, iso, segsA, loopsA, walksA)
    requires Rectangular(b) && Contoured(b, iso, segsB, loopsB, walksB)
    requires Height(a) == Height(b) && Width(a) == Width(b) && InSamples(a, y, x)
    requires multiset(Doors(walksA)) == multiset(Doors(walksB))
    ensures Ink(a, iso, y, x) == Ink(b, iso, y, x)
  {
    ContoursDetermineInk(a, iso, segsA, loopsA, walksA, y, x);
    ContoursDetermineInk(b, iso, segsB, loopsB, walksB, y, x);
  }
}
