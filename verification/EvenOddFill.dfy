/** Even-odd fill of closed outlines into a pixel mask by per-row crossing counts. */
module EvenOddFill {
  import opened Outline

  const MIN_EDGE_DY := 0.000000001
  const SAMPLES_PER_CURVE := 8

  /** One straight piece of a flattened outline, in pixels. */
  datatype Edge = Edge(a: Point, b: Point)

  function Abs(d: real): real { if d < 0.0 then -d else d }

  function Ceil(v: real): int { -((-v).Floor) }

  function Clamp(v: int, lo: int, hi: int): int { if v < lo then lo else if v > hi then hi else v }

  function Center(r: int): real { r as real + 0.5 }

  /** Half-open row rule: one end at or above the row centre and the other strictly below it. */
  predicate Straddles(e: Edge, r: int) { (e.a.y <= Center(r)) != (e.b.y <= Center(r)) }

  /** The edge is counted on the row: it straddles the centre and is not dropped as flat. */
  predicate Counted(e: Edge, r: int) { Straddles(e, r) && Abs(e.b.y - e.a.y) > MIN_EDGE_DY }

  /** Where the line of the edge meets the row centre. */
  function Abscissa(e: Edge, r: int): real
    requires e.a.y != e.b.y
  {
    e.a.x + (Center(r) - e.a.y) * (e.b.x - e.a.x) / (e.b.y - e.a.y)
  }

  function Column(e: Edge, r: int, width: int): int
    requires e.a.y != e.b.y
  {
    Clamp(Abscissa(e, r).Floor, 0, width - 1)
  }

  predicate CountedAt(e: Edge, r: int, c: int, width: int) { Counted(e, r) && Column(e, r, width) == c }

  predicate CountedUpTo(e: Edge, r: int, c: int, width: int) { Counted(e, r) && Column(e, r, width) <= c }

  function Bit(b: bool): nat { if b then 1 else 0 }

  function CountAt(edges: seq<Edge>, r: int, c: int, width: int): nat {
    if edges == [] then 0
    else CountAt(edges[..|edges| - 1], r, c, width) + Bit(CountedAt(edges[|edges| - 1], r, c, width))
  }

  predicate Odd(n: nat) { n % 2 == 1 }

  /** Crossings of row r whose clipped column is at most c. */
  function CountUpTo(edges: seq<Edge>, r: int, c: int, width: int): nat {
    if edges == [] then 0
    else CountUpTo(edges[..|edges| - 1], r, c, width) + Bit(CountedUpTo(edges[|edges| - 1], r, c, width))
  }

  /** The meaning of the fill: the parity of the crossings to the left. */
  predicate Filled(edges: seq<Edge>, r: int, c: int, width: int) { Odd(CountUpTo(edges, r, c, width)) }

  // ---------------------------------------------------------------- where an edge crosses a row

  /** The abscissa at which the line of the edge meets the row centre. */
  predicate Meets(e: Edge, r: int, x: real) {
    (x - e.a.x) * (e.b.y - e.a.y) == (r as real + 0.5 - e.a.y) * (e.b.x - e.a.x)
  }

  lemma Quotient(n: real, d: real)
    requires d != 0.0
    ensures (n / d) * d == n
  {}

  lemma Cancel(p: real, q: real, d: real)
    requires d != 0.0 && p * d == q * d
    ensures p == q
  {
    var w := p - q;
    assert w * d == p * d - q * d;
  }

  /** The line meets the row centre there and nowhere else. */
  lemma AbscissaMeets(e: Edge, r: int, x: real)
    requires e.a.y != e.b.y
    ensures Meets(e, r, x) <==> x == Abscissa(e, r)
  {
    var (n, d, q) := ((Center(r) - e.a.y) * (e.b.x - e.a.x), e.b.y - e.a.y, Abscissa(e, r) - e.a.x);
    Quotient(n, d);
    assert q * d == n;
    if Meets(e, r, x) { Cancel(x - e.a.x, q, d); }
  }

  /** The column of a crossing left of the last one is the pixel that holds the crossing. */
  lemma ColumnHoldsCrossing(e: Edge, r: int, c: int, width: int, x: real)
    requires Counted(e, r) && Meets(e, r, x) && 0 <= c < width - 1
    ensures CountedUpTo(e, r, c, width) <==> x < (c + 1) as real
    ensures 0 < c ==> (CountedAt(e, r, c, width) <==> c as real <= x < (c + 1) as real)
  {
    AbscissaMeets(e, r, x);
    hide Abscissa, Meets;
    FloorBelow(x, c);
    FloorBelow(x, c - 1);
  }

  lemma FloorBelow(x: real, c: int)
    ensures x.Floor <= c <==> x < (c + 1) as real
  {}

  /** The edge crosses the row centre left of the bound: compared by the products of the slopes, and
      not at all when it is flat or lies on one side of the centre. */
  predicate CrossesLeftOf(e: Edge, r: int, bound: real) {
    var (rise, run, up) := (e.b.y - e.a.y, e.b.x - e.a.x, r as real + 0.5 - e.a.y);
    if e.a.y <= r as real + 0.5 < e.b.y then rise > 0.000000001 && up * run < (bound - e.a.x) * rise
    else e.b.y <= r as real + 0.5 < e.a.y && rise < -0.000000001 && up * run > (bound - e.a.x) * rise
  }

  function CrossingsLeftOf(edges: seq<Edge>, r: int, bound: real): nat {
    if edges == [] then 0
    else CrossingsLeftOf(edges[..|edges| - 1], r, bound) + Bit(CrossesLeftOf(edges[|edges| - 1], r, bound))
  }

  lemma Between(x: real, bound: real, d: real)
    ensures d > 0.0 ==> (x * d < bound * d <==> x < bound)
    ensures d < 0.0 ==> (x * d > bound * d <==> x < bound)
  {
    var w := x - bound;
    assert x * d - bound * d == w * d;
    Signs(w, d);
  }

  lemma Signs(w: real, d: real)
    ensures d > 0.0 ==> (w * d < 0.0 <==> w < 0.0)
    ensures d < 0.0 ==> (w * d > 0.0 <==> w < 0.0)
  {}

  lemma CountedLeftOf(e: Edge, r: int, c: int, width: int)
    requires 0 <= c < width - 1
    ensures CountedUpTo(e, r, c, width) <==> CrossesLeftOf(e, r, (c + 1) as real)
  {
    if Counted(e, r) {
      var x := Abscissa(e, r);
      AbscissaMeets(e, r, x);
      ColumnHoldsCrossing(e, r, c, width, x);
      MeetsLeftOf(e, r, x, (c + 1) as real);
      hide Abscissa, CountedUpTo, Meets;
    }
  }

  lemma MeetsLeftOf(e: Edge, r: int, x: real, bound: real)
    requires Counted(e, r) && Meets(e, r, x)
    ensures CrossesLeftOf(e, r, bound) <==> x < bound
  {
    var (p, q, d) := ((r as real + 0.5 - e.a.y) * (e.b.x - e.a.x), (bound - e.a.x) * (e.b.y - e.a.y), e.b.y - e.a.y);
    assert (x - e.a.x) * d == p;
    Between(x - e.a.x, bound - e.a.x, d);
    assert CrossesLeftOf(e, r, bound) <==> if d > 0.0 then p < q else p > q;
  }

  /** A pixel left of the last column is filled exactly when an odd number of edges crosses its row
      centre left of its right border. */
  lemma {:induction false} FilledExactly(edges: seq<Edge>, r: int, c: int, width: int)
    requires 0 <= c < width - 1
    ensures CountUpTo(edges, r, c, width) == CrossingsLeftOf(edges, r, (c + 1) as real)
    ensures Filled(edges, r, c, width) <==> CrossingsLeftOf(edges, r, (c + 1) as real) % 2 == 1
  {
    hide CountedUpTo, CrossesLeftOf;
    if edges != [] {
      FilledExactly(edges[..|edges| - 1], r, c, width);
      CountedLeftOf(edges[|edges| - 1], r, c, width);
    }
  }

  // ---------------------------------------------------------------- flattening

  function Samples(s: Segment): seq<Point> {
    if s.Line? then [s.p0, s.p1]
    else seq(SAMPLES_PER_CURVE + 1, i requires 0 <= i <= SAMPLES_PER_CURVE => Evaluate(s, i as real / 8.0))
  }

  function EdgesOfSamples(pts: seq<Point>, m: CellMapping): seq<Edge> {
    if |pts| < 2 then []
    else EdgesOfSamples(pts[..|pts| - 1], m) + [Edge(m.UpemToPx(pts[|pts| - 2]), m.UpemToPx(pts[|pts| - 1]))]
  }

  function ContourEdges(segs: seq<Segment>, m: CellMapping): seq<Edge> {
    if segs == [] then []
    else ContourEdges(segs[..|segs| - 1], m) + EdgesOfSamples(Samples(segs[|segs| - 1]), m)
  }

  function AllEdges(contours: seq<seq<Segment>>, m: CellMapping): seq<Edge> {
    if contours == [] then []
    else AllEdges(contours[..|contours| - 1], m) + ContourEdges(contours[|contours| - 1], m)
  }

  lemma {:induction false} CountAppend(a: seq<Edge>, b: seq<Edge>, r: int, c: int, width: int)
    ensures CountUpTo(a + b, r, c, width) == CountUpTo(a, r, c, width) + CountUpTo(b, r, c, width)
  {
    if b == [] {
      assert a + b == a;
    } else {
      CountAppend(a, b[..|b| - 1], r, c, width);
      assert (a + b)[..|a + b| - 1] == a + b[..|b| - 1];
    }
  }

  // ---------------------------------------------------------------- rows touched by one edge

  lemma CeilIsLeast(v: real, r: int)
    ensures v <= r as real <==> Ceil(v) <= r
  {}

  /** The row range computed for an edge is exactly the rows whose centre it straddles. */
  lemma RowRange(e: Edge, r: int)
    requires e.a.y != e.b.y
    ensures var (lo, hi) := if e.a.y < e.b.y then (e.a.y, e.b.y) else (e.b.y, e.a.y);
            Straddles(e, r) <==> Ceil(lo - 0.5) <= r <= Ceil(hi - 0.5) - 1
  {
    var (lo, hi) := if e.a.y < e.b.y then (e.a.y, e.b.y) else (e.b.y, e.a.y);
    CeilIsLeast(lo - 0.5, r);
    CeilIsLeast(hi - 0.5, r);
  }

  ghost predicate Accumulated(grid: array2<int>, edges: seq<Edge>, width: int)
    reads grid
  {
    forall r, c | 0 <= r < grid.Length0 && 0 <= c < grid.Length1 :: grid[r, c] == CountAt(edges, r, c, width)
  }

  /** Adds the crossings of one edge to the grid. */
  method AddEdge(grid: array2<int>, e: Edge, width: int, height: int, ghost before: seq<Edge>)
    requires width >= 1 && height >= 0 && grid.Length0 == height && grid.Length1 == width + 1
    requires Accumulated(grid, before, width)
    modifies grid
    ensures Accumulated(grid, before + [e], width)
  {
    assert (before + [e])[..|before|] == before;
    if Abs(e.b.y - e.a.y) <= MIN_EDGE_DY { return; }
    var (lo, hi) := if e.a.y < e.b.y then (e.a.y, e.b.y) else (e.b.y, e.a.y);
    var rLo, rHi := Ceil(lo - 0.5), Ceil(hi - 0.5) - 1;
    if rLo < 0 { rLo := 0; }
    if rHi > height - 1 { rHi := height - 1; }
    forall r | 0 <= r < height
      ensures Straddles(e, r) <==> rLo <= r <= rHi
    {
      RowRange(e, r);
    }
    if rHi < rLo { return; }
    var r := rLo;
    while r <= rHi
      invariant rLo <= r <= rHi + 1
      invariant forall i, c | 0 <= i < height && 0 <= c <= width ::
                  grid[i, c] == CountAt(before, i, c, width) + Bit(rLo <= i < r && Column(e, i, width) == c)
    {
      var c := Column(e, r, width);
      grid[r, c] := grid[r, c] + 1;
      r := r + 1;
    }
  }

  method AddPolyline(grid: array2<int>, pts: seq<Point>, m: CellMapping, width: int, height: int,
                     ghost before: seq<Edge>)
    requires width >= 1 && height >= 0 && grid.Length0 == height && grid.Length1 == width + 1
    requires Accumulated(grid, before, width) && |pts| >= 1
    modifies grid
    ensures Accumulated(grid, before + EdgesOfSamples(pts, m), width)
  {
    assert before + EdgesOfSamples(pts[..1], m) == before;
    for i := 1 to |pts|
      invariant Accumulated(grid, before + EdgesOfSamples(pts[..i], m), width)
    {
      var e := Edge(m.UpemToPx(pts[i - 1]), m.UpemToPx(pts[i]));
      assert pts[..i + 1][..i] == pts[..i];
      assert (before + EdgesOfSamples(pts[..i], m)) + [e] == before + EdgesOfSamples(pts[..i + 1], m);
      AddEdge(grid, e, width, height, before + EdgesOfSamples(pts[..i], m));
    }
    assert pts[..|pts|] == pts;
  }

  method AddContour(grid: array2<int>, segs: seq<Segment>, m: CellMapping, width: int, height: int,
                    ghost before: seq<Edge>)
    requires width >= 1 && height >= 0 && grid.Length0 == height && grid.Length1 == width + 1
    requires Accumulated(grid, before, width)
    modifies grid
    ensures Accumulated(grid, before + ContourEdges(segs, m), width)
  {
    assert before + ContourEdges(segs[..0], m) == before;
    for i := 0 to |segs|
      invariant Accumulated(grid, before + ContourEdges(segs[..i], m), width)
    {
      assert segs[..i + 1][..i] == segs[..i];
      assert (before + ContourEdges(segs[..i], m)) + EdgesOfSamples(Samples(segs[i]), m)
          == before + ContourEdges(segs[..i + 1], m);
      AddPolyline(grid, Samples(segs[i]), m, width, height, before + ContourEdges(segs[..i], m));
    }
    assert segs[..|segs|] == segs;
  }

  /** The parity of the running row sums of the grid. */
  method ParityMask(grid: array2<int>, width: int, height: int, ghost edges: seq<Edge>) returns (mask: array2<bool>)
    requires width >= 1 && height >= 0 && grid.Length0 == height && grid.Length1 == width + 1
    requires Accumulated(grid, edges, width)
    ensures mask.Length0 == height && mask.Length1 == width
    ensures forall r, c | 0 <= r < height && 0 <= c < width :: mask[r, c] <==> Filled(edges, r, c, width)
  {
    hide CountUpTo, CountAt;
    mask := new bool[height, width]((i, j) => false);
    for r := 0 to height
      invariant forall i, c | 0 <= i < r && 0 <= c < width :: mask[i, c] <==> Filled(edges, i, c, width)
    {
      var total := 0;
      NothingLeftOfZero(edges, r, width);
      for c := 0 to width
        invariant total == CountUpTo(edges, r, c - 1, width)
        invariant forall i, k | 0 <= i < r && 0 <= k < width :: mask[i, k] <==> Filled(edges, i, k, width)
        invariant forall k | 0 <= k < c :: mask[r, k] <==> Filled(edges, r, k, width)
      {
        NextColumn(edges, r, c, width);
        total := total + grid[r, c];
        mask[r, c] := total % 2 == 1;
      }
    }
  }

  method RasterizeSegmentsMask(contours: seq<seq<Segment>>, m: CellMapping, width: int, height: int)
    returns (mask: array2<bool>)
    requires width >= 1 && height >= 0
    ensures mask.Length0 == height && mask.Length1 == width
    ensures forall r, c | 0 <= r < height && 0 <= c < width ::
              mask[r, c] <==> Filled(AllEdges(contours, m), r, c, width)
    ensures forall r, c | 0 <= r < height && 0 <= c < width - 1 ::
              mask[r, c] <==> CrossingsLeftOf(AllEdges(contours, m), r, (c + 1) as real) % 2 == 1
  {
    hide Filled, ContourEdges, CrossingsLeftOf;
    var grid := new int[height, width + 1]((i, j) => 0);
    assert contours[..0] == [];
    for i := 0 to |contours|
      invariant Accumulated(grid, AllEdges(contours[..i], m), width)
    {
      hide Accumulated;
      assert contours[..i + 1][..i] == contours[..i];
      AddContour(grid, contours[i], m, width, height, AllEdges(contours[..i], m));
    }
    assert contours[..|contours|] == contours;
    mask := ParityMask(grid, width, height, AllEdges(contours, m));
    forall r, c | 0 <= r < height && 0 <= c < width - 1
      ensures mask[r, c] <==> CrossingsLeftOf(AllEdges(contours, m), r, (c + 1) as real) % 2 == 1
    {
      FilledExactly(AllEdges(contours, m), r, c, width);
    }
  }

  lemma {:induction false} NothingLeftOfZero(edges: seq<Edge>, r: int, width: int)
    requires width >= 1
    ensures CountUpTo(edges, r, -1, width) == 0
  {
    if edges != [] { NothingLeftOfZero(edges[..|edges| - 1], r, width); }
  }

  lemma {:induction false} NextColumn(edges: seq<Edge>, r: int, c: int, width: int)
    ensures CountUpTo(edges, r, c, width) == CountUpTo(edges, r, c - 1, width) + CountAt(edges, r, c, width)
  {
    if edges != [] { NextColumn(edges[..|edges| - 1], r, c, width); }
  }

  // ---------------------------------------------------------------- closed chains cross evenly

  function StraddleCount(edges: seq<Edge>, r: int): nat {
    if edges == [] then 0
    else StraddleCount(edges[..|edges| - 1], r) + Bit(Straddles(edges[|edges| - 1], r))
  }

  /** Straddling edges that the flatness threshold drops. */
  function DroppedCount(edges: seq<Edge>, r: int): nat {
    if edges == [] then 0
    else DroppedCount(edges[..|edges| - 1], r)
         + Bit(Straddles(edges[|edges| - 1], r) && !Counted(edges[|edges| - 1], r))
  }

  predicate Above(p: Point, m: CellMapping, r: int) { m.UpemToPx(p).y <= Center(r) }

  lemma {:induction false} StraddleAppend(a: seq<Edge>, b: seq<Edge>, r: int)
    ensures StraddleCount(a + b, r) == StraddleCount(a, r) + StraddleCount(b, r)
  {
    if b == [] {
      assert a + b == a;
    } else {
      StraddleAppend(a, b[..|b| - 1], r);
      assert (a + b)[..|a + b| - 1] == a + b[..|b| - 1];
    }
  }

  lemma EdgeStraddles(a: Point, b: Point, m: CellMapping, r: int)
    ensures Straddles(Edge(m.UpemToPx(a), m.UpemToPx(b)), r) <==> Above(a, m, r) != Above(b, m, r)
  {}

  lemma StraddleSnoc(edges: seq<Edge>, e: Edge, r: int)
    ensures StraddleCount(edges + [e], r) == StraddleCount(edges, r) + Bit(Straddles(e, r))
  {
    hide Straddles, Bit;
    assert (edges + [e])[..|edges|] == edges;
  }

  lemma OddStep(n: nat, b: bool)
    ensures Odd(n + Bit(b)) <==> Odd(n) != b
  {}

  /** A polyline straddles a row centre oddly often exactly when its ends lie on different sides. */
  lemma {:induction false} PolylineParity(pts: seq<Point>, m: CellMapping, r: int)
    requires pts != []
    ensures Odd(StraddleCount(EdgesOfSamples(pts, m), r)) <==> Above(pts[0], m, r) != Above(pts[|pts| - 1], m, r)
  {
    hide Straddles, Above, StraddleCount, Bit;
    if |pts| >= 2 {
      var n := |pts| - 1;
      PolylineParity(pts[..n], m, r);
      var e := Edge(m.UpemToPx(pts[n - 1]), m.UpemToPx(pts[n]));
      assert EdgesOfSamples(pts, m) == EdgesOfSamples(pts[..n], m) + [e];
      StraddleSnoc(EdgesOfSamples(pts[..n], m), e, r);
      EdgeStraddles(pts[n - 1], pts[n], m, r);
      OddStep(StraddleCount(EdgesOfSamples(pts[..n], m), r), Straddles(e, r));
    } else {
      NoStraddles(r);
    }
  }

  lemma NoStraddles(r: int)
    ensures !Odd(StraddleCount([], r))
  {}

  lemma SamplesEnds(s: Segment)
    ensures Samples(s) != [] && Samples(s)[0] == Start(s) && Samples(s)[|Samples(s)| - 1] == End(s)
  {
    EvaluateEnds(s);
    if s.Cubic? {
      assert 0 as real / 8.0 == 0.0 && 8 as real / 8.0 == 1.0;
    }
  }

  lemma OddSum(a: nat, b: nat)
    ensures Odd(a + b) <==> Odd(a) != Odd(b)
  {}

  ghost function ContourStraddles(segs: seq<Segment>, m: CellMapping, r: int): nat {
    StraddleCount(ContourEdges(segs, m), r)
  }

  ghost function SegmentStraddles(s: Segment, m: CellMapping, r: int): nat {
    StraddleCount(EdgesOfSamples(Samples(s), m), r)
  }

  lemma ContourStraddlesStep(segs: seq<Segment>, m: CellMapping, r: int)
    requires segs != []
    ensures Odd(ContourStraddles(segs, m, r))
       <==> Odd(ContourStraddles(segs[..|segs| - 1], m, r)) != Odd(SegmentStraddles(segs[|segs| - 1], m, r))
  {
    var n := |segs| - 1;
    StraddleAppend(ContourEdges(segs[..n], m), EdgesOfSamples(Samples(segs[n]), m), r);
    OddSum(ContourStraddles(segs[..n], m, r), SegmentStraddles(segs[n], m, r));
  }

  lemma SegmentParity(s: Segment, m: CellMapping, r: int)
    ensures Odd(SegmentStraddles(s, m, r)) <==> Above(Start(s), m, r) != Above(End(s), m, r)
  {
    hide StraddleCount, Samples, Above;
    SamplesEnds(s);
    PolylineParity(Samples(s), m, r);
  }

  lemma {:induction false} ChainParity(segs: seq<Segment>, m: CellMapping, r: int)
    requires Chained(segs) && segs != []
    ensures Odd(ContourStraddles(segs, m, r))
       <==> Above(Start(segs[0]), m, r) != Above(End(segs[|segs| - 1]), m, r)
  {
    var n := |segs| - 1;
    SegmentParity(segs[n], m, r);
    ContourStraddlesStep(segs, m, r);
    hide ContourStraddles, SegmentStraddles, Above;
    if n > 0 {
      ChainParity(segs[..n], m, r);
      assert End(segs[n - 1]) == Start(segs[n]);
    } else {
      assert segs[..0] == [];
      NoContourStraddles(m, r);
    }
  }

  lemma NoContourStraddles(m: CellMapping, r: int)
    ensures !Odd(ContourStraddles([], m, r))
  {}

  /** A closed outline straddles every row centre an even number of times. */
  lemma ClosedChainCrossesEvenly(segs: seq<Segment>, m: CellMapping, r: int)
    requires ClosedChain(segs)
    ensures !Odd(ContourStraddles(segs, m, r))
  {
    if segs != [] {
      ChainParity(segs, m, r);
    } else {
      assert ContourStraddles([], m, r) == 0;
    }
  }

  lemma {:induction false} LastColumnCountsAll(edges: seq<Edge>, r: int, width: int)
    requires width >= 1
    ensures CountUpTo(edges, r, width - 1, width) + DroppedCount(edges, r) == StraddleCount(edges, r)
  {
    if edges != [] { LastColumnCountsAll(edges[..|edges| - 1], r, width); }
  }

  /** The last mask column of a closed outline is empty, exactly unless an odd number of
      straddling edges of the row was dropped as flat. */
  lemma LastColumnEmptyExactly(segs: seq<Segment>, m: CellMapping, r: int, width: int)
    requires ClosedChain(segs) && width >= 1
    ensures Filled(ContourEdges(segs, m), r, width - 1, width) <==> Odd(DroppedCount(ContourEdges(segs, m), r))
  {
    var edges := ContourEdges(segs, m);
    ClosedChainCrossesEvenly(segs, m, r);
    LastColumnCountsAll(edges, r, width);
    OddSum(CountUpTo(edges, r, width - 1, width), DroppedCount(edges, r));
  }

  // ---------------------------------------------------------------- several contours

  /** Number of contours whose own mask covers the pixel. */
  function Covering(contours: seq<seq<Segment>>, m: CellMapping, r: int, c: int, width: int): nat {
    if contours == [] then 0
    else Covering(contours[..|contours| - 1], m, r, c, width)
         + Bit(Filled(ContourEdges(contours[|contours| - 1], m), r, c, width))
  }

  lemma FilledAppend(a: seq<Edge>, b: seq<Edge>, r: int, c: int, width: int)
    ensures Filled(a + b, r, c, width) <==> Filled(a, r, c, width) != Filled(b, r, c, width)
  {
    hide CountUpTo;
    CountAppend(a, b, r, c, width);
    OddSum(CountUpTo(a, r, c, width), CountUpTo(b, r, c, width));
  }

  lemma NothingFilled(m: CellMapping, r: int, c: int, width: int)
    ensures !Filled(AllEdges([], m), r, c, width)
  {}

  /** The mask of several contours is the exclusive or of their masks. */
  lemma {:induction false} FillIsXor(contours: seq<seq<Segment>>, m: CellMapping, r: int, c: int, width: int)
    ensures Filled(AllEdges(contours, m), r, c, width) <==> Odd(Covering(contours, m, r, c, width))
  {
    hide Filled, ContourEdges, Bit;
    if contours != [] {
      var n := |contours| - 1;
      FillIsXor(contours[..n], m, r, c, width);
      var rest, last := AllEdges(contours[..n], m), ContourEdges(contours[n], m);
      FilledAppend(rest, last, r, c, width);
      OddStep(Covering(contours[..n], m, r, c, width), Filled(last, r, c, width));
    } else {
      NothingFilled(m, r, c, width);
    }
  }

  lemma {:induction false} CoveringAppend(
      a: seq<seq<Segment>>, b: seq<seq<Segment>>, m: CellMapping, r: int, c: int, width: int)
    ensures Covering(a + b, m, r, c, width) == Covering(a, m, r, c, width) + Covering(b, m, r, c, width)
  {
    hide Filled, ContourEdges, Bit;
    if b == [] {
      assert a + b == a;
    } else {
      CoveringAppend(a, b[..|b| - 1], m, r, c, width);
      assert (a + b)[..|a + b| - 1] == a + b[..|b| - 1];
    }
  }

  lemma {:induction false} CoveringPermutes(
      a: seq<seq<Segment>>, b: seq<seq<Segment>>, m: CellMapping, r: int, c: int, width: int)
    requires multiset(a) == multiset(b)
    ensures Covering(a, m, r, c, width) == Covering(b, m, r, c, width)
  {
    if a == [] {
      assert |multiset(b)| == 0;
    } else {
      var n := |a| - 1;
      assert a[n] in multiset(b);
      var i :| 0 <= i < |b| && b[i] == a[n];
      assert a == a[..n] + [a[n]];
      assert b == b[..i] + [b[i]] + b[i + 1..];
      assert multiset(a[..n]) == multiset(a) - multiset{a[n]};
      assert multiset(b[..i] + b[i + 1..]) == multiset(b) - multiset{a[n]};
      CoveringPermutes(a[..n], b[..i] + b[i + 1..], m, r, c, width);
      CoveringAppend(b[..i] + [b[i]], b[i + 1..], m, r, c, width);
      CoveringAppend(b[..i], [b[i]], m, r, c, width);
      CoveringAppend(b[..i], b[i + 1..], m, r, c, width);
      CoveringAppend(a[..n], [a[n]], m, r, c, width);
    }
  }

  /** The mask does not depend on the order of the contours. */
  lemma FillIgnoresContourOrder(a: seq<seq<Segment>>, b: seq<seq<Segment>>, m: CellMapping, r: int, c: int, width: int)
    requires multiset(a) == multiset(b)
    ensures Filled(AllEdges(a, m), r, c, width) == Filled(AllEdges(b, m), r, c, width)
  {
    CoveringPermutes(a, b, m, r, c, width);
    FillIsXor(a, m, r, c, width);
    FillIsXor(b, m, r, c, width);
  }
}
