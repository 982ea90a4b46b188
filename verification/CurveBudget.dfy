/** What the segment budget of the curve fit bounds, and what it does not. */
module CurveBudget {
  import opened Outline
  import opened Euclid
  import opened CurveFit
  import opened CurveDeviation
  import opened CurveClosing
  import opened CurveSpike

  // ---------------------------------------------------------------- spans left over at the budget

  /** The chords of the spans that are still to be fitted once all but one segment of the budget
      have been emitted. */
  function Pending(f: Fit, chain: seq<Point>, i0: nat, i1: nat, count: nat): seq<real>
    requires i0 < i1 < |chain|
    decreases i1 - i0
  {
    if count >= f.maxSegments - 1 then [Chord(f, chain[i0], chain[i1])]
    else if !Splits(f, chain, i0, i1, count) then []
    else
      var mid := Middle(f, chain, i0, i1);
      Pending(f, chain, i0, mid, count)
      + Pending(f, chain, mid, i1, count + Emitted(Pieces(f, chain, i0, mid, count)))
  }

  /** How many chords at the front are too short to be fitted. */
  function Leading(chords: seq<real>): (n: nat)
    ensures n <= |chords|
  {
    if chords != [] && chords[0] < MIN_CHORD then 1 + Leading(chords[1..]) else 0
  }

  lemma {:induction false} LeadingAppend(a: seq<real>, b: seq<real>)
    ensures Leading(a + b) == if Leading(a) == |a| then |a| + Leading(b) else Leading(a)
  {
    if a == [] {
      assert a + b == b;
    } else if a[0] < MIN_CHORD {
      assert (a + b)[1..] == a[1..] + b;
      LeadingAppend(a[1..], b);
    }
  }

  lemma PendingSplit(f: Fit, chain: seq<Point>, i0: nat, i1: nat, count: nat)
    requires i0 < i1 < |chain| && Splits(f, chain, i0, i1, count)
    ensures var mid := Middle(f, chain, i0, i1);
            Pending(f, chain, i0, i1, count)
            == Pending(f, chain, i0, mid, count)
               + Pending(f, chain, mid, i1, count + Emitted(Pieces(f, chain, i0, mid, count)))
  {
    hide Pieces, Middle, Emitted, NeedsSplit;
  }

  /** The segments emitted up to the end of a span, from the spans pending in it. */
  ghost predicate CountsPending(f: Fit, chain: seq<Point>, i0: nat, i1: nat, count: nat)
    requires i0 < i1 < |chain|
  {
    var (late, e) := (Pending(f, chain, i0, i1, count), count + Emitted(Pieces(f, chain, i0, i1, count)));
    if count >= f.maxSegments then |late| == 1 && e == count + 1
    else if late == [] then e < f.maxSegments
    else e == f.maxSegments - 1 + |late| - Leading(late)
  }

  lemma LateSpan(f: Fit, chain: seq<Point>, i0: nat, i1: nat, count: nat)
    requires i0 < i1 < |chain| && !Splits(f, chain, i0, i1, count)
    ensures CountsPending(f, chain, i0, i1, count)
    ensures count >= f.maxSegments - 1 ==> Pending(f, chain, i0, i1, count) == [Chord(f, chain[i0], chain[i1])]
  {
    hide NeedsSplit, FitCubic, MaxDistance;
    var p := Leaf(f, chain, i0, i1, count);
    PiecesLeaf(f, chain, i0, i1, count);
    LeafOfLong(f, chain, i0, i1, count);
    assert [p][..0] == [] && Emitted([p]) == if p.Skipped? then 0 else 1;
    var c := Chord(f, chain[i0], chain[i1]);
    assert Leading([c][1..]) == 0;
  }

  lemma {:induction false} PendingCount(f: Fit, chain: seq<Point>, i0: nat, i1: nat, count: nat)
    requires i0 < i1 < |chain|
    ensures CountsPending(f, chain, i0, i1, count)
    decreases i1 - i0
  {
    hide Pieces, Pending, Middle, Emitted, NeedsSplit, Chord;
    if Splits(f, chain, i0, i1, count) {
      SplitsIsWide(f, chain, i0, i1, count);
      var mid := Middle(f, chain, i0, i1);
      var left := Pieces(f, chain, i0, mid, count);
      var late := Pending(f, chain, i0, mid, count);
      var next := count + Emitted(left);
      PiecesSplit(f, chain, i0, i1, count);
      PendingSplit(f, chain, i0, i1, count);
      PendingCount(f, chain, i0, mid, count);
      PendingCount(f, chain, mid, i1, next);
      EmittedAppend(left, Pieces(f, chain, mid, i1, next));
      LeadingAppend(late, Pending(f, chain, mid, i1, next));
      if late == [] {
        assert late + Pending(f, chain, mid, i1, next) == Pending(f, chain, mid, i1, next);
      } else {
        LateSpan(f, chain, mid, i1, next);
        SingleLeading(Chord(f, chain[mid], chain[i1]));
      }
    } else {
      LateSpan(f, chain, i0, i1, count);
    }
  }

  lemma SingleLeading(c: real)
    ensures Leading([c]) == if c < MIN_CHORD then 1 else 0
  {
    assert Leading([c][1..]) == 0;
  }

  /** The spans of the whole loop that are pending when all but one segment are out. */
  function PendingLoop(f: Fit, poly: seq<Point>): seq<real>
    requires |poly| >= 3
  {
    var (o, n) := (Opposite(|poly|), |poly|);
    Pending(f, ChainA(poly), 0, o, 0) + Pending(f, ChainB(poly), 0, n - o, Emitted(PiecesA(f, poly)))
  }

  /** Every pending span adds a segment, but for short ones before the budget is used up; without
      pending spans the budget is not reached. */
  lemma SegmentCount(f: Fit, poly: seq<Point>, segs: seq<Segment>)
    requires |poly| >= 3 && FittedLoop(f, poly, segs)
    ensures f.maxSegments <= 0 ==> |segs| == 2
    ensures f.maxSegments >= 1 && PendingLoop(f, poly) == [] ==> |segs| < f.maxSegments
    ensures f.maxSegments >= 1 && PendingLoop(f, poly) != []
            ==> |segs| == f.maxSegments - 1 + |PendingLoop(f, poly)| - Leading(PendingLoop(f, poly))
  {
    hide Pieces, Pending, Emitted, SegmentsOf, InChain, NeedsSplit, Chord, ChainA, ChainB;
    var (o, n, a) := (Opposite(|poly|), |poly|, Emitted(PiecesA(f, poly)));
    ChainLengths(poly);
    PendingCount(f, ChainA(poly), 0, o, 0);
    PendingCount(f, ChainB(poly), 0, n - o, a);
    var (p, q) := (Pending(f, ChainA(poly), 0, o, 0), Pending(f, ChainB(poly), 0, n - o, a));
    LeadingAppend(p, q);
    if p == [] {
      assert p + q == q;
    } else if a >= f.maxSegments - 1 {
      LateSpan(f, ChainB(poly), 0, n - o, a);
      SingleLeading(q[0]);
    }
  }

  lemma ChainLengths(poly: seq<Point>)
    requires |poly| >= 3
    ensures |ChainA(poly)| == Opposite(|poly|) + 1 && |ChainB(poly)| == |poly| - Opposite(|poly|) + 1
  {
    hide Rotated;
  }

  /** The budget is exceeded exactly when at least two pending spans are fitted, by one less than
      their number. */
  lemma ExceededExactly(f: Fit, poly: seq<Point>, segs: seq<Segment>)
    requires |poly| >= 3 && FittedLoop(f, poly, segs) && f.maxSegments >= 1
    ensures var fitted := |PendingLoop(f, poly)| - Leading(PendingLoop(f, poly));
            && (|segs| > f.maxSegments <==> fitted >= 2)
            && (|segs| > f.maxSegments ==> |segs| - f.maxSegments == fitted - 1)
  {
    hide PendingLoop, FittedLoop;
    SegmentCount(f, poly, segs);
  }

  // ---------------------------------------------------------------- polygons that do not feel the budget

  /** The pieces of a span without any budget. */
  function Refined(f: Fit, chain: seq<Point>, i0: nat, i1: nat): (ps: seq<Piece>)
    requires i0 < i1 < |chain|
    ensures ps != []
    decreases i1 - i0
  {
    if NeedsSplit(f, chain, i0, i1) then
      var mid := Middle(f, chain, i0, i1);
      Refined(f, chain, i0, mid) + Refined(f, chain, mid, i1)
    else if Chord(f, chain[i0], chain[i1]) < MIN_CHORD then [Skipped(i0, i1)]
    else if MaxDistance(f, chain, i0, i1) <= f.tol then [LinePiece(i0, i1, MaxDistance(f, chain, i0, i1))]
    else [FitCubic(f, chain, i0, i1)]
  }

  /** A budget with room for all of them changes nothing; and never are there more pieces than them. */
  lemma {:induction false} RefinedFits(f: Fit, chain: seq<Point>, i0: nat, i1: nat, count: nat)
    requires i0 < i1 < |chain|
    ensures count + |Refined(f, chain, i0, i1)| <= f.maxSegments
            ==> Pieces(f, chain, i0, i1, count) == Refined(f, chain, i0, i1)
    ensures |Pieces(f, chain, i0, i1, count)| <= |Refined(f, chain, i0, i1)| <= i1 - i0
    decreases i1 - i0
  {
    hide Pieces, Leaf, Middle, NeedsSplit, MaxDistance, FitCubic, Chord;
    RefinedStep(f, chain, i0, i1);
    if NeedsSplit(f, chain, i0, i1) {
      NeedsSplitIsWide(f, chain, i0, i1);
      var mid := Middle(f, chain, i0, i1);
      var left := Pieces(f, chain, i0, mid, count);
      RefinedFits(f, chain, i0, mid, count);
      RefinedFits(f, chain, mid, i1, count + Emitted(left));
      EmittedAtMost(left);
      if Splits(f, chain, i0, i1, count) {
        PiecesSplit(f, chain, i0, i1, count);
      } else {
        PiecesLeaf(f, chain, i0, i1, count);
      }
    } else {
      PiecesLeaf(f, chain, i0, i1, count);
      RefinedLeaf(f, chain, i0, i1, count);
    }
  }

  lemma NeedsSplitIsWide(f: Fit, chain: seq<Point>, i0: nat, i1: nat)
    requires i0 < i1 < |chain| && NeedsSplit(f, chain, i0, i1)
    ensures i1 - i0 > 2
  {}

  lemma RefinedStep(f: Fit, chain: seq<Point>, i0: nat, i1: nat)
    requires i0 < i1 < |chain|
    ensures NeedsSplit(f, chain, i0, i1) ==>
              var mid := Middle(f, chain, i0, i1);
              Refined(f, chain, i0, i1) == Refined(f, chain, i0, mid) + Refined(f, chain, mid, i1)
    ensures !NeedsSplit(f, chain, i0, i1) ==> |Refined(f, chain, i0, i1)| == 1
  {
    hide Middle, MaxDistance, FitCubic, Chord;
  }

  lemma RefinedLeaf(f: Fit, chain: seq<Point>, i0: nat, i1: nat, count: nat)
    requires i0 < i1 < |chain| && !NeedsSplit(f, chain, i0, i1)
    ensures count < f.maxSegments ==> Refined(f, chain, i0, i1) == [Leaf(f, chain, i0, i1, count)]
  {
    hide NeedsSplit, MaxDistance, FitCubic, Chord;
  }

  /** How many pieces the loop has without a budget. */
  function RefinedSize(f: Fit, poly: seq<Point>): nat
    requires |poly| >= 3
  {
    var (o, n) := (Opposite(|poly|), |poly|);
    |Refined(f, ChainA(poly), 0, o)| + |Refined(f, ChainB(poly), 0, n - o)|
  }

  /** A polygon with at most as many vertices, or unbudgeted pieces, as the budget has segments is
      fitted as if there were no budget, and within it. */
  lemma BudgetIsNotFelt(f: Fit, poly: seq<Point>, segs: seq<Segment>)
    requires |poly| >= 3 && FittedLoop(f, poly, segs)
    ensures |segs| <= RefinedSize(f, poly) <= |poly|
    ensures RefinedSize(f, poly) <= f.maxSegments
            ==> && PiecesA(f, poly) == Refined(f, ChainA(poly), 0, Opposite(|poly|))
                && PiecesB(f, poly) == Refined(f, ChainB(poly), 0, |poly| - Opposite(|poly|))
  {
    hide Pieces, Emitted, SegmentsOf, InChain, ChainA, ChainB, Refined;
    var (o, n) := (Opposite(|poly|), |poly|);
    ChainLengths(poly);
    RefinedFits(f, ChainA(poly), 0, o, 0);
    RefinedFits(f, ChainB(poly), 0, n - o, Emitted(PiecesA(f, poly)));
    EmittedAtMost(PiecesA(f, poly));
    EmittedAtMost(PiecesB(f, poly));
  }

  // ---------------------------------------------------------------- no budget bounds the result

  /** A zigzag of amplitude a over n rows that starts far below, and as many vertices back. */
  function CombAt(a: real, n: nat, j: nat): Point {
    if j == 0 then Point(0.0, -Depth(a, n))
    else if j > n then Point(0.0, n as real)
    else Point(if j % 2 == 0 then a else -a, j as real)
  }

  function Depth(a: real, n: nat): real { 2.0 * (n as real) + 4.0 * a }

  function Comb(a: real, n: nat): (r: seq<Point>)
    ensures |r| == 2 * n && forall j: nat | j < 2 * n :: r[j] == CombAt(a, n, j)
  {
    seq(2 * n, j requires 0 <= j < 2 * n => CombAt(a, n, j))
  }

  lemma ScaleStep(k: real, m: nat)
    ensures k * (m + 1) as real == k * m as real + k
  {
    assert (m + 1) as real == m as real + 1.0;
  }

  lemma {:induction false} SumBounds(pts: seq<Point>, a: real, lo: real, hi: real)
    requires forall j: nat | j < |pts| :: -a <= pts[j].x <= a && lo <= pts[j].y <= hi
    ensures -a * |pts| as real <= SumX(pts) <= a * |pts| as real
    ensures lo * |pts| as real <= SumY(pts) <= hi * |pts| as real
  {
    if pts == [] {
      assert -a * 0.0 == 0.0 && a * 0.0 == 0.0 && lo * 0.0 == 0.0 && hi * 0.0 == 0.0;
    } else {
      var rest := pts[1..];
      assert forall j: nat | j < |rest| :: rest[j] == pts[j + 1];
      SumBounds(rest, a, lo, hi);
      ScaleStep(-a, |rest|);
      ScaleStep(a, |rest|);
      ScaleStep(lo, |rest|);
      ScaleStep(hi, |rest|);
    }
  }

  lemma Average(v: real, k: real, n: real)
    requires n > 0.0
    ensures v <= k * n ==> v / n <= k
    ensures v >= k * n ==> v / n >= k
  {
    var q := v / n;
    assert q * n == v;
    FactorOrder(q, k, n);
    FactorOrder(k, q, n);
  }

  lemma FactorOrder(a: real, b: real, n: real)
    requires n > 0.0
    ensures a * n <= b * n <==> a <= b
  {
    if a > b { ProductIsPositive(a - b, n, a * n - b * n); }
    if a <= b { NonNegativeProduct(b - a, n); }
  }

  lemma CombSums(a: real, n: nat)
    requires a > 0.0 && n >= 2
    ensures var (p, m) := (Comb(a, n), (2 * n) as real);
            -a * m <= SumX(p) <= a * m && -Depth(a, n) <= SumY(p) <= (n as real) * m
  {
    hide SumX, SumY, Comb, Depth;
    var (p, h) := (Comb(a, n), Depth(a, n));
    var rest := p[1..];
    forall j: nat | j < |rest|
      ensures -a <= rest[j].x <= a && 0.0 <= rest[j].y <= n as real
    {
      assert rest[j] == CombAt(a, n, j + 1);
    }
    SumBounds(rest, a, 0.0, n as real);
    SumTail(p, 0);
    assert p[0..] == p && p[1..] == rest && p[0] == CombAt(a, n, 0);
    ScaleStep(a, |rest|);
    ScaleStep(-a, |rest|);
    ScaleStep(n as real, |rest|);
    assert Depth(a, n) >= 0.0 by { DepthIs(a, n); }
    assert |rest| + 1 == 2 * n && 0.0 * |rest| as real == 0.0;
  }

  lemma DepthIs(a: real, n: nat)
    requires a > 0.0
    ensures Depth(a, n) == 2.0 * (n as real) + 4.0 * a > 0.0
  {}

  /** The centre of the comb lies in its upper part. */
  lemma CombCenter(a: real, n: nat)
    requires a > 0.0 && n >= 2
    ensures var c := Center(Comb(a, n));
            -a <= c.x <= a && 2.0 * c.y >= (n as real) + 2.0 * a - Depth(a, n) && c.y <= n as real
  {
    hide SumX, SumY, Comb, Depth;
    var (p, h, m) := (Comb(a, n), Depth(a, n), (2 * n) as real);
    CombSums(a, n);
    DepthIs(a, n);
    Average(SumX(p), a, m);
    Average(SumX(p), -a, m);
    Average(SumY(p), n as real, m);
    NonNegativeProduct(h, m - 4.0);
    assert -h >= (-h / 4.0) * m;
    Average(SumY(p), -h / 4.0, m);
  }

  /** The first vertex of the comb is its anchor. */
  lemma CombRotated(a: real, n: nat)
    requires a > 0.0 && n >= 2
    ensures Rotated(Comb(a, n)) == Comb(a, n)
  {
    hide SumX, SumY, Rotated, Center, FromCenter, Comb;
    var p := Comb(a, n);
    var c := Center(p);
    CombCenter(a, n);
    forall q | 0 <= q < |p|
      ensures FromCenter(p[q], c) <= FromCenter(p[0], c)
    {
      if q > 0 { FartherBelow(p[q], c, a, n as real, Depth(a, n)); }
    }
    AnchoredFirst(p);
  }

  lemma FartherBelow(p: Point, c: Point, a: real, top: real, h: real)
    requires -a <= p.x <= a && -a <= c.x <= a && 0.0 <= p.y <= top && c.y <= top
    requires 2.0 * c.y >= top + 2.0 * a - h && h >= 2.0 * a
    ensures FromCenter(p, c) <= FromCenter(Point(0.0, -h), c)
  {
    var (dx, dy, e) := (Abs(p.x - c.x), Abs(p.y - c.y), h + c.y);
    assert Square(p.x - c.x) == Square(dx) && Square(p.y - c.y) == Square(dy);
    assert dx + dy <= e;
    NonNegativeProduct(dx, dy);
    assert Square(dx + dy) == Square(dx) + Square(dy) + 2.0 * (dx * dy);
    SquareGrows(dx + dy, e);
    assert Square(-h - c.y) == Square(e) && Square(0.0 - c.x) >= 0.0;
  }

  lemma CombChain(a: real, n: nat)
    requires a > 0.0 && n >= 2
    ensures |ChainA(Comb(a, n))| == n + 1 && Opposite(|Comb(a, n)|) == n
    ensures forall j: nat | j <= n :: ChainA(Comb(a, n))[j] == CombAt(a, n, j)
  {
    hide Rotated, Comb;
    CombRotated(a, n);
  }

  /** A budget of at least two segments, and an amplitude beyond the tolerance. */
  ghost predicate Wide(f: Fit, a: real) {
    Euclidean(f.norm) && f.maxSegments >= 2 && a >= 1.0 && a > f.tol
  }

  /** Outer product of the chord of the first k + 1 vertices with the offset of vertex j. */
  function CombOuter(a: real, n: nat, j: nat, k: nat): real {
    var (p, b, o) := (CombAt(a, n, j), CombAt(a, n, k), CombAt(a, n, 0));
    (p.x - o.x) * (b.y - o.y) - (p.y - o.y) * (b.x - o.x)
  }

  function CombCross(a: real, n: nat, j: nat, k: nat): real { Abs(CombOuter(a, n, j, k)) }

  function CombX(a: real, j: nat): real { if j % 2 == 0 then a else -a }

  lemma CombOuterAt(a: real, n: nat, j: nat, k: nat)
    requires 1 <= j < k <= n
    ensures var h := Depth(a, n);
            CombOuter(a, n, j, k) == CombX(a, j) * (k as real + h) - (j as real + h) * CombX(a, k)
  {
    hide Depth;
  }

  lemma CombCrossEnds(a: real, n: nat, k: nat)
    requires 1 <= k <= n
    ensures CombCross(a, n, 0, k) == 0.0 && CombCross(a, n, k, k) == 0.0
  {
    hide Depth;
    var (x, t) := (CombX(a, k), k as real + Depth(a, n));
    assert x * t - t * x == 0.0;
  }

  lemma CombLastCross(a: real, n: nat, k: nat)
    requires a > 0.0 && 2 <= k <= n
    ensures CombCross(a, n, k - 1, k) == a * (2.0 * (k as real) - 1.0 + 2.0 * Depth(a, n))
    ensures CombCross(a, n, k - 1, k) > 0.0
  {
    hide CombOuter, Depth, Abs;
    DepthIs(a, n);
    CombOuterAt(a, n, k - 1, k);
    var (z, h) := (k as real, Depth(a, n));
    assert (k - 1) as real == z - 1.0;
    ZigzagCross(a, CombX(a, k - 1), CombX(a, k), z + h, z - 1.0 + h, CombOuter(a, n, k - 1, k));
    assert a * (z + h + (z - 1.0 + h)) == a * (2.0 * z - 1.0 + 2.0 * h);
  }

  lemma CombEarlierCross(a: real, n: nat, j: nat, k: nat)
    requires a > 0.0 && 1 <= j < k - 1 && k <= n
    ensures CombCross(a, n, j, k) < a * (2.0 * (k as real) - 1.0 + 2.0 * Depth(a, n))
  {
    hide CombOuter, Depth, Abs;
    DepthIs(a, n);
    CombOuterAt(a, n, j, k);
    var (y, z, h) := (j as real, k as real, Depth(a, n));
    SmallerCross(a, CombX(a, j), CombX(a, k), z + h, y + h, CombOuter(a, n, j, k));
    assert a * (z + h + (z + h - 1.0)) == a * (2.0 * z - 1.0 + 2.0 * h);
  }

  /** Of the first k + 1 vertices the last but one is farthest from the chord of the two ends. */
  lemma CombCrosses(a: real, n: nat, j: nat, k: nat)
    requires a > 0.0 && 2 <= k <= n && j <= k
    ensures var w := CombCross(a, n, k - 1, k);
            && w == a * (2.0 * (k as real) - 1.0 + 2.0 * Depth(a, n))
            && (j != k - 1 ==> CombCross(a, n, j, k) < w)
  {
    hide CombCross, Depth;
    CombLastCross(a, n, k);
    CombCrossEnds(a, n, k);
    if 1 <= j < k - 1 { CombEarlierCross(a, n, j, k); }
  }

  lemma ZigzagCross(a: real, x: real, xk: real, top: real, y: real, v: real)
    requires (xk == a || xk == -a) && x == -xk && a > 0.0 && top > 0.0 && y > 0.0
    requires v == x * top - y * xk
    ensures Abs(v) == a * (top + y) > 0.0
  {
    PositiveProduct(a, top + y);
    assert v == x * (top + y);
    SignedProduct(x, a, top + y);
  }

  lemma SignedProduct(x: real, a: real, t: real)
    requires x == a || x == -a
    ensures x * t == a * t || x * t == -(a * t)
  {
    if x == -a { assert x * t == -(a * t); }
  }

  lemma SmallerCross(a: real, x: real, xk: real, top: real, y: real, v: real)
    requires (x == a || x == -a) && (xk == a || xk == -a) && a > 0.0 && 0.0 < y <= top - 2.0
    requires v == x * top - y * xk
    ensures Abs(v) < a * (top + (top - 1.0))
  {
    var (p, q, r) := (a * top, a * y, a * (top - 1.0 - y));
    SignedProduct(x, a, top);
    SignedProduct(xk, a, y);
    assert y * xk == xk * y;
    ProductIsPositive(a, top, p);
    ProductIsPositive(a, y, q);
    AbsBelow(v, p, q);
    ProductIsPositive(a, top - 1.0 - y, r);
    SpreadProduct(a, top, y);
  }

  lemma SpreadProduct(a: real, top: real, y: real)
    ensures a * (top - 1.0 - y) == a * (top + (top - 1.0)) - a * top - a * y
  {}

  lemma AbsBelow(v: real, p: real, q: real)
    requires p >= 0.0 && q >= 0.0 && (v == p - q || v == p + q || v == -p - q || v == -p + q)
    ensures Abs(v) <= p + q
  {}

  lemma CombChord(f: Fit, a: real, n: nat, k: nat)
    requires Wide(f, a) && 2 <= k <= n && |ChainA(Comb(a, n))| == n + 1
    ensures var (c, z) := (ChainA(Comb(a, n)), (k as real) + Depth(a, n));
            1.0 <= z <= Chord(f, c[0], c[k]) <= a + z
  {
    hide ChainA, Euclidean, Comb;
    CombChain(a, n);
    var (o, b) := (CombAt(a, n, 0), CombAt(a, n, k));
    NormBounds(f.norm, b.x - o.x, b.y - o.y);
  }

  lemma CombDistance(f: Fit, a: real, n: nat, j: nat, k: nat)
    requires Wide(f, a) && 2 <= k <= n && j <= k && |ChainA(Comb(a, n))| == n + 1
    ensures var c := ChainA(Comb(a, n));
            && Chord(f, c[0], c[k]) >= 1.0
            && Distance(f, c, 0, k, j) == CombCross(a, n, j, k) / Chord(f, c[0], c[k])
  {
    hide ChainA, Euclidean, Comb, CombAt, Gap, Depth, PointLineDistance;
    OpenWide(f, a);
    CombChain(a, n);
    CombChord(f, a, n, k);
    var c := ChainA(Comb(a, n));
    var (o, b, p) := (CombAt(a, n, 0), CombAt(a, n, k), CombAt(a, n, j));
    assert c[0] == o && c[k] == b && c[j] == p;
    DistanceIsQuotient(f.norm, p, o, b, p.x - o.x, p.y - o.y, b.x - o.x, b.y - o.y);
    assert (p.x - o.x) * (b.y - o.y) - (p.y - o.y) * (b.x - o.x) == CombOuter(a, n, j, k);
  }

  lemma QuotientLess(v: real, w: real, d: real)
    requires d > 0.0 && v < w
    ensures v / d < w / d
  {
    var (p, q) := (v / d, w / d);
    assert p * d == v && q * d == w;
    FactorOrder(q, p, d);
  }

  lemma CombFarthest(f: Fit, a: real, n: nat, k: nat)
    requires Wide(f, a) && 2 <= k <= n && |ChainA(Comb(a, n))| == n + 1
    ensures Farthest(f, ChainA(Comb(a, n)), 0, k, k) == k - 1
    ensures MaxDistance(f, ChainA(Comb(a, n)), 0, k) > f.tol
  {
    hide ChainA, Euclidean, Comb, Distance, CombCross, Chord, Wide;
    var c := ChainA(Comb(a, n));
    var m := Farthest(f, c, 0, k, k);
    assert a > 0.0 by { OpenWide(f, a); }
    FarthestIsMax(f, c, 0, k, k, k - 1);
    CombChord(f, a, n, k);
    CombDistance(f, a, n, k - 1, k);
    CombDistance(f, a, n, m, k);
    CombCrosses(a, n, m, k);
    if m != k - 1 {
      QuotientLess(CombCross(a, n, m, k), CombCross(a, n, k - 1, k), Chord(f, c[0], c[k]));
    }
    CombIsHigh(f, a, n, k, Chord(f, c[0], c[k]));
  }

  lemma OpenWide(f: Fit, a: real)
    requires Wide(f, a)
    ensures Euclidean(f.norm) && f.maxSegments >= 2 && a >= 1.0 && a > f.tol
  {}

  lemma CombIsHigh(f: Fit, a: real, n: nat, k: nat, d: real)
    requires Wide(f, a) && 2 <= k <= n && 0.0 < d <= a + (k as real) + Depth(a, n)
    ensures a * (2.0 * (k as real) - 1.0 + 2.0 * Depth(a, n)) / d > f.tol
  {
    hide Euclidean;
    var (z, q) := ((k as real) + Depth(a, n), 2.0 * (k as real) - 1.0 + 2.0 * Depth(a, n));
    assert d <= q;
    NonNegativeProduct(a, q - d);
    assert a * q >= a * d;
    Average(a * q, a, d);
  }

  lemma CombAlternates(f: Fit, a: real, n: nat)
    requires Wide(f, a) && n >= 6 && |ChainA(Comb(a, n))| == n + 1
    ensures Alternates(f, ChainA(Comb(a, n)), 2, 0.0)
  {
    hide ChainA, Euclidean, Comb;
    CombChain(a, n);
    var c := ChainA(Comb(a, n));
    assert c[2].x == a && c[3].x == -a && c[4].x == a && c[5].x == -a && c[6].x == a;
  }

  lemma CombSplits(f: Fit, a: real, n: nat, k: nat)
    requires Wide(f, a) && 6 <= k <= n && |ChainA(Comb(a, n))| == n + 1
    ensures Splits(f, ChainA(Comb(a, n)), 0, k, 0) && Middle(f, ChainA(Comb(a, n)), 0, k) == k - 1
  {
    hide ChainA, Euclidean, Comb, Distance, CombCross, Chord, Alternates, FitCubic, Farthest, MaxDistance;
    var c := ChainA(Comb(a, n));
    CombFarthest(f, a, n, k);
    CombAlternates(f, a, n);
    AlternatingDefeats(f, c, 0, k, 2, 0.0);
    CombDistance(f, a, n, 0, k);
    assert NeedsSplit(f, c, 0, k);
    MiddleIsFarthest(f, c, k);
  }

  lemma MiddleIsFarthest(f: Fit, c: seq<Point>, k: nat)
    requires 2 < k < |c| && Farthest(f, c, 0, k, k) == k - 1
    ensures Middle(f, c, 0, k) == k - 1
  {}

  /** Every split peels one edge off the end, before any segment has been emitted. */
  lemma {:induction false} CombCount(f: Fit, a: real, n: nat, k: nat)
    requires Wide(f, a) && 5 <= k <= n && |ChainA(Comb(a, n))| == n + 1
    ensures Emitted(Pieces(f, ChainA(Comb(a, n)), 0, k, 0)) >= k - 5
    decreases k
  {
    hide ChainA, Euclidean, Comb, Pieces, Emitted, Splits, Middle, Wide;
    if k > 5 {
      var c := ChainA(Comb(a, n));
      CombSplits(f, a, n, k);
      PiecesSplit(f, c, 0, k, 0);
      CombCount(f, a, n, k - 1);
      var left := Pieces(f, c, 0, k - 1, 0);
      CombEdge(f, a, n, k, Emitted(left));
      EmittedAppend(left, Pieces(f, c, k - 1, k, Emitted(left)));
    }
  }

  lemma CombEdge(f: Fit, a: real, n: nat, k: nat, count: nat)
    requires Wide(f, a) && 2 <= k <= n && |ChainA(Comb(a, n))| == n + 1
    ensures Emitted(Pieces(f, ChainA(Comb(a, n)), k - 1, k, count)) == 1
  {
    hide ChainA, Euclidean, Comb, FitCubic, MaxDistance;
    CombChain(a, n);
    var c := ChainA(Comb(a, n));
    assert c[k].y - c[k - 1].y == 1.0 by { assert k as real - (k - 1) as real == 1.0; }
    NormBounds(f.norm, c[k].x - c[k - 1].x, c[k].y - c[k - 1].y);
    assert Chord(f, c[k - 1], c[k]) >= 1.0;
    PiecesLeaf(f, c, k - 1, k, count);
    LeafOfLong(f, c, k - 1, k, count);
    var p := Leaf(f, c, k - 1, k, count);
    assert [p][..0] == [];
  }

  /** Under any budget of two segments or more some polygon is fitted by at least m segments. */
  lemma BudgetIsNoBound(f: Fit, m: nat) returns (poly: seq<Point>, segs: seq<Segment>)
    requires Euclidean(f.norm) && f.maxSegments >= 2
    ensures |poly| == 2 * (m + 5) && FittedLoop(f, poly, segs) && |segs| >= m
  {
    hide Euclidean, ChainA, Comb, Pieces, Emitted, SegmentsOf, InChain;
    var (a, n) := (if f.tol < 0.0 then 1.0 else f.tol + 1.0, m + 5);
    poly := Comb(a, n);
    segs := FitExists(f, poly);
    CombChain(a, n);
    CombCount(f, a, n, n);
  }

  /** The default budget of 32 segments is exceeded by a polygon of 76 vertices. */
  lemma DefaultBudgetIsExceeded(f: Fit) returns (poly: seq<Point>, segs: seq<Segment>)
    requires Euclidean(f.norm) && f.maxSegments == 32
    ensures |poly| == 76 && FittedLoop(f, poly, segs) && |segs| > f.maxSegments
  {
    poly, segs := BudgetIsNoBound(f, 33);
  }

  /** A budget of at most one segment gives at most two. */
  lemma SmallBudget(f: Fit, poly: seq<Point>, segs: seq<Segment>)
    requires |poly| >= 3 && FittedLoop(f, poly, segs) && f.maxSegments <= 1
    ensures |segs| <= 2
  {
    hide Pieces, Emitted, SegmentsOf, InChain, ChainA, ChainB;
    var (o, n, a) := (Opposite(|poly|), |poly|, Emitted(PiecesA(f, poly)));
    ChainLengths(poly);
    NoSplitAtBudget(f, ChainA(poly), 0, o, 0);
    NoSplitAtBudget(f, ChainB(poly), 0, n - o, a);
    EmittedAtMost(PiecesA(f, poly));
    EmittedAtMost(PiecesB(f, poly));
  }
}
