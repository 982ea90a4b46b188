/** Bounded optimizer that nudges the inner control points of one glyph's cubics in place. */
module LocalOptimizer {
  import opened Outline

  const MAX_ITERATIONS := 24
  const STEP_PX := 0.75

  /** An outline segment as the optimizer sees it: four updatable points and its kind. */
  class Node {
    const isLine: bool
    var p0: Point
    var p1: Point
    var p2: Point
    var p3: Point

    constructor (isLine: bool, p0: Point, p1: Point, p2: Point, p3: Point)
      ensures this.isLine == isLine && this.p0 == p0 && this.p1 == p1 && this.p2 == p2 && this.p3 == p3
    {
      this.isLine, this.p0, this.p1, this.p2, this.p3 := isLine, p0, p1, p2, p3;
    }
  }

  /** The distance field of the glyph with its gradient, and the Euclidean norm. */
  datatype Field = Field(
    w: int, h: int, sdf: (int, int) -> real, gx: (int, int) -> real, gy: (int, int) -> real,
    hypot: (real, real) -> real)

  function Abs(v: real): real { if v < 0.0 then -v else v }

  /** The norm is at least as long as either component. */
  ghost predicate Norm(f: Field) {
    forall a, b :: f.hypot(a, b) >= Abs(a) && f.hypot(a, b) >= Abs(b)
  }

  /** Rounding to the nearest integer, ties to even. */
  function Round(v: real): int {
    var n := v.Floor;
    var frac := v - n as real;
    if frac < 0.5 then n else if frac > 0.5 then n + 1 else if n % 2 == 0 then n else n + 1
  }

  function Index(v: real, size: int): int {
    var i := if Round(v) < 0 then 0 else Round(v);
    if i > size - 1 then size - 1 else i
  }

  /** One nudge in pixels; a point that stays is returned unchanged. */
  function NudgePx(f: Field, p: Point): Point {
    if !(0.0 <= p.x < f.w as real && 0.0 <= p.y < f.h as real) then p else
    var (xi, yi) := (Index(p.x, f.w), Index(p.y, f.h));
    var v := f.sdf(yi, xi);
    if Abs(v) < 0.35 then p else
    var (gx, gy) := (f.gx(yi, xi), f.gy(yi, xi));
    var norm := f.hypot(gx, gy);
    if norm < 0.000001 then p else
    Point(p.x + Step(v, gx, norm), p.y + Step(v, gy, norm))
  }

  /** Signed step along one axis, against the gradient inside the ink and along it outside. */
  function Step(v: real, g: real, norm: real): real
    requires norm != 0.0
  {
    var direction := if v > 0.0 then 1.0 else -1.0;
    -direction * g / norm * STEP_PX
  }

  predicate Moves(f: Field, p: Point) {
    && 0.0 <= p.x < f.w as real && 0.0 <= p.y < f.h as real
    && var (xi, yi) := (Index(p.x, f.w), Index(p.y, f.h));
       Abs(f.sdf(yi, xi)) >= 0.35 && f.hypot(f.gx(yi, xi), f.gy(yi, xi)) >= 0.000001
  }

  function Nudge(f: Field, m: CellMapping, p: Point): Point
    requires m.sizePx != 0.0
  {
    if Moves(f, m.UpemToPx(p)) then m.PxToUpem(NudgePx(f, m.UpemToPx(p))) else p
  }

  function NudgeTimes(f: Field, m: CellMapping, p: Point, n: nat): Point
    requires m.sizePx != 0.0
  {
    if n == 0 then p else Nudge(f, m, NudgeTimes(f, m, p, n - 1))
  }

  // ---------------------------------------------------------------- direction

  lemma StepScales(v: real, g: real, norm: real)
    requires norm != 0.0
    ensures Step(v, g, norm) * norm == if v > 0.0 then -0.75 * g else 0.75 * g
  {
    var direction := if v > 0.0 then 1.0 else -1.0;
    var n := -direction * g;
    assert (n / norm) * norm == n;
    assert Step(v, g, norm) == (n / norm) * 0.75;
    assert ((n / norm) * 0.75) * norm == ((n / norm) * norm) * 0.75;
  }

  lemma Opposes(s: real, g: real, norm: real, v: real)
    requires norm > 0.0 && s * norm == if v > 0.0 then -0.75 * g else 0.75 * g
    ensures v > 0.0 ==> s * g <= 0.0 && (g != 0.0 ==> s * g < 0.0)
    ensures v <= 0.0 ==> s * g >= 0.0 && (g != 0.0 ==> s * g > 0.0)
  {
    var w := s * g;
    assert w * norm == (s * norm) * g;
    assert g != 0.0 ==> g * g > 0.0;
    assert (0.75 * g) * g == 0.75 * (g * g) && (-0.75 * g) * g == -(0.75 * (g * g));
    Sign(w, norm);
  }

  lemma Sign(w: real, norm: real)
    requires norm > 0.0
    ensures (w * norm > 0.0 <==> w > 0.0) && (w * norm < 0.0 <==> w < 0.0)
  {}

  lemma NudgeSteps(f: Field, p: Point)
    requires Moves(f, p)
    ensures var (x, y) := (Index(p.x, f.w), Index(p.y, f.h));
      var (v, gx, gy, d) := (f.sdf(y, x), f.gx(y, x), f.gy(y, x), NudgePx(f, p));
      f.hypot(gx, gy) > 0.0
      && d.x - p.x == Step(v, gx, f.hypot(gx, gy)) && d.y - p.y == Step(v, gy, f.hypot(gx, gy))
  {
    hide Step, Index;
  }

  /** A nudge follows the gradient of the field at the pixel nearest to the point: against it where
      the field is positive, along it elsewhere, by 0.75 px times its share of the norm. */
  lemma NudgeFollowsGradient(f: Field, p: Point)
    requires Moves(f, p)
    ensures var (x, y) := (Index(p.x, f.w), Index(p.y, f.h));
      var (v, gx, gy, d) := (f.sdf(y, x), f.gx(y, x), f.gy(y, x), NudgePx(f, p));
      && (d.x - p.x) * f.hypot(gx, gy) == (if v > 0.0 then -0.75 * gx else 0.75 * gx)
      && (d.y - p.y) * f.hypot(gx, gy) == (if v > 0.0 then -0.75 * gy else 0.75 * gy)
      && (gx != 0.0 ==> if v > 0.0 then (d.x - p.x) * gx < 0.0 else (d.x - p.x) * gx > 0.0)
      && (gy != 0.0 ==> if v > 0.0 then (d.y - p.y) * gy < 0.0 else (d.y - p.y) * gy > 0.0)
  {
    var (x, y) := (Index(p.x, f.w), Index(p.y, f.h));
    var (v, gx, gy, d) := (f.sdf(y, x), f.gx(y, x), f.gy(y, x), NudgePx(f, p));
    var norm := f.hypot(gx, gy);
    hide Step;
    NudgeSteps(f, p);
    assert norm > 0.0;
    hide NudgePx, Index, Moves;
    StepScales(v, gx, norm);
    StepScales(v, gy, norm);
    Opposes(d.x - p.x, gx, norm, v);
    Opposes(d.y - p.y, gy, norm, v);
  }

  /** The pixel nearest to a coordinate on the plane, the even one of two; at the last half pixel the
      plane ends. */
  lemma IndexIsNearest(v: real, size: int)
    requires 0.0 <= v < size as real
    ensures 0 <= Index(v, size) < size
    ensures v <= size as real - 0.5 ==> -0.5 <= v - Index(v, size) as real <= 0.5
    ensures v <= size as real - 0.5 && (v - Index(v, size) as real == 0.5 || v - Index(v, size) as real == -0.5)
            ==> Index(v, size) % 2 == 0 || Index(v, size) == size - 1
    ensures v > size as real - 0.5 ==> Index(v, size) == size - 1
  {}

  // ---------------------------------------------------------------- displacement

  lemma UnitBound(g: real, norm: real)
    requires norm > 0.0 && norm >= Abs(g)
    ensures -1.0 <= g / norm <= 1.0
  {
    Quotient(g, norm);
    Quotient(-g, norm);
    assert -g / norm == -(g / norm);
  }

  lemma Quotient(g: real, norm: real)
    requires norm > 0.0 && g <= norm
    ensures g / norm <= 1.0
  {
    assert g / norm <= norm / norm;
  }

  /** One nudge moves a point by at most one step per axis. */
  lemma NudgeIsBounded(f: Field, p: Point)
    requires Norm(f)
    ensures Abs(NudgePx(f, p).x - p.x) <= STEP_PX && Abs(NudgePx(f, p).y - p.y) <= STEP_PX
  {
    hide Step;
    if Moves(f, p) {
      var (xi, yi) := (Index(p.x, f.w), Index(p.y, f.h));
      var (gx, gy) := (f.gx(yi, xi), f.gy(yi, xi));
      StepIsBounded(f.sdf(yi, xi), gx, f.hypot(gx, gy));
      StepIsBounded(f.sdf(yi, xi), gy, f.hypot(gx, gy));
    }
  }

  lemma StepIsBounded(v: real, g: real, norm: real)
    requires norm > 0.0 && norm >= Abs(g)
    ensures Abs(Step(v, g, norm)) <= STEP_PX
  {
    var direction := if v > 0.0 then 1.0 else -1.0;
    assert -direction * g == g || -direction * g == -g;
    UnitBound(-direction * g, norm);
  }

  /** n nudges move a control point by at most n steps per axis, measured in pixels. */
  lemma {:induction false} NudgesAreBounded(f: Field, m: CellMapping, p: Point, n: nat)
    requires Norm(f) && m.sizePx != 0.0
    ensures var (a, b) := (m.UpemToPx(p), m.UpemToPx(NudgeTimes(f, m, p, n)));
            Abs(b.x - a.x) <= n as real * STEP_PX && Abs(b.y - a.y) <= n as real * STEP_PX
  {
    hide CellMapping.PxToUpem, CellMapping.UpemToPx, NudgePx;
    if n > 0 {
      NudgesAreBounded(f, m, p, n - 1);
      var q := NudgeTimes(f, m, p, n - 1);
      NudgeIsBounded(f, m.UpemToPx(q));
      MappingRoundTrip(m, NudgePx(f, m.UpemToPx(q)));
    }
  }

  /** Over a whole optimization no control point moves more than 18 px on either axis. */
  lemma WholeRunIsBounded(f: Field, m: CellMapping, p: Point)
    requires Norm(f) && m.sizePx != 0.0
    ensures var (a, b) := (m.UpemToPx(p), m.UpemToPx(NudgeTimes(f, m, p, MAX_ITERATIONS)));
            Abs(b.x - a.x) <= 18.0 && Abs(b.y - a.y) <= 18.0
  {
    NudgesAreBounded(f, m, p, MAX_ITERATIONS);
  }

  lemma {:induction false} FixpointStays(f: Field, m: CellMapping, p: Point, k: nat, n: nat)
    requires m.sizePx != 0.0 && k <= n
    requires Nudge(f, m, NudgeTimes(f, m, p, k)) == NudgeTimes(f, m, p, k)
    ensures NudgeTimes(f, m, p, n) == NudgeTimes(f, m, p, k)
    decreases n
  {
    hide Nudge;
    if k < n { FixpointStays(f, m, p, k, n - 1); }
  }

  // ---------------------------------------------------------------- the optimizer

  ghost predicate AllDifferent(nodes: seq<Node>) {
    forall i, j | 0 <= i < j < |nodes| :: nodes[i] != nodes[j]
  }

  /** The state of a node after n passes: a line untouched, a cubic nudged n times. */
  ghost predicate After(f: Field, m: CellMapping, node: Node, was: (Point, Point, Point, Point), n: nat)
    reads node
    requires m.sizePx != 0.0
  {
    && node.p0 == was.0 && node.p3 == was.3
    && node.p1 == (if node.isLine then was.1 else NudgeTimes(f, m, was.1, n))
    && node.p2 == (if node.isLine then was.2 else NudgeTimes(f, m, was.2, n))
  }

  ghost function Snapshot(nodes: seq<Node>): (s: seq<(Point, Point, Point, Point)>)
    reads nodes
    ensures |s| == |nodes|
    ensures forall i | 0 <= i < |nodes| :: s[i] == (nodes[i].p0, nodes[i].p1, nodes[i].p2, nodes[i].p3)
  {
    seq(|nodes|, i requires 0 <= i < |nodes| reads nodes => (nodes[i].p0, nodes[i].p1, nodes[i].p2, nodes[i].p3))
  }

  ghost predicate AllAfter(f: Field, m: CellMapping, nodes: seq<Node>, was: seq<(Point, Point, Point, Point)>, n: nat)
    reads nodes
    requires m.sizePx != 0.0 && |was| == |nodes|
  {
    forall i | 0 <= i < |nodes| :: After(f, m, nodes[i], was[i], n)
  }

  ghost predicate Settled(f: Field, m: CellMapping, node: Node)
    reads node
    requires m.sizePx != 0.0
  {
    node.isLine || (Nudge(f, m, node.p1) == node.p1 && Nudge(f, m, node.p2) == node.p2)
  }

  /** One pass over one segment. */
  method NudgeNode(f: Field, m: CellMapping, node: Node) returns (moved: bool)
    requires m.sizePx != 0.0
    modifies node`p1, node`p2
    ensures node.p1 == if node.isLine then old(node.p1) else Nudge(f, m, old(node.p1))
    ensures node.p2 == if node.isLine then old(node.p2) else Nudge(f, m, old(node.p2))
    ensures moved <==> !node.isLine && (Moves(f, m.UpemToPx(old(node.p1))) || Moves(f, m.UpemToPx(old(node.p2))))
    ensures !moved ==> Settled(f, m, node)
  {
    hide NudgePx;
    moved := false;
    if node.isLine { return; }
    var q := m.UpemToPx(node.p1);
    if Moves(f, q) {
      node.p1 := m.PxToUpem(NudgePx(f, q));
      moved := true;
    }
    q := m.UpemToPx(node.p2);
    if Moves(f, q) {
      node.p2 := m.PxToUpem(NudgePx(f, q));
      moved := true;
    }
  }

  method OnePass(f: Field, m: CellMapping, nodes: seq<Node>, ghost was: seq<(Point, Point, Point, Point)>, ghost n: nat)
    returns (moved: bool)
    requires m.sizePx != 0.0 && AllDifferent(nodes) && |was| == |nodes| && AllAfter(f, m, nodes, was, n)
    modifies nodes
    ensures AllAfter(f, m, nodes, was, n + 1)
    ensures !moved ==> forall i | 0 <= i < |nodes| :: Settled(f, m, nodes[i])
  {
    hide Nudge;
    moved := false;
    for i := 0 to |nodes|
      invariant forall j | 0 <= j < |nodes| :: After(f, m, nodes[j], was[j], if j < i then n + 1 else n)
      invariant !moved ==> forall j | 0 <= j < i :: Settled(f, m, nodes[j])
    {
      var hit := NudgeNode(f, m, nodes[i]);
      moved := moved || hit;
    }
  }

  /** At most 24 passes. End points keep their place and every inner control point of a cubic
      ends where 24 nudges put it, also when the passes stop early. */
  method BoundedLocalOptimizer(f: Field, m: CellMapping, nodes: seq<Node>)
    requires m.sizePx != 0.0 && AllDifferent(nodes)
    modifies nodes
    ensures AllAfter(f, m, nodes, old(Snapshot(nodes)), MAX_ITERATIONS)
  {
    hide Nudge;
    ghost var was := Snapshot(nodes);
    for n := 0 to MAX_ITERATIONS
      invariant AllAfter(f, m, nodes, was, n)
    {
      var moved := OnePass(f, m, nodes, was, n);
      if !moved {
        forall i | 0 <= i < |nodes|
          ensures After(f, m, nodes[i], was[i], MAX_ITERATIONS)
        {
          assert After(f, m, nodes[i], was[i], n + 1) && Settled(f, m, nodes[i]);
          if !nodes[i].isLine {
            FixpointStays(f, m, was[i].1, n + 1, MAX_ITERATIONS);
            FixpointStays(f, m, was[i].2, n + 1, MAX_ITERATIONS);
          }
        }
        return;
      }
    }
  }
}
