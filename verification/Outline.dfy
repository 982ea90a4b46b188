/** Points, outline segments and the cell-to-design-space mapping shared by the geometry stages. */
module Outline {

  datatype Point = Point(x: real, y: real)

  datatype Segment = Line(p0: Point, p1: Point) | Cubic(p0: Point, p1: Point, p2: Point, p3: Point)

  function Start(s: Segment): Point { s.p0 }

  function End(s: Segment): Point { if s.Line? then s.p1 else s.p3 }

  function Bernstein(a: real, b: real, c: real, d: real, t: real): real {
    var u := 1.0 - t;
    u * u * u * a + 3.0 * u * u * t * b + 3.0 * u * t * t * c + t * t * t * d
  }

  function Evaluate(s: Segment, t: real): Point {
    match s
    case Line(p0, p1) => Point(p0.x + t * (p1.x - p0.x), p0.y + t * (p1.y - p0.y))
    case Cubic(p0, p1, p2, p3) =>
      Point(Bernstein(p0.x, p1.x, p2.x, p3.x, t), Bernstein(p0.y, p1.y, p2.y, p3.y, t))
  }

  /** Consecutive segments meet end to start. */
  ghost predicate Chained(segs: seq<Segment>) {
    forall i | 0 <= i < |segs| - 1 :: End(segs[i]) == Start(segs[i + 1])
  }

  ghost predicate ClosedChain(segs: seq<Segment>) {
    Chained(segs) && (segs != [] ==> End(segs[|segs| - 1]) == Start(segs[0]))
  }

  lemma EvaluateEnds(s: Segment)
    ensures Evaluate(s, 0.0) == Start(s) && Evaluate(s, 1.0) == End(s)
  {}

  // ---------------------------------------------------------------- pixel <-> design space

  /** Affine map between the pixels of one cell (y down) and UPEM = 1000 design space (y up). */
  datatype CellMapping = CellMapping(
    sizePx: real, padLeft: real, padTop: real, ascent: real, phaseX: real, phaseY: real)
  {
    function UpemPerPx(): real
      requires sizePx != 0.0
    {
      1000.0 / sizePx
    }

    function PxToUpem(p: Point): Point
      requires sizePx != 0.0
    {
      Point((p.x - padLeft - phaseX) * UpemPerPx(), (padTop + ascent + phaseY - p.y) * UpemPerPx())
    }

    function UpemToPx(p: Point): Point {
      Point(p.x * (sizePx / 1000.0) + padLeft + phaseX, padTop + ascent + phaseY - p.y * (sizePx / 1000.0))
    }
  }

  lemma ScalesCancel(size: real)
    requires size != 0.0
    ensures (1000.0 / size) * (size / 1000.0) == 1.0
  {
    assert (1000.0 / size) * size == 1000.0;
  }

  /** The two directions of the mapping cancel. */
  lemma MappingRoundTrip(m: CellMapping, p: Point)
    requires m.sizePx != 0.0
    ensures m.UpemToPx(m.PxToUpem(p)) == p
    ensures m.PxToUpem(m.UpemToPx(p)) == p
  {
    var k, s := m.UpemPerPx(), m.sizePx / 1000.0;
    ScalesCancel(m.sizePx);
    Unscale(p.x - m.padLeft - m.phaseX, k, s);
    Unscale(m.padTop + m.ascent + m.phaseY - p.y, k, s);
    Unscale(p.x, s, k);
    Unscale(p.y, s, k);
  }

  lemma Unscale(a: real, k: real, s: real)
    requires k * s == 1.0
    ensures a * k * s == a
  {
    assert a * k * s == a * (k * s);
  }
}
