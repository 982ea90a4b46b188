/** Merging the base, the half-pixel shifted and the double-size observation of one glyph. */
module AlphaMerge {

  datatype Option<+T> = None | Some(value: T)

  const WEIGHT_BASE := 0.5
  const WEIGHT_SHIFTED := 0.25
  const WEIGHT_DOUBLE := 0.25

  /** Coverage by row and column. */
  type Plane = seq<seq<real>>

  ghost predicate Rectangular(p: Plane) { forall i | 0 <= i < |p| :: |p[i]| == Width(p) }

  function Height(p: Plane): nat { |p| }

  function Width(p: Plane): nat { if p == [] then 0 else |p[0]| }

  /** The shifted observation counts only in the shape of the base. */
  predicate UsesShifted(base: Plane, shifted: Option<Plane>) {
    shifted.Some? && Height(shifted.value) == Height(base) && Width(shifted.value) == Width(base)
  }

  /** The double observation counts only if it covers the base twice in both directions. */
  predicate UsesDouble(base: Plane, double: Option<Plane>) {
    double.Some? && Height(double.value) >= 2 * Height(base) && Width(double.value) >= 2 * Width(base)
  }

  /** A shifted sample averaged with its left neighbour; left of the first column there is nothing. */
  function Aligned(p: Plane, y: nat, x: nat): real
    requires Rectangular(p) && y < Height(p) && x < Width(p)
  {
    0.5 * p[y][x] + 0.5 * if x == 0 then 0.0 else p[y][x - 1]
  }

  /** The mean of the two-by-two block under a base sample. */
  function Down(p: Plane, y: nat, x: nat): real
    requires Rectangular(p) && 2 * y + 1 < Height(p) && 2 * x + 1 < Width(p)
  {
    (p[2 * y][2 * x] + p[2 * y][2 * x + 1] + p[2 * y + 1][2 * x] + p[2 * y + 1][2 * x + 1]) / 4.0
  }

  /** The weighted mean of the observations that count. */
  function Mean(base: real, shifted: Option<real>, double: Option<real>): real {
    ( base * WEIGHT_BASE
      + (if shifted.Some? then shifted.value * WEIGHT_SHIFTED else 0.0)
      + (if double.Some? then double.value * WEIGHT_DOUBLE else 0.0)
    ) / (WEIGHT_BASE + (if shifted.Some? then WEIGHT_SHIFTED else 0.0) + if double.Some? then WEIGHT_DOUBLE else 0.0)
  }

  ghost predicate Readable(base: Plane, shifted: Option<Plane>, double: Option<Plane>) {
    && Rectangular(base) && (shifted.Some? ==> Rectangular(shifted.value))
    && (double.Some? ==> Rectangular(double.value))
  }

  /** The merged sample. */
  function Merged(base: Plane, shifted: Option<Plane>, double: Option<Plane>, y: nat, x: nat): real
    requires Readable(base, shifted, double) && y < Height(base) && x < Width(base)
  {
    Mean(base[y][x], if UsesShifted(base, shifted) then Some(Aligned(shifted.value, y, x)) else None,
         if UsesDouble(base, double) then Some(Down(double.value, y, x)) else None)
  }

  lemma RowsFit(p: Plane)
    requires Rectangular(p)
    ensures forall y | 0 <= y < Height(p) :: |p[y]| == Width(p)
  {}

  method AddShifted(acc: array2<real>, p: Plane)
    requires Rectangular(p) && acc.Length0 == Height(p) && acc.Length1 == Width(p)
    modifies acc
    ensures forall y, x | 0 <= y < acc.Length0 && 0 <= x < acc.Length1 ::
              acc[y, x] == old(acc[y, x]) + Aligned(p, y, x) * WEIGHT_SHIFTED
  {
    hide Aligned;
    forall y, x | 0 <= y < acc.Length0 && 0 <= x < acc.Length1 {
      acc[y, x] := acc[y, x] + Aligned(p, y, x) * WEIGHT_SHIFTED;
    }
  }

  method AddDouble(acc: array2<real>, p: Plane)
    requires Rectangular(p) && 2 * acc.Length0 <= Height(p) && 2 * acc.Length1 <= Width(p)
    modifies acc
    ensures forall y, x | 0 <= y < acc.Length0 && 0 <= x < acc.Length1 ::
              acc[y, x] == old(acc[y, x]) + Down(p, y, x) * WEIGHT_DOUBLE
  {
    hide Down;
    forall y, x | 0 <= y < acc.Length0 && 0 <= x < acc.Length1 {
      acc[y, x] := acc[y, x] + Down(p, y, x) * WEIGHT_DOUBLE;
    }
  }

  method Divide(acc: array2<real>, weight: real)
    requires weight > 0.0
    modifies acc
    ensures forall y, x | 0 <= y < acc.Length0 && 0 <= x < acc.Length1 :: acc[y, x] == old(acc[y, x]) / weight
  {
    forall y, x | 0 <= y < acc.Length0 && 0 <= x < acc.Length1 {
      acc[y, x] := acc[y, x] / weight;
    }
  }

  method MergeAlphaObservations(base: Plane, shifted: Option<Plane>, double: Option<Plane>) returns (acc: array2<real>)
    requires Readable(base, shifted, double)
    ensures acc.Length0 == Height(base) && acc.Length1 == Width(base)
    ensures forall y, x | 0 <= y < acc.Length0 && 0 <= x < acc.Length1 ::
              acc[y, x] == Merged(base, shifted, double, y, x)
  {
    hide Aligned, Down, Rectangular;
    var h, w := Height(base), Width(base);
    RowsFit(base);
    acc := new real[h, w]((y, x) requires 0 <= y < h && 0 <= x < w => base[y][x] * WEIGHT_BASE);
    var weight := WEIGHT_BASE;
    if shifted.Some? && Height(shifted.value) == h && Width(shifted.value) == w {
      AddShifted(acc, shifted.value);
      weight := weight + WEIGHT_SHIFTED;
    }
    if double.Some? && Height(double.value) >= 2 * h && Width(double.value) >= 2 * w {
      AddDouble(acc, double.value);
      weight := weight + WEIGHT_DOUBLE;
    }
    Divide(acc, weight);
  }

  ghost predicate Within(p: Plane, lo: real, hi: real) {
    forall y, x | 0 <= y < |p| && 0 <= x < |p[y]| :: lo <= p[y][x] <= hi
  }

  ghost predicate AllWithin(base: Plane, shifted: Option<Plane>, double: Option<Plane>, lo: real, hi: real) {
    && Within(base, lo, hi) && (shifted.Some? ==> Within(shifted.value, lo, hi))
    && (double.Some? ==> Within(double.value, lo, hi))
  }

  lemma AlignedWithin(p: Plane, y: nat, x: nat, lo: real, hi: real)
    requires Rectangular(p) && y < Height(p) && x < Width(p) && Within(p, lo, hi)
    ensures lo <= 0.0 <= hi || x > 0 ==> lo <= Aligned(p, y, x) <= hi
  {
    assert lo <= p[y][x] <= hi;
  }

  lemma DownWithin(p: Plane, y: nat, x: nat, lo: real, hi: real)
    requires Rectangular(p) && 2 * y + 1 < Height(p) && 2 * x + 1 < Width(p) && Within(p, lo, hi)
    ensures lo <= Down(p, y, x) <= hi
  {
    assert lo <= p[2 * y][2 * x] <= hi && lo <= p[2 * y][2 * x + 1] <= hi;
    assert lo <= p[2 * y + 1][2 * x] <= hi && lo <= p[2 * y + 1][2 * x + 1] <= hi;
  }

  lemma DivideByOne(a: real, w: real)
    requires w == 1.0
    ensures a / w == a
  {}

  lemma MeanIsBetween(base: real, shifted: Option<real>, double: Option<real>, lo: real, hi: real)
    requires lo <= base <= hi && (shifted.Some? ==> lo <= shifted.value <= hi)
    requires double.Some? ==> lo <= double.value <= hi
    ensures lo <= Mean(base, shifted, double) <= hi
  {
    match (shifted, double)
    case (None, None) =>
    case (Some(s), None) =>
    case (None, Some(d)) =>
    case (Some(s), Some(d)) =>
      DivideByOne(base * WEIGHT_BASE + s * WEIGHT_SHIFTED + d * WEIGHT_DOUBLE,
        WEIGHT_BASE + WEIGHT_SHIFTED + WEIGHT_DOUBLE);
  }

  /** Merging averages: samples between lo and hi merge to one between them, away from the first
      column always and in it when nothing (zero) lies between them too. */
  lemma MergedIsBetween(base: Plane, shifted: Option<Plane>, double: Option<Plane>, y: nat, x: nat, lo: real, hi: real)
    requires Readable(base, shifted, double) && y < Height(base) && x < Width(base)
    requires AllWithin(base, shifted, double, lo, hi) && (lo <= 0.0 <= hi || x > 0)
    ensures lo <= Merged(base, shifted, double, y, x) <= hi
  {
    hide Aligned, Down, Mean;
    assert lo <= base[y][x] <= hi;
    if UsesShifted(base, shifted) { AlignedWithin(shifted.value, y, x, lo, hi); }
    if UsesDouble(base, double) { DownWithin(double.value, y, x, lo, hi); }
    MeanIsBetween(base[y][x], if UsesShifted(base, shifted) then Some(Aligned(shifted.value, y, x)) else None,
                  if UsesDouble(base, double) then Some(Down(double.value, y, x)) else None, lo, hi);
  }

  /** The merged sample without division: the base, the shifted sample with its left neighbour, and
      the two-by-two block of the double observation, weighted half, a quarter and a quarter. */
  lemma MergedWeighs(base: Plane, shifted: Option<Plane>, double: Option<Plane>, y: nat, x: nat)
    requires Readable(base, shifted, double) && y < Height(base) && x < Width(base)
    ensures var (m, b) := (Merged(base, shifted, double, y, x), base[y][x]);
      var s := if UsesShifted(base, shifted)
               then shifted.value[y][x] + if x > 0 then shifted.value[y][x - 1] else 0.0 else 0.0;
      var d := if UsesDouble(base, double)
               then double.value[2 * y][2 * x] + double.value[2 * y][2 * x + 1]
                    + double.value[2 * y + 1][2 * x] + double.value[2 * y + 1][2 * x + 1] else 0.0;
      && (UsesShifted(base, shifted) && UsesDouble(base, double) ==> 16.0 * m == 8.0 * b + 2.0 * s + d)
      && (UsesShifted(base, shifted) && !UsesDouble(base, double) ==> 6.0 * m == 4.0 * b + s)
      && (!UsesShifted(base, shifted) && UsesDouble(base, double) ==> 12.0 * m == 8.0 * b + d)
      && (!UsesShifted(base, shifted) && !UsesDouble(base, double) ==> m == b)
  {}

  lemma MeanWithLostHalf(c: real, double: Option<real>)
    requires double.Some? ==> double.value == c
    ensures Mean(c, Some(0.5 * c), double) == if double.Some? then 7.0 * c / 8.0 else 5.0 * c / 6.0
  {}

  /** A uniform glyph keeps its coverage, except in the first column under a shifted observation:
      there the missing neighbour costs a sixth of it, or an eighth when a double one counts too. */
  lemma UniformSurvivesExactly(base: Plane, shifted: Option<Plane>, double: Option<Plane>, y: nat, x: nat, c: real)
    requires Readable(base, shifted, double) && y < Height(base) && x < Width(base)
    requires AllWithin(base, shifted, double, c, c)
    ensures Merged(base, shifted, double, y, x) == c <==> x > 0 || c == 0.0 || !UsesShifted(base, shifted)
  {
    hide Down, Mean;
    assert base[y][x] == c;
    var d := if UsesDouble(base, double) then Some(Down(double.value, y, x)) else None;
    if UsesDouble(base, double) { DownWithin(double.value, y, x, c, c); }
    if x > 0 || c == 0.0 {
      MergedIsBetween(base, shifted, double, y, x, c, c);
    } else if UsesShifted(base, shifted) {
      assert shifted.value[y][0] == c;
      MeanWithLostHalf(c, d);
    } else {
      MeanIsBetween(c, None, d, c, c);
    }
  }

  /** An observation of the wrong size changes nothing. */
  lemma MisfitIsAbsent(base: Plane, shifted: Option<Plane>, double: Option<Plane>, y: nat, x: nat)
    requires Readable(base, shifted, double) && y < Height(base) && x < Width(base)
    ensures !UsesShifted(base, shifted) ==> Merged(base, shifted, double, y, x) == Merged(base, None, double, y, x)
    ensures !UsesDouble(base, double) ==> Merged(base, shifted, double, y, x) == Merged(base, shifted, None, y, x)
    ensures !UsesShifted(base, shifted) && !UsesDouble(base, double)
            ==> Merged(base, shifted, double, y, x) == base[y][x]
  {}
}
