/** Stacked canvas batches for browser cells, their crops, and clipped pasting. */
module CellStack {

  const MAX_CANVAS_DIMENSION_PX := 16384

  datatype CellSpec = CellSpec(codePoint: int, w: nat, h: nat)

  type Picture = seq<seq<real>>

  function TotalHeight(cells: seq<CellSpec>): nat {
    if cells == [] then 0 else TotalHeight(cells[..|cells| - 1]) + cells[|cells| - 1].h
  }

  function Flatten(batches: seq<seq<CellSpec>>): seq<CellSpec> {
    if batches == [] then [] else Flatten(batches[..|batches| - 1]) + batches[|batches| - 1]
  }

  /** A batch is a single cell or fits the canvas. */
  predicate Bounded(batch: seq<CellSpec>) {
    batch != [] && (|batch| == 1 || TotalHeight(batch) <= 16384)
  }

  /** The next cell would not have fitted under the batch. */
  predicate Overflows(batch: seq<CellSpec>, next: seq<CellSpec>) {
    next != [] && TotalHeight(batch) + next[0].h > 16384
  }

  /** Every batch is bounded, and is closed only when its next cell overflows the canvas. */
  ghost predicate WellCut(batches: seq<seq<CellSpec>>) {
    && (forall k | 0 <= k < |batches| :: Bounded(batches[k]))
    && forall k | 0 <= k < |batches| - 1 :: Overflows(batches[k], batches[k + 1])
  }

  lemma FlattenAppend(batches: seq<seq<CellSpec>>, batch: seq<CellSpec>)
    ensures Flatten(batches + [batch]) == Flatten(batches) + batch
  {
    assert (batches + [batch])[..|batches|] == batches;
  }

  lemma TotalAppend(cells: seq<CellSpec>, s: CellSpec)
    ensures TotalHeight(cells + [s]) == TotalHeight(cells) + s.h
  {
    assert (cells + [s])[..|cells|] == cells;
  }

  lemma GrowLast(batches: seq<seq<CellSpec>>, last: seq<CellSpec>, s: CellSpec)
    requires WellCut(batches + [last]) && TotalHeight(last) + s.h <= MAX_CANVAS_DIMENSION_PX
    ensures WellCut(batches + [last + [s]])
  {
    TotalAppend(last, s);
    var (a, b) := (batches + [last], batches + [last + [s]]);
    assert Bounded(a[|batches|]);
    forall k | 0 <= k < |b|
      ensures Bounded(b[k])
    {
      if k < |batches| { assert b[k] == a[k]; }
    }
    forall k | 0 <= k < |b| - 1
      ensures Overflows(b[k], b[k + 1])
    {
      assert Overflows(a[k], a[k + 1]);
    }
  }

  lemma OpenNext(batches: seq<seq<CellSpec>>, s: CellSpec)
    requires WellCut(batches) && (batches != [] ==> Overflows(batches[|batches| - 1], [s]))
    ensures WellCut(batches + [[s]])
  {}

  method Batches(specs: seq<CellSpec>) returns (batches: seq<seq<CellSpec>>)
    ensures Flatten(batches) == specs
    ensures WellCut(batches)
    ensures forall k | 0 <= k < |batches| :: batches[k] != [] && (|batches[k]| == 1 || TotalHeight(batches[k]) <= 16384)
    ensures forall k | 0 <= k < |batches| - 1 :: TotalHeight(batches[k]) + batches[k + 1][0].h > 16384
  {
    hide WellCut, Bounded, Flatten, TotalHeight;
    batches := [];
    var current: seq<CellSpec>, currentH := [], 0;
    ghost var open: seq<seq<CellSpec>> := [];
    NothingCut();
    for i := 0 to |specs|
      invariant Flatten(open) == specs[..i] && WellCut(open)
      invariant open == if current == [] then batches else batches + [current]
      invariant current == [] ==> batches == []
      invariant currentH == TotalHeight(current)
    {
      var s := specs[i];
      ghost var wasOpen := open;
      TotalAppend(current, s);
      if current != [] && currentH + s.h > MAX_CANVAS_DIMENSION_PX {
        batches := batches + [current];
        OpenNext(batches, s);
        FlattenAppend(batches, [s]);
        current, currentH := [], 0;
      } else if current != [] {
        GrowLast(batches, current, s);
        FlattenAppend(batches, current);
        FlattenAppend(batches, current + [s]);
      } else {
        OpenNext(batches, s);
        FlattenAppend(batches, [s]);
      }
      TotalAppend(current, s);
      current := current + [s];
      currentH := currentH + s.h;
      open := batches + [current];
      assert current == [s] ==> open == batches + [[s]];
      assert specs[..i + 1] == specs[..i] + [s];
    }
    assert specs[..|specs|] == specs;
    if current != [] {
      batches := batches + [current];
    }
    CutMeans(batches);
  }

  lemma CutMeans(batches: seq<seq<CellSpec>>)
    requires WellCut(batches)
    ensures forall k | 0 <= k < |batches| :: batches[k] != [] && (|batches[k]| == 1 || TotalHeight(batches[k]) <= 16384)
    ensures forall k | 0 <= k < |batches| - 1 :: TotalHeight(batches[k]) + batches[k + 1][0].h > 16384
  {
    hide TotalHeight;
    assert forall k | 0 <= k < |batches| - 1 :: Overflows(batches[k], batches[k + 1]);
  }

  lemma NothingCut()
    ensures WellCut([]) && Flatten([]) == [] && TotalHeight([]) == 0
  {}

  // ---------------------------------------------------------------- one batch: draw and crop

  /** Top row of cell k's band in the stack of its batch. */
  function BandTop(cells: seq<CellSpec>, k: nat): nat
    requires k <= |cells|
  {
    TotalHeight(cells[..k])
  }

  /** Bands do not overlap: each ends where or before a later one starts. */
  lemma {:induction false} BandsInOrder(cells: seq<CellSpec>, j: nat, k: nat)
    requires j < k <= |cells|
    ensures BandTop(cells, j) + cells[j].h <= BandTop(cells, k)
  {
    assert cells[..k][..k - 1] == cells[..k - 1];
    if j < k - 1 { BandsInOrder(cells, j, k - 1); }
  }

  function MaxWidth(cells: seq<CellSpec>): nat {
    if cells == [] then 0
    else var m := MaxWidth(cells[..|cells| - 1]); if cells[|cells| - 1].w > m then cells[|cells| - 1].w else m
  }

  lemma {:induction false} WidthFits(cells: seq<CellSpec>, k: nat)
    requires k < |cells|
    ensures cells[k].w <= MaxWidth(cells)
  {
    if k < |cells| - 1 { WidthFits(cells[..|cells| - 1], k); }
  }

  lemma {:induction false} WidthIsReached(cells: seq<CellSpec>)
    ensures MaxWidth(cells) == 0 || exists k :: 0 <= k < |cells| && cells[k].w == MaxWidth(cells)
  {
    if cells != [] {
      var n := |cells| - 1;
      WidthIsReached(cells[..n]);
      if MaxWidth(cells) != cells[n].w && MaxWidth(cells) != 0 {
        var k :| 0 <= k < n && cells[..n][k].w == MaxWidth(cells[..n]);
        assert cells[k].w == MaxWidth(cells);
      } else {
        assert MaxWidth(cells) == 0 || cells[n].w == MaxWidth(cells);
      }
    }
  }

  /** The tops sent to the renderer with the cells of a batch. */
  method DrawTops(cells: seq<CellSpec>) returns (tops: seq<nat>)
    ensures |tops| == |cells| && forall k | 0 <= k < |cells| :: tops[k] == BandTop(cells, k)
  {
    tops := [];
    var localY := 0;
    for k := 0 to |cells|
      invariant localY == BandTop(cells, k)
      invariant |tops| == k && forall j | 0 <= j < k :: tops[j] == BandTop(cells, j)
    {
      tops := tops + [localY];
      assert cells[..k + 1][..k] == cells[..k];
      localY := localY + cells[k].h;
    }
  }

  // ---------------------------------------------------------------- drawing a batch

  /** Coverage a glyph lays down, relative to the top left corner of its cell. Nothing clips it:
      it may reach above, below or beside the cell. */
  type InkMap = (int, int) -> real

  /** White ink drawn over what is there. */
  function Over(p: real, i: real): real { p + i * (1.0 - p) }

  /** One pixel of the batch canvas after the first n cells were drawn on black. */
  function Layered(cells: seq<CellSpec>, ink: seq<InkMap>, n: nat, y: int, x: int): real
    requires n <= |cells| == |ink|
  {
    if n == 0 then 0.0
    else Over(Layered(cells, ink, n - 1, y, x), ink[n - 1](y - BandTop(cells, n - 1), x))
  }

  method DrawBatch(cells: seq<CellSpec>, ink: seq<InkMap>) returns (page: array2<real>)
    requires |ink| == |cells|
    ensures page.Length0 == TotalHeight(cells) && page.Length1 == MaxWidth(cells)
    ensures forall y, x | 0 <= y < page.Length0 && 0 <= x < page.Length1 ::
              page[y, x] == Layered(cells, ink, |cells|, y, x)
  {
    var tops := DrawTops(cells);
    page := new real[TotalHeight(cells), MaxWidth(cells)]((y, x) => 0.0);
    for k := 0 to |cells|
      invariant forall y, x | 0 <= y < page.Length0 && 0 <= x < page.Length1 ::
                  page[y, x] == Layered(cells, ink, k, y, x)
    {
      forall y, x | 0 <= y < page.Length0 && 0 <= x < page.Length1 {
        page[y, x] := Over(page[y, x], ink[k](y - tops[k], x));
      }
    }
  }

  // ---------------------------------------------------------------- cropping the bands

  /** The w-by-h window at the given top row; outside the image there is black. */
  ghost predicate ShowsBand(page: array2<real>, p: Picture, top: nat, w: nat, h: nat)
    reads page
  {
    && |p| == h
    && forall r | 0 <= r < h :: |p[r]| == w && forall c | 0 <= c < w ::
         p[r][c] == if top + r < page.Length0 && c < page.Length1 then page[top + r, c] else 0.0
  }

  function PixelAt(page: array2<real>, y: nat, x: nat): real
    reads page
  {
    if y < page.Length0 && x < page.Length1 then page[y, x] else 0.0
  }

  method CropWindow(page: array2<real>, top: nat, w: nat, h: nat) returns (p: Picture)
    ensures ShowsBand(page, p, top, w, h)
  {
    p := [];
    for r := 0 to h
      invariant |p| == r
      invariant forall i | 0 <= i < r :: |p[i]| == w && forall c | 0 <= c < w :: p[i][c] == PixelAt(page, top + i, c)
    {
      p := p + [seq(w, c requires 0 <= c < w reads page => PixelAt(page, top + r, c))];
    }
  }

  /** Every cell is cropped out of exactly the band it was drawn in, whatever image came back; the
      cropper raises when a band starts below the image. */
  method CropBatch(page: array2<real>, cells: seq<CellSpec>) returns (ok: bool, out: seq<Picture>)
    ensures ok <==> forall k | 0 <= k < |cells| :: BandTop(cells, k) <= page.Length0
    ensures ok ==> |out| == |cells|
    ensures ok ==> forall k | 0 <= k < |cells| :: ShowsBand(page, out[k], BandTop(cells, k), cells[k].w, cells[k].h)
  {
    out := [];
    var yCursor := 0;
    for k := 0 to |cells|
      invariant yCursor == BandTop(cells, k)
      invariant |out| == k
      invariant forall j | 0 <= j < k :: BandTop(cells, j) <= page.Length0
      invariant forall j | 0 <= j < k :: ShowsBand(page, out[j], BandTop(cells, j), cells[j].w, cells[j].h)
    {
      assert cells[..k + 1][..k] == cells[..k];
      if yCursor > page.Length0 { return false, out; }
      var p := CropWindow(page, yCursor, cells[k].w, cells[k].h);
      out := out + [p];
      yCursor := yCursor + cells[k].h;
    }
    ok := true;
  }

  // ---------------------------------------------------------------- what a crop shows

  ghost predicate Coverages(ink: seq<InkMap>) {
    forall j, y, x | 0 <= j < |ink| :: 0.0 <= ink[j](y, x) <= 1.0
  }

  /** Ink of cell j on a canvas pixel. */
  function InkOn(cells: seq<CellSpec>, ink: seq<InkMap>, j: nat, y: int, x: int): real
    requires j < |cells| == |ink|
  {
    ink[j](y - BandTop(cells, j), x)
  }

  lemma Gain(a: real, b: real)
    requires a >= 0.0 && b >= 0.0
    ensures a * b >= 0.0 && (a * b == 0.0 <==> a == 0.0 || b == 0.0)
  {
    if a > 0.0 && b > 0.0 { assert a * b > 0.0; }
  }

  lemma OverRearranged(p: real, i: real)
    ensures Over(p, i) == i + p * (1.0 - i) && 1.0 - Over(p, i) == (1.0 - p) * (1.0 - i)
  {}

  lemma OverIsCoverage(p: real, i: real)
    requires 0.0 <= p <= 1.0 && 0.0 <= i <= 1.0
    ensures p <= Over(p, i) <= 1.0 && i <= Over(p, i)
    ensures Over(p, i) == p <==> i == 0.0 || p == 1.0
    ensures Over(p, i) == i <==> p == 0.0 || i == 1.0
  {
    Gain(i, 1.0 - p);
    assert Over(p, i) == p + i * (1.0 - p);
    OverRearranged(p, i);
    Gain(p, 1.0 - i);
    Gain(1.0 - p, 1.0 - i);
    hide Over;
  }

  lemma {:induction false} LayeredIsCoverage(cells: seq<CellSpec>, ink: seq<InkMap>, n: nat, y: int, x: int)
    requires n <= |cells| == |ink| && Coverages(ink)
    ensures 0.0 <= Layered(cells, ink, n, y, x) <= 1.0
    ensures Layered(cells, ink, n, y, x) == 0.0 <==> forall j: nat | j < n :: InkOn(cells, ink, j, y, x) == 0.0
  {
    if n > 0 {
      LayeredIsCoverage(cells, ink, n - 1, y, x);
      OverIsCoverage(Layered(cells, ink, n - 1, y, x), InkOn(cells, ink, n - 1, y, x));
    }
  }

  /** A canvas pixel shows the ink of one cell exactly when that cell covers it fully or no other
      cell of the batch left ink on it. */
  lemma {:induction false} PixelSurvivesExactly(cells: seq<CellSpec>, ink: seq<InkMap>, n: nat, k: nat, y: int, x: int)
    requires k < n <= |cells| == |ink| && Coverages(ink)
    ensures InkOn(cells, ink, k, y, x) <= Layered(cells, ink, n, y, x)
    ensures Layered(cells, ink, n, y, x) == InkOn(cells, ink, k, y, x) <==>
      || InkOn(cells, ink, k, y, x) == 1.0
      || forall j: nat | j < n && j != k :: InkOn(cells, ink, j, y, x) == 0.0
  {
    var below, top := Layered(cells, ink, n - 1, y, x), InkOn(cells, ink, n - 1, y, x);
    LayeredIsCoverage(cells, ink, n - 1, y, x);
    OverIsCoverage(below, top);
    assert 0.0 <= InkOn(cells, ink, k, y, x) <= 1.0;
    if k < n - 1 {
      PixelSurvivesExactly(cells, ink, n - 1, k, y, x);
    }
  }

  /** A glyph leaves no ink above or below its cell. */
  ghost predicate InBand(i: InkMap, h: nat) { forall y, x | y < 0 || y >= h :: i(y, x) == 0.0 }

  lemma OtherBandsMiss(cells: seq<CellSpec>, ink: seq<InkMap>, k: nat, r: nat, x: int, j: nat)
    requires k < |cells| == |ink| && r < cells[k].h && j < |cells| && j != k && InBand(ink[j], cells[j].h)
    ensures InkOn(cells, ink, j, BandTop(cells, k) + r, x) == 0.0
  {
    hide BandTop;
    if j < k { BandsInOrder(cells, j, k); } else { BandsInOrder(cells, k, j); }
  }

  lemma BandInPage(cells: seq<CellSpec>, k: nat, r: nat, c: nat)
    requires k < |cells| && r < cells[k].h && c < cells[k].w
    ensures BandTop(cells, k) + r < TotalHeight(cells) && c < MaxWidth(cells)
  {
    BandsInOrder(cells, k, |cells|);
    assert cells[..|cells|] == cells;
    WidthFits(cells, k);
  }

  /** Stack and crop is the identity: when every glyph stays between the top and bottom of its cell,
      each crop of the drawn batch shows exactly the ink of its own glyph. */
  lemma StackCropIdentity(cells: seq<CellSpec>, ink: seq<InkMap>, page: array2<real>, out: seq<Picture>, k: nat,
                          r: nat, c: nat)
    requires |cells| == |ink| == |out| && Coverages(ink)
    requires forall j | 0 <= j < |cells| :: InBand(ink[j], cells[j].h)
    requires page.Length0 == TotalHeight(cells) && page.Length1 == MaxWidth(cells)
    requires forall y, x | 0 <= y < page.Length0 && 0 <= x < page.Length1 ::
               page[y, x] == Layered(cells, ink, |cells|, y, x)
    requires k < |cells| && r < cells[k].h && c < cells[k].w
    requires ShowsBand(page, out[k], BandTop(cells, k), cells[k].w, cells[k].h)
    ensures out[k][r][c] == ink[k](r, c)
  {
    hide BandTop, TotalHeight, MaxWidth, Layered, InBand, Coverages;
    var y := BandTop(cells, k) + r;
    BandInPage(cells, k, r, c);
    forall j: nat | j < |cells| && j != k
      ensures InkOn(cells, ink, j, y, c) == 0.0
    {
      OtherBandsMiss(cells, ink, k, r, c, j);
    }
    PixelSurvivesExactly(cells, ink, |cells|, k, y, c);
  }

  // ---------------------------------------------------------------- clipped pasting

  function Max(a: int, b: int): int { if a >= b then a else b }

  function Min(a: int, b: int): int { if a <= b then a else b }

  /** Pastes src at (left, top); every pixel of src that falls outside dst is dropped. */
  method PasteClipped(dst: array2<int>, src: array2<int>, left: int, top: int)
    requires dst != src
    modifies dst
    ensures forall y, x | 0 <= y < dst.Length0 && 0 <= x < dst.Length1 ::
              dst[y, x] == if 0 <= y - top < src.Length0 && 0 <= x - left < src.Length1
                           then src[y - top, x - left] else old(dst[y, x])
  {
    var sw, sh, dw, dh := src.Length1, src.Length0, dst.Length1, dst.Length0;
    var x0, y0 := Max(0, left), Max(0, top);
    var sx0, sy0 := x0 - left, y0 - top;
    var x1, y1 := Min(dw, left + sw), Min(dh, top + sh);
    if x1 <= x0 || y1 <= y0 || sx0 >= sw || sy0 >= sh { return; }
    for y := y0 to y1
      invariant forall i, j | 0 <= i < dh && 0 <= j < dw ::
                  dst[i, j] == if y0 <= i < y && x0 <= j < x1 then src[i - y0 + sy0, j - x0 + sx0] else old(dst[i, j])
    {
      for x := x0 to x1
        invariant forall i, j | 0 <= i < dh && 0 <= j < dw ::
                    dst[i, j] == if (y0 <= i < y && x0 <= j < x1) || (i == y && x0 <= j < x)
                                 then src[i - y0 + sy0, j - x0 + sx0] else old(dst[i, j])
      {
        dst[y, x] := src[sy0 + (y - y0), sx0 + (x - x0)];
      }
    }
  }
}
