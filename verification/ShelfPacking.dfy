/** Bounded atlas page planning: greedy shelf packing of glyph cells. */
module ShelfPacking {
  import opened Sorting

  const CELL_PAD_X_PX := 128
  const CELL_PAD_Y_PX := 128
  const MAX_CANVAS_DIMENSION_PX := 16384

  datatype Result<+T> = Ok(value: T) | Err(error: string)

  datatype PlanInput = PlanInput(
    codePoint: int, w: int, h: int, sizePx: int, phaseX: real, phaseY: real, extraLeft: real)

  datatype PlacedCell = PlacedCell(
    codePoint: int, pageIndex: int, x: int, y: int, w: int, h: int,
    sizePx: int, phaseX: real, phaseY: real, penLeft: int)

  datatype AtlasPage = AtlasPage(index: int, width: int, height: int, cells: seq<PlacedCell>)

  function Max(a: int, b: int): int { if a >= b then a else b }

  function RealMax(a: real, b: real): real { if a >= b then a else b }

  function PenLeft(extraLeft: real): int {
    (128.0 + RealMax(0.0, extraLeft) + 0.5).Floor
  }

  /** Cell size of one glyph; an oversized cell or a non-positive em is refused. */
  function CellDimensions(advance: real, ascent: real, descent: real, sizePx: int, extraLeft: real)
    : (r: Result<(int, int)>)
    ensures r.Ok? ==> 1 <= r.value.0 <= 16384 && 1 <= r.value.1 <= 16384
    ensures sizePx <= 0 ==> r == Err("ATLAS_CELL_SIZE_INVALID")
    ensures sizePx > 0 && r.Err? ==> r == Err("ATLAS_CELL_EXCEEDS_CANVAS_CAP")
    ensures r.Err? <==> sizePx <= 0 || RealMax(1.0, advance) + RealMax(0.0, extraLeft) >= 16128.0001
                        || RealMax(sizePx as real, ascent + descent) >= 16128.0001
    ensures r.Ok? ==> r.value.1 >= sizePx + 2 * CELL_PAD_Y_PX
    ensures r.Ok? ==> -0.0001 < r.value.1 as real - RealMax(sizePx as real, ascent + descent) - 256.0 < 1.0
    ensures r.Ok? ==> -0.0001 < r.value.0 as real - RealMax(1.0, advance) - RealMax(0.0, extraLeft) - 256.0 < 1.0
    ensures r.Ok? ==> r.value.0 as real - PenLeft(extraLeft) as real - RealMax(1.0, advance) > 128.0 - 0.5001
    ensures r.Ok? ==> PenLeft(extraLeft) < r.value.0
  {
    if sizePx <= 0 then Err("ATLAS_CELL_SIZE_INVALID") else
    var w := (RealMax(1.0, advance) + RealMax(0.0, extraLeft) + 256.0 + 0.9999).Floor;
    var h := (RealMax(sizePx as real, ascent + descent) + 256.0 + 0.9999).Floor;
    if w > MAX_CANVAS_DIMENSION_PX || h > MAX_CANVAS_DIMENSION_PX
    then Err("ATLAS_CELL_EXCEEDS_CANVAS_CAP") else Ok((w, h))
  }

  // ---------------------------------------------------------------- the plan as a fold

  /** Cursor of the packer: closed pages, cells of the open page, and the open shelf. */
  datatype Shelf = Shelf(
    pages: seq<AtlasPage>, cells: seq<PlacedCell>, x: int, y: int, h: int, pageW: int)

  const EMPTY_SHELF := Shelf([], [], 0, 0, 0, 0)

  function CellAt(item: PlanInput, page: int, x: int, y: int, penLeft: int): PlacedCell {
    PlacedCell(item.codePoint, page, x, y, item.w, item.h, item.sizePx, item.phaseX, item.phaseY, penLeft)
  }

  function ClosePage(s: Shelf): Shelf {
    if s.cells == [] then s
    else Shelf(s.pages + [AtlasPage(|s.pages|, s.pageW, s.y + s.h, s.cells)], [], 0, 0, 0, 0)
  }

  predicate Fits(w: int, h: int, maxBytes: int) {
    w <= MAX_CANVAS_DIMENSION_PX && h <= MAX_CANVAS_DIMENSION_PX && w * h <= maxBytes
  }

  function OpenPage(s: Shelf, item: PlanInput): Shelf {
    Shelf(s.pages, [CellAt(item, |s.pages|, 0, 0, PenLeft(item.extraLeft))], item.w, 0, item.h, item.w)
  }

  function OnShelf(s: Shelf, item: PlanInput): Shelf {
    s.(cells := s.cells + [CellAt(item, |s.pages|, s.x, s.y, PenLeft(item.extraLeft))],
       x := s.x + item.w, h := Max(s.h, item.h), pageW := Max(s.pageW, s.x + item.w))
  }

  /** A new shelf under the open one. Its cell keeps the default pen offset. */
  function NewShelf(s: Shelf, item: PlanInput): Shelf {
    Shelf(s.pages, s.cells + [CellAt(item, |s.pages|, 0, s.y + s.h, CELL_PAD_X_PX)],
          item.w, s.y + s.h, item.h, Max(s.pageW, item.w))
  }

  predicate FitsShelf(s: Shelf, item: PlanInput, maxBytes: int) {
    Fits(Max(s.pageW, s.x + item.w), s.y + Max(s.h, item.h), maxBytes)
  }

  predicate FitsBelow(s: Shelf, item: PlanInput, target: int, maxBytes: int) {
    Fits(Max(s.pageW, item.w), s.y + s.h + item.h, maxBytes) && (s.y + s.h) * Max(s.pageW, item.w) <= target
  }

  function Place(s: Shelf, item: PlanInput, target: int, maxBytes: int): Shelf {
    if s.cells == [] then OpenPage(s, item)
    else if FitsShelf(s, item, maxBytes) then OnShelf(s, item)
    else if FitsBelow(s, item, target, maxBytes) then NewShelf(s, item)
    else OpenPage(ClosePage(s), item)
  }

  function PlaceAll(items: seq<PlanInput>, target: int, maxBytes: int): Shelf {
    if items == [] then EMPTY_SHELF
    else Place(PlaceAll(items[..|items| - 1], target, maxBytes), items[|items| - 1], target, maxBytes)
  }

  /** Taller cells first; code points break ties. */
  predicate Before(a: PlanInput, b: PlanInput) {
    a.h > b.h || (a.h == b.h && a.codePoint <= b.codePoint)
  }

  function Ordered(inputs: seq<PlanInput>): seq<PlanInput> { Sort(inputs, Before) }

  predicate BudgetValid(target: int, maxBytes: int) { 0 < target <= maxBytes }

  predicate CellsWithinBudget(inputs: seq<PlanInput>, maxBytes: int) {
    forall i | 0 <= i < |inputs| :: inputs[i].w * inputs[i].h <= maxBytes
  }

  function Plan(inputs: seq<PlanInput>, target: int, maxBytes: int): Result<seq<AtlasPage>> {
    if !BudgetValid(target, maxBytes) then Err("ATLAS_PAGE_BUDGET_INVALID")
    else if !CellsWithinBudget(Ordered(inputs), maxBytes) then Err("ATLAS_PAGE_BUDGET_EXCEEDED")
    else Ok(ClosePage(PlaceAll(Ordered(inputs), target, maxBytes)).pages)
  }

  /** The planner's cursors, advanced in place. */
  class Packer {
    var pages: seq<AtlasPage>
    var current: seq<PlacedCell>
    var shelfX: int
    var shelfY: int
    var shelfH: int
    var pageW: int

    constructor ()
      ensures State() == EMPTY_SHELF
    {
      pages, current := [], [];
      shelfX, shelfY, shelfH, pageW := 0, 0, 0, 0;
    }

    ghost function State(): Shelf
      reads this
    {
      Shelf(pages, current, shelfX, shelfY, shelfH, pageW)
    }

    method Close()
      modifies this
      ensures State() == ClosePage(old(State()))
    {
      if current == [] { return; }
      pages := pages + [AtlasPage(|pages|, pageW, shelfY + shelfH, current)];
      current := [];
      shelfX, shelfY, shelfH, pageW := 0, 0, 0, 0;
    }

    method Add(item: PlanInput, target: int, maxBytes: int)
      requires current == [] ==> shelfY == 0
      modifies this
      ensures State() == Place(old(State()), item, target, maxBytes)
    {
      var w, h := item.w, item.h;
      var placed := false;
      if current != [] {
        var candW := Max(pageW, shelfX + w);
        var candH := shelfY + Max(shelfH, h);
        if Fits(candW, candH, maxBytes) {
          current := current + [CellAt(item, |pages|, shelfX, shelfY, PenLeft(item.extraLeft))];
          shelfX := shelfX + w;
          shelfH := Max(shelfH, h);
          pageW := Max(pageW, shelfX);
          placed := true;
        } else {
          candW := Max(pageW, w);
          candH := shelfY + shelfH + h;
          if Fits(candW, candH, maxBytes) && (shelfY + shelfH) * candW <= target {
            shelfY := shelfY + shelfH;
            shelfX := w;
            shelfH := h;
            pageW := Max(pageW, shelfX);
            current := current + [CellAt(item, |pages|, 0, shelfY, CELL_PAD_X_PX)];
            placed := true;
          }
        }
      } else {
        current := current + [CellAt(item, |pages|, 0, 0, PenLeft(item.extraLeft))];
        shelfX, shelfH, pageW := w, h, w;
        placed := true;
      }
      if !placed {
        Close();
        current := current + [CellAt(item, |pages|, 0, 0, PenLeft(item.extraLeft))];
        shelfX, shelfH, pageW := w, h, w;
      }
    }
  }

  method PlanAtlasPages(inputs: seq<PlanInput>, target: int, maxBytes: int)
    returns (r: Result<seq<AtlasPage>>)
    ensures r == Plan(inputs, target, maxBytes)
  {
    hide Place, PlaceAll, ClosePage, PagesWithinBudget;
    if target <= 0 || maxBytes <= 0 || target > maxBytes {
      return Err("ATLAS_PAGE_BUDGET_INVALID");
    }
    var ordered := Sort(inputs, Before);
    var packer := new Packer();
    assert ordered[..0] == [];
    NoItems(target, maxBytes);
    for i := 0 to |ordered|
      invariant packer.State() == PlaceAll(ordered[..i], target, maxBytes)
      invariant CellsWithinBudget(ordered[..i], maxBytes)
    {
      PlaceNext(ordered, target, maxBytes, i);
      if ordered[i].w * ordered[i].h > maxBytes {
        return Err("ATLAS_PAGE_BUDGET_EXCEEDED");
      }
      EmptyPageHasNoShelf(ordered[..i], target, maxBytes);
      packer.Add(ordered[i], target, maxBytes);
    }
    assert ordered[..|ordered|] == ordered;
    packer.Close();
    PlanWithinBudget(ordered, target, maxBytes);
    // The defensive post-condition of the planner; it never fires.
    for i := 0 to |packer.pages|
    {
      if packer.pages[i].width * packer.pages[i].height > maxBytes {
        assert false;
      }
    }
    return Ok(packer.pages);
  }

  lemma PlaceNext(items: seq<PlanInput>, target: int, maxBytes: int, i: nat)
    requires i < |items|
    ensures PlaceAll(items[..i + 1], target, maxBytes)
         == Place(PlaceAll(items[..i], target, maxBytes), items[i], target, maxBytes)
    ensures CellsWithinBudget(items[..i + 1], maxBytes)
       <==> CellsWithinBudget(items[..i], maxBytes) && items[i].w * items[i].h <= maxBytes
  {
    hide Place;
    var t := items[..i + 1];
    assert t[..i] == items[..i] && t[i] == items[i];
    assert forall j | 0 <= j < i :: t[j] == items[..i][j];
  }

  ghost predicate PagesWithinBudget(pages: seq<AtlasPage>, maxBytes: int) {
    forall i | 0 <= i < |pages| :: pages[i].width * pages[i].height <= maxBytes
  }

  ghost predicate OpenWithinBudget(s: Shelf, maxBytes: int) {
    s.cells != [] ==> s.pageW * (s.y + s.h) <= maxBytes
  }

  lemma PlaceWithinBudget(s: Shelf, item: PlanInput, target: int, maxBytes: int)
    requires PagesWithinBudget(s.pages, maxBytes) && OpenWithinBudget(s, maxBytes)
    requires item.w * item.h <= maxBytes
    ensures var t := Place(s, item, target, maxBytes);
            PagesWithinBudget(t.pages, maxBytes) && OpenWithinBudget(t, maxBytes)
  {}

  lemma {:induction false} PlanWithinBudget(items: seq<PlanInput>, target: int, maxBytes: int)
    requires CellsWithinBudget(items, maxBytes)
    ensures var s := PlaceAll(items, target, maxBytes);
            PagesWithinBudget(s.pages, maxBytes) && OpenWithinBudget(s, maxBytes)
    ensures PagesWithinBudget(ClosePage(PlaceAll(items, target, maxBytes)).pages, maxBytes)
  {
    if items != [] {
      var n := |items| - 1;
      PlanWithinBudget(items[..n], target, maxBytes);
      PlaceWithinBudget(PlaceAll(items[..n], target, maxBytes), items[n], target, maxBytes);
    }
  }

  lemma {:induction false} EmptyPageHasNoShelf(items: seq<PlanInput>, target: int, maxBytes: int)
    ensures var s := PlaceAll(items, target, maxBytes);
            s.cells == [] ==> s.x == s.y == s.h == s.pageW == 0
  {
    if items != [] { EmptyPageHasNoShelf(items[..|items| - 1], target, maxBytes); }
  }

  // ---------------------------------------------------------------- geometry of a plan

  predicate Positive(items: seq<PlanInput>) {
    forall i | 0 <= i < |items| :: 1 <= items[i].w && 1 <= items[i].h
  }

  predicate UnderCap(items: seq<PlanInput>) {
    forall i | 0 <= i < |items| :: items[i].w <= 16384 && items[i].h <= 16384
  }

  predicate Apart(a: PlacedCell, b: PlacedCell) {
    a.x + a.w <= b.x || b.x + b.w <= a.x || a.y + a.h <= b.y || b.y + b.h <= a.y
  }

  ghost predicate PairwiseApart(cells: seq<PlacedCell>) {
    forall i, j | 0 <= i < j < |cells| :: Apart(cells[i], cells[j])
  }

  predicate Inside(c: PlacedCell, w: int, h: int) {
    0 <= c.x && 0 <= c.y && 1 <= c.w && 1 <= c.h && c.x + c.w <= w && c.y + c.h <= h
  }

  /** A closed page: no overlap, everything inside, budget and caps kept. */
  ghost predicate GoodPage(p: AtlasPage, index: int, maxBytes: int) {
    && p.index == index && p.cells != []
    && p.width <= 16384 && p.height <= 16384
    && p.width * p.height <= maxBytes
    && PairwiseApart(p.cells)
    && forall c | c in p.cells :: Inside(c, p.width, p.height) && c.pageIndex == index
  }

  ghost predicate GoodPages(pages: seq<AtlasPage>, maxBytes: int) {
    forall i | 0 <= i < |pages| :: GoodPage(pages[i], i, maxBytes)
  }

  /** Where a cell of the open page stands with respect to the open shelf. */
  predicate Shelved(c: PlacedCell, s: Shelf) {
    && Inside(c, s.pageW, s.y + s.h) && c.pageIndex == |s.pages| && c.y <= s.y
    && (c.y < s.y ==> c.y + c.h <= s.y)
    && (c.y == s.y ==> c.x + c.w <= s.x)
  }

  ghost predicate OpenPageOk(s: Shelf, maxBytes: int) {
    s.cells != [] ==>
      && 1 <= s.x <= s.pageW <= MAX_CANVAS_DIMENSION_PX && 0 <= s.y && 1 <= s.h
      && s.y + s.h <= MAX_CANVAS_DIMENSION_PX
      && s.pageW * (s.y + s.h) <= maxBytes
      && PairwiseApart(s.cells)
      && forall c | c in s.cells :: Shelved(c, s)
  }

  ghost predicate Layout(s: Shelf, maxBytes: int) {
    GoodPages(s.pages, maxBytes) && OpenPageOk(s, maxBytes)
  }

  predicate ItemOk(item: PlanInput, maxBytes: int) {
    && 1 <= item.w <= MAX_CANVAS_DIMENSION_PX && 1 <= item.h <= MAX_CANVAS_DIMENSION_PX
    && item.w * item.h <= maxBytes
  }

  lemma CloseKeepsLayout(s: Shelf, maxBytes: int)
    requires Layout(s, maxBytes)
    ensures Layout(ClosePage(s), maxBytes) && ClosePage(s).cells == []
  {}

  lemma OpenKeepsLayout(s: Shelf, item: PlanInput, maxBytes: int)
    requires Layout(s, maxBytes) && s.cells == [] && ItemOk(item, maxBytes)
    ensures Layout(OpenPage(s, item), maxBytes)
  {}

  lemma ExtendApart(cells: seq<PlacedCell>, c: PlacedCell)
    requires PairwiseApart(cells) && forall d | d in cells :: Apart(d, c)
    ensures PairwiseApart(cells + [c])
  {}

  lemma OnShelfKeepsLayout(s: Shelf, item: PlanInput, maxBytes: int)
    requires Layout(s, maxBytes) && s.cells != [] && ItemOk(item, maxBytes)
    requires FitsShelf(s, item, maxBytes)
    ensures Layout(OnShelf(s, item), maxBytes)
  {
    var c := CellAt(item, |s.pages|, s.x, s.y, PenLeft(item.extraLeft));
    ExtendApart(s.cells, c);
    forall d | d in s.cells
      ensures Shelved(d, OnShelf(s, item))
    {
      assert Shelved(d, s);
    }
  }

  lemma NewShelfKeepsLayout(s: Shelf, item: PlanInput, maxBytes: int)
    requires Layout(s, maxBytes) && s.cells != [] && ItemOk(item, maxBytes)
    requires Fits(Max(s.pageW, item.w), s.y + s.h + item.h, maxBytes)
    ensures Layout(NewShelf(s, item), maxBytes)
  {
    var c := CellAt(item, |s.pages|, 0, s.y + s.h, CELL_PAD_X_PX);
    forall d | d in s.cells
      ensures Apart(d, c) && Shelved(d, NewShelf(s, item))
    {
      assert Shelved(d, s);
    }
    ExtendApart(s.cells, c);
  }

  lemma {:induction false} PlaceAllKeepsLayout(items: seq<PlanInput>, target: int, maxBytes: int)
    requires Positive(items) && UnderCap(items) && CellsWithinBudget(items, maxBytes)
    ensures Layout(PlaceAll(items, target, maxBytes), maxBytes)
  {
    if items != [] {
      var n := |items| - 1;
      PlaceAllKeepsLayout(items[..n], target, maxBytes);
      PlaceKeepsLayout(PlaceAll(items[..n], target, maxBytes), items[n], target, maxBytes);
    }
  }

  lemma PlaceKeepsLayout(s: Shelf, item: PlanInput, target: int, maxBytes: int)
    requires Layout(s, maxBytes) && ItemOk(item, maxBytes)
    ensures Layout(Place(s, item, target, maxBytes), maxBytes)
  {
    if s.cells == [] {
      OpenKeepsLayout(s, item, maxBytes);
    } else if FitsShelf(s, item, maxBytes) {
      OnShelfKeepsLayout(s, item, maxBytes);
    } else if FitsBelow(s, item, target, maxBytes) {
      NewShelfKeepsLayout(s, item, maxBytes);
    } else {
      CloseKeepsLayout(s, maxBytes);
      OpenKeepsLayout(ClosePage(s), item, maxBytes);
    }
  }

  // ---------------------------------------------------------------- every input placed once

  function CellsOf(pages: seq<AtlasPage>): seq<PlacedCell> {
    if pages == [] then [] else CellsOf(pages[..|pages| - 1]) + pages[|pages| - 1].cells
  }

  /** The cell carries its input unchanged; only a new shelf falls back to the default pen. */
  predicate Carries(c: PlacedCell, item: PlanInput) {
    && c.codePoint == item.codePoint && c.w == item.w && c.h == item.h && c.sizePx == item.sizePx
    && c.phaseX == item.phaseX && c.phaseY == item.phaseY
    && c.penLeft == if c.x == 0 && c.y > 0 then CELL_PAD_X_PX else PenLeft(item.extraLeft)
  }

  ghost predicate CarriesAll(cells: seq<PlacedCell>, items: seq<PlanInput>) {
    |cells| == |items| && forall i | 0 <= i < |cells| :: Carries(cells[i], items[i])
  }

  lemma CellsOfAppend(pages: seq<AtlasPage>, p: AtlasPage)
    ensures CellsOf(pages + [p]) == CellsOf(pages) + p.cells
  {
    assert (pages + [p])[..|pages|] == pages;
  }

  function Placed(s: Shelf): seq<PlacedCell> { CellsOf(s.pages) + s.cells }

  lemma CloseKeepsPlaced(s: Shelf)
    ensures Placed(ClosePage(s)) == Placed(s)
  {
    if s.cells != [] {
      CellsOfAppend(s.pages, AtlasPage(|s.pages|, s.pageW, s.y + s.h, s.cells));
    }
  }

  /** The next cell does not fit beside the open shelf, but under it: it goes to a new shelf. */
  predicate TakesNewShelf(s: Shelf, item: PlanInput, target: int, maxBytes: int) {
    s.cells != [] && !FitsShelf(s, item, maxBytes) && FitsBelow(s, item, target, maxBytes)
  }

  /** The cell that a placement adds. */
  function CellPlaced(s: Shelf, item: PlanInput, target: int, maxBytes: int): PlacedCell {
    if s.cells == [] then CellAt(item, |s.pages|, 0, 0, PenLeft(item.extraLeft))
    else if FitsShelf(s, item, maxBytes) then CellAt(item, |s.pages|, s.x, s.y, PenLeft(item.extraLeft))
    else if FitsBelow(s, item, target, maxBytes) then CellAt(item, |s.pages|, 0, s.y + s.h, CELL_PAD_X_PX)
    else CellAt(item, |s.pages| + 1, 0, 0, PenLeft(item.extraLeft))
  }

  lemma PlacedSnoc(s: Shelf, t: Shelf, c: PlacedCell)
    requires t.pages == s.pages && t.cells == s.cells + [c]
    ensures Placed(t) == Placed(s) + [c]
  {}

  lemma PlaceAppends(s: Shelf, item: PlanInput, target: int, maxBytes: int)
    ensures Placed(Place(s, item, target, maxBytes)) == Placed(s) + [CellPlaced(s, item, target, maxBytes)]
  {
    hide Placed, FitsShelf, FitsBelow, PenLeft;
    var (t, c) := (Place(s, item, target, maxBytes), CellPlaced(s, item, target, maxBytes));
    if s.cells != [] && !FitsShelf(s, item, maxBytes) && !FitsBelow(s, item, target, maxBytes) {
      CloseKeepsPlaced(s);
      PlacedSnoc(ClosePage(s), t, c);
    } else {
      PlacedSnoc(s, t, c);
    }
  }

  lemma CellCarries(s: Shelf, item: PlanInput, target: int, maxBytes: int)
    requires Layout(s, maxBytes)
    ensures Carries(CellPlaced(s, item, target, maxBytes), item)
  {
    hide GoodPages, PairwiseApart, Shelved, Fits, PenLeft;
  }

  /** The k-th placed cell is what placing the k-th item after the earlier ones adds. */
  lemma {:induction false} PlacedAt(items: seq<PlanInput>, target: int, maxBytes: int, k: nat)
    requires k < |items|
    ensures |Placed(PlaceAll(items, target, maxBytes))| == |items|
    ensures Placed(PlaceAll(items, target, maxBytes))[k]
         == CellPlaced(PlaceAll(items[..k], target, maxBytes), items[k], target, maxBytes)
  {
    hide Placed, Place, CellPlaced;
    var n := |items| - 1;
    PlaceAppends(PlaceAll(items[..n], target, maxBytes), items[n], target, maxBytes);
    if n == 0 {
      NothingPlaced();
    } else {
      PlacedAt(items[..n], target, maxBytes, if k < n then k else 0);
      if k < n { assert items[..n][..k] == items[..k]; }
    }
  }

  lemma NothingPlaced()
    ensures Placed(EMPTY_SHELF) == []
  {}

  lemma PlaceAllCarries(items: seq<PlanInput>, target: int, maxBytes: int)
    requires Positive(items) && UnderCap(items) && CellsWithinBudget(items, maxBytes)
    ensures CarriesAll(Placed(PlaceAll(items, target, maxBytes)), items)
  {
    hide Placed, Place, CellPlaced, PlaceAll, Carries, Layout;
    var cells := Placed(PlaceAll(items, target, maxBytes));
    if items == [] {
      assert PlaceAll([], target, maxBytes) == EMPTY_SHELF by { NoItems(target, maxBytes); }
      NothingPlaced();
    } else {
      PlacedAt(items, target, maxBytes, 0);
    }
    forall i | 0 <= i < |cells|
      ensures Carries(cells[i], items[i])
    {
      PlacedAt(items, target, maxBytes, i);
      PlaceAllKeepsLayout(items[..i], target, maxBytes);
      CellCarries(PlaceAll(items[..i], target, maxBytes), items[i], target, maxBytes);
    }
  }

  lemma NoItems(target: int, maxBytes: int)
    ensures PlaceAll([], target, maxBytes) == EMPTY_SHELF
  {}

  // ---------------------------------------------------------------- main results

  lemma BeforeIsPreorder()
    ensures TotalPreorder(Before)
  {}

  lemma OrderedKeeps(inputs: seq<PlanInput>, maxBytes: int)
    ensures Positive(inputs) ==> Positive(Ordered(inputs))
    ensures UnderCap(inputs) ==> UnderCap(Ordered(inputs))
    ensures CellsWithinBudget(inputs, maxBytes) <==> CellsWithinBudget(Ordered(inputs), maxBytes)
    ensures multiset(Ordered(inputs)) == multiset(inputs)
  {
    SortPermutes(inputs, Before);
    SameElements(Ordered(inputs), inputs);
    var o := Ordered(inputs);
    assert forall i | 0 <= i < |o| :: o[i] in inputs;
    assert forall i | 0 <= i < |inputs| :: inputs[i] in o;
  }

  /** The plan fails exactly on an invalid budget or on a single cell over the hard budget. */
  lemma PlanFailsExactly(inputs: seq<PlanInput>, target: int, maxBytes: int)
    ensures Plan(inputs, target, maxBytes).Ok?
       <==> BudgetValid(target, maxBytes) && forall a | a in inputs :: a.w * a.h <= maxBytes
  {
    OrderedKeeps(inputs, maxBytes);
    assert CellsWithinBudget(inputs, maxBytes) <==> forall a | a in inputs :: a.w * a.h <= maxBytes;
  }

  /** Packing is correct: sound pages that carry every input exactly once, in planning order. */
  lemma PlanIsSound(inputs: seq<PlanInput>, target: int, maxBytes: int)
    requires Positive(inputs) && UnderCap(inputs) && Plan(inputs, target, maxBytes).Ok?
    ensures var pages := Plan(inputs, target, maxBytes).value;
            && GoodPages(pages, maxBytes)
            && CarriesAll(CellsOf(pages), Ordered(inputs))
            && multiset(Ordered(inputs)) == multiset(inputs)
  {
    OrderedKeeps(inputs, maxBytes);
    var s := PlaceAll(Ordered(inputs), target, maxBytes);
    PlaceAllKeepsLayout(Ordered(inputs), target, maxBytes);
    CloseKeepsLayout(s, maxBytes);
    PlaceAllCarries(Ordered(inputs), target, maxBytes);
    CloseKeepsPlaced(s);
  }

  /** Page by page and cell by cell, taller cells come first, and of equal ones the smaller code point. */
  lemma TallerFirst(inputs: seq<PlanInput>, target: int, maxBytes: int, i: nat, j: nat)
    requires Positive(inputs) && UnderCap(inputs) && Plan(inputs, target, maxBytes).Ok?
    requires i < j < |CellsOf(Plan(inputs, target, maxBytes).value)|
    ensures var cells := CellsOf(Plan(inputs, target, maxBytes).value); var (c, d) := (cells[i], cells[j]);
      c.h > d.h || (c.h == d.h && c.codePoint <= d.codePoint)
  {
    PlanIsSound(inputs, target, maxBytes);
    BeforeIsPreorder();
    SortSorts(inputs, Before);
    var (cells, o) := (CellsOf(Plan(inputs, target, maxBytes).value), Ordered(inputs));
    assert Carries(cells[i], o[i]) && Carries(cells[j], o[j]);
  }

  /** Every pixel of a page belongs to at most one cell, and every pixel of a cell to the page. */
  lemma CellsShareNoPixel(inputs: seq<PlanInput>, target: int, maxBytes: int, k: nat, i: nat, x: int, y: int)
    requires Plan(inputs, target, maxBytes).Ok? && k < |Plan(inputs, target, maxBytes).value|
    requires forall a | a in inputs :: 1 <= a.w <= 16384 && 1 <= a.h <= 16384
    requires i < |Plan(inputs, target, maxBytes).value[k].cells|
    requires var c := Plan(inputs, target, maxBytes).value[k].cells[i]; c.x <= x < c.x + c.w && c.y <= y < c.y + c.h
    ensures var p := Plan(inputs, target, maxBytes).value[k];
      && 0 <= x < p.width <= 16384 && 0 <= y < p.height <= 16384 && p.width * p.height <= maxBytes
      && forall j | 0 <= j < |p.cells| && p.cells[j].x <= x < p.cells[j].x + p.cells[j].w
                    && p.cells[j].y <= y < p.cells[j].y + p.cells[j].h :: j == i
  {
    assert Positive(inputs) && UnderCap(inputs) by { assert forall m | 0 <= m < |inputs| :: inputs[m] in inputs; }
    PlanIsSound(inputs, target, maxBytes);
    var p := Plan(inputs, target, maxBytes).value[k];
    hide Plan, CarriesAll;
    assert GoodPage(p, k, maxBytes) && Inside(p.cells[i], p.width, p.height);
    assert forall j | 0 <= j < i :: Apart(p.cells[j], p.cells[i]);
    assert forall j | i < j < |p.cells| :: Apart(p.cells[i], p.cells[j]);
  }

  ghost predicate DistinctCodePoints(inputs: seq<PlanInput>) {
    forall i, j | 0 <= i < j < |inputs| :: inputs[i].codePoint != inputs[j].codePoint
  }

  /** With distinct code points the plan does not depend on the order of the request. */
  lemma PlanIgnoresOrder(a: seq<PlanInput>, b: seq<PlanInput>, target: int, maxBytes: int)
    requires multiset(a) == multiset(b) && DistinctCodePoints(a)
    ensures Plan(a, target, maxBytes) == Plan(b, target, maxBytes)
  {
    BeforeIsPreorder();
    forall x, y | x in a && y in a && Before(x, y) && Before(y, x)
      ensures x == y
    {
      var i :| 0 <= i < |a| && a[i] == x;
      var j :| 0 <= j < |a| && a[j] == y;
      assert i == j;
    }
    SortIgnoresOrder(a, b, Before);
  }

  /** A cell keeps its own pen offset exactly when, after the earlier cells, it did not take a new
      shelf, or its observed left extent rounds to nothing; new shelves are read off the plan as
      the cells on the left edge below the top. */
  lemma OwnPenExactly(inputs: seq<PlanInput>, target: int, maxBytes: int, k: nat)
    requires Positive(inputs) && UnderCap(inputs) && Plan(inputs, target, maxBytes).Ok?
    requires k < |inputs|
    ensures |CellsOf(Plan(inputs, target, maxBytes).value)| == |Ordered(inputs)| == |inputs|
    ensures var c, item := CellsOf(Plan(inputs, target, maxBytes).value)[k], Ordered(inputs)[k];
            var onNewShelf := TakesNewShelf(PlaceAll(Ordered(inputs)[..k], target, maxBytes), item, target, maxBytes);
            && (c.penLeft == PenLeft(item.extraLeft) <==> !onNewShelf || item.extraLeft < 0.5)
            && (onNewShelf <==> c.x == 0 && c.y > 0)
  {
    hide Placed, Place, CellPlaced, PlaceAll, Carries, Layout, ClosePage, TakesNewShelf;
    PlanIsSound(inputs, target, maxBytes);
    SortPermutes(inputs, Before);
    OrderedKeeps(inputs, maxBytes);
    var o := Ordered(inputs);
    var s := PlaceAll(o[..k], target, maxBytes);
    PlacedAt(o, target, maxBytes, k);
    CloseKeepsPlaced(PlaceAll(o, target, maxBytes));
    AllOnPages(PlaceAll(o, target, maxBytes));
    PlaceAllKeepsLayout(o[..k], target, maxBytes);
    PenOfPlaced(s, o[k], target, maxBytes);
  }

  lemma AllOnPages(s: Shelf)
    ensures Placed(ClosePage(s)) == CellsOf(ClosePage(s).pages)
  {
    hide CellsOf;
    assert ClosePage(s).cells == [];
  }

  lemma PenOfPlaced(s: Shelf, item: PlanInput, target: int, maxBytes: int)
    requires Layout(s, maxBytes)
    ensures var c := CellPlaced(s, item, target, maxBytes);
            && (TakesNewShelf(s, item, target, maxBytes) <==> c.x == 0 && c.y > 0)
            && (c.penLeft == PenLeft(item.extraLeft)
                <==> !TakesNewShelf(s, item, target, maxBytes) || item.extraLeft < 0.5)
  {
    hide GoodPages, PairwiseApart, Shelved, Fits;
    assert PenLeft(item.extraLeft) == CELL_PAD_X_PX <==> item.extraLeft < 0.5;
  }

  const BASE_CELL := PlanInput(97, 9000, 1280, 1024, 0.0, 0.0, 0.0)
  const MARK_CELL := PlanInput(769, 9000, 1280, 1024, 0.0, 0.0, 300.0)

  lemma TwoCellsOrdered()
    ensures Ordered([BASE_CELL, MARK_CELL]) == [BASE_CELL, MARK_CELL]
  {
    assert [BASE_CELL, MARK_CELL][1..] == [MARK_CELL] && [MARK_CELL][1..] == [];
    assert Sort([], Before) == [];
    assert Sort([MARK_CELL], Before) == Insert(MARK_CELL, [], Before) == [MARK_CELL];
    assert Before(BASE_CELL, MARK_CELL);
  }

  lemma TwoCellsStacked(target: int, maxBytes: int)
    requires target == 100663296 && maxBytes == 134217728
    ensures PlaceAll([BASE_CELL, MARK_CELL], target, maxBytes) == NewShelf(OpenPage(EMPTY_SHELF, BASE_CELL), MARK_CELL)
  {
    hide PenLeft;
    var o := [BASE_CELL, MARK_CELL];
    assert o[..1] == [BASE_CELL] && [BASE_CELL][..0] == [];
    assert PlaceAll([], target, maxBytes) == EMPTY_SHELF;
    assert PlaceAll([BASE_CELL], target, maxBytes) == OpenPage(EMPTY_SHELF, BASE_CELL);
  }

  /** Two wide cells of one height, the second a mark: it goes to a new shelf and is drawn with
      pen offset 128 although its own offset is 428. */
  lemma NewShelfDropsPen()
    ensures var r := Plan([BASE_CELL, MARK_CELL], 100663296, 134217728);
            r.Ok? && |CellsOf(r.value)| == 2
            && CellsOf(r.value)[1].codePoint == MARK_CELL.codePoint
            && CellsOf(r.value)[1].penLeft == 128 && PenLeft(MARK_CELL.extraLeft) == 428
  {
    TwoCellsOrdered();
    TwoCellsStacked(100663296, 134217728);
    var s := NewShelf(OpenPage(EMPTY_SHELF, BASE_CELL), MARK_CELL);
    CloseKeepsPlaced(s);
    assert CellsOf([]) == [];
    assert Placed(s) == s.cells;
  }
}
