/** The planner's cursors refine a rule on the placed cells alone: where the next cell of a page goes
    and when a page is full. */
module GreedyShelves {
  import opened ShelfPacking

  function Right(cells: seq<PlacedCell>): int {
    if cells == [] then 0 else
      var c := cells[|cells| - 1];
      Max(Right(cells[..|cells| - 1]), c.x + c.w)
  }

  function Bottom(cells: seq<PlacedCell>): int {
    if cells == [] then 0 else
      var c := cells[|cells| - 1];
      Max(Bottom(cells[..|cells| - 1]), c.y + c.h)
  }

  datatype Spot = At(x: int, y: int) | Nowhere

  /** A page of this size is within the canvas cap and the budget. */
  predicate PageHolds(w: int, h: int, maxBytes: int) { w <= 16384 && h <= 16384 && w * h <= maxBytes }

  /** The place of a w-by-h cell after these cells of a page: right of the last one if the page then
      fits, else under all of them at the left border if that fits and the area above is within the
      target, else not on this page. */
  function SpotFor(cells: seq<PlacedCell>, w: int, h: int, target: int, maxBytes: int): Spot {
    if cells == [] then At(0, 0) else
      var last := cells[|cells| - 1];
      var (x, y) := (last.x + last.w, last.y);
      if PageHolds(Max(Right(cells), x + w), Max(Bottom(cells), y + h), maxBytes) then At(x, y)
      else if PageHolds(Max(Right(cells), w), Bottom(cells) + h, maxBytes)
              && Bottom(cells) * Max(Right(cells), w) <= target then At(0, Bottom(cells))
      else Nowhere
  }

  ghost predicate GreedyCells(cells: seq<PlacedCell>, target: int, maxBytes: int) {
    forall j | 0 <= j < |cells| ::
      SpotFor(cells[..j], cells[j].w, cells[j].h, target, maxBytes) == At(cells[j].x, cells[j].y)
  }

  /** Every cell stands where the rule puts it, a page is no larger than its cells need, and a page
      is left only when the next cell has no place on it. */
  ghost predicate GreedyPages(pages: seq<AtlasPage>, target: int, maxBytes: int) {
    && (forall k | 0 <= k < |pages| :: TightPage(pages[k], target, maxBytes))
    && forall k | 0 <= k < |pages| - 1 :: LeftFull(pages[k], pages[k + 1].cells, target, maxBytes)
  }

  ghost predicate TightPage(p: AtlasPage, target: int, maxBytes: int) {
    p.cells != [] && GreedyCells(p.cells, target, maxBytes) && p.width == Right(p.cells) && p.height == Bottom(p.cells)
  }

  ghost predicate LeftFull(p: AtlasPage, next: seq<PlacedCell>, target: int, maxBytes: int) {
    next != [] && SpotFor(p.cells, next[0].w, next[0].h, target, maxBytes) == Nowhere
  }

  /** The cursors of the open page say what its cells say. */
  ghost predicate Synced(s: Shelf, target: int, maxBytes: int) {
    s.cells != [] ==>
      var last := s.cells[|s.cells| - 1];
      && GreedyCells(s.cells, target, maxBytes)
      && s.x == last.x + last.w && s.y == last.y && s.h >= last.h
      && s.pageW == Right(s.cells) && s.y + s.h == Bottom(s.cells)
  }

  ghost predicate GreedyState(s: Shelf, target: int, maxBytes: int) {
    && Synced(s, target, maxBytes) && GreedyPages(s.pages, target, maxBytes)
    && (s.cells == [] ==> s.pages == [])
    && (s.cells != [] && s.pages != [] ==> LeftFull(s.pages[|s.pages| - 1], s.cells, target, maxBytes))
  }

  lemma Snoc(cells: seq<PlacedCell>, c: PlacedCell, target: int, maxBytes: int)
    ensures Right(cells + [c]) == Max(Right(cells), c.x + c.w)
    ensures Bottom(cells + [c]) == Max(Bottom(cells), c.y + c.h)
    ensures GreedyCells(cells, target, maxBytes) && SpotFor(cells, c.w, c.h, target, maxBytes) == At(c.x, c.y)
        ==> GreedyCells(cells + [c], target, maxBytes)
  {
    assert (cells + [c])[..|cells|] == cells;
    assert forall j | 0 <= j < |cells| :: (cells + [c])[..j] == cells[..j];
  }

  lemma OnShelfSyncs(s: Shelf, item: PlanInput, target: int, maxBytes: int)
    requires Synced(s, target, maxBytes) && s.cells != [] && item.w > 0 && item.h > 0
    requires Fits(Max(s.pageW, s.x + item.w), s.y + Max(s.h, item.h), maxBytes)
    ensures Synced(OnShelf(s, item), target, maxBytes)
  {
    var c := CellAt(item, |s.pages|, s.x, s.y, PenLeft(item.extraLeft));
    Snoc(s.cells, c, target, maxBytes);
    hide Right, Bottom, GreedyCells;
    assert s.y + Max(s.h, item.h) == Max(Bottom(s.cells), s.y + item.h);
  }

  lemma NewShelfSyncs(s: Shelf, item: PlanInput, target: int, maxBytes: int)
    requires Synced(s, target, maxBytes) && s.cells != [] && item.w > 0 && item.h > 0
    requires !Fits(Max(s.pageW, s.x + item.w), s.y + Max(s.h, item.h), maxBytes)
    requires Fits(Max(s.pageW, item.w), s.y + s.h + item.h, maxBytes) && (s.y + s.h) * Max(s.pageW, item.w) <= target
    ensures Synced(NewShelf(s, item), target, maxBytes)
  {
    var c := CellAt(item, |s.pages|, 0, s.y + s.h, CELL_PAD_X_PX);
    Snoc(s.cells, c, target, maxBytes);
    hide Right, Bottom, GreedyCells;
    assert s.y + Max(s.h, item.h) == Max(Bottom(s.cells), s.y + item.h);
  }

  lemma OpenSyncs(s: Shelf, item: PlanInput, target: int, maxBytes: int)
    requires item.w > 0 && item.h > 0
    ensures Synced(OpenPage(s, item), target, maxBytes)
  {
    var c := CellAt(item, |s.pages|, 0, 0, PenLeft(item.extraLeft));
    Snoc([], c, target, maxBytes);
    assert [] + [c] == [c];
  }

  lemma FullIsNowhere(s: Shelf, item: PlanInput, target: int, maxBytes: int)
    requires Synced(s, target, maxBytes) && s.cells != []
    requires !Fits(Max(s.pageW, s.x + item.w), s.y + Max(s.h, item.h), maxBytes)
    requires !(Fits(Max(s.pageW, item.w), s.y + s.h + item.h, maxBytes) && (s.y + s.h) * Max(s.pageW, item.w) <= target)
    ensures SpotFor(s.cells, item.w, item.h, target, maxBytes) == Nowhere
  {
    hide Right, Bottom, GreedyCells;
    assert s.y + Max(s.h, item.h) == Max(Bottom(s.cells), s.y + item.h);
  }

  lemma CloseIsGreedy(s: Shelf, target: int, maxBytes: int)
    requires GreedyState(s, target, maxBytes)
    ensures GreedyPages(ClosePage(s).pages, target, maxBytes)
  {
    hide GreedyCells, SpotFor, Right, Bottom;
  }

  lemma PlaceKeepsGreedy(s: Shelf, item: PlanInput, target: int, maxBytes: int)
    requires GreedyState(s, target, maxBytes) && item.w > 0 && item.h > 0
    ensures GreedyState(Place(s, item, target, maxBytes), target, maxBytes)
  {
    hide GreedyCells, SpotFor, Right, Bottom, Synced, Fits, GreedyPages;
    if s.cells == [] {
      OpenSyncs(s, item, target, maxBytes);
    } else if Fits(Max(s.pageW, s.x + item.w), s.y + Max(s.h, item.h), maxBytes) {
      OnShelfSyncs(s, item, target, maxBytes);
    } else if Fits(Max(s.pageW, item.w), s.y + s.h + item.h, maxBytes) && (s.y + s.h) * Max(s.pageW, item.w) <= target {
      NewShelfSyncs(s, item, target, maxBytes);
    } else {
      FullIsNowhere(s, item, target, maxBytes);
      CloseIsGreedy(s, target, maxBytes);
      OpenSyncs(ClosePage(s), item, target, maxBytes);
    }
  }

  lemma {:induction false} PlaceAllIsGreedy(items: seq<PlanInput>, target: int, maxBytes: int)
    requires Positive(items)
    ensures GreedyState(PlaceAll(items, target, maxBytes), target, maxBytes)
  {
    if items != [] {
      hide GreedyState;
      var n := |items| - 1;
      PlaceAllIsGreedy(items[..n], target, maxBytes);
      PlaceKeepsGreedy(PlaceAll(items[..n], target, maxBytes), items[n], target, maxBytes);
    }
  }

  /** The plan follows the greedy rule. */
  lemma PlanIsGreedy(inputs: seq<PlanInput>, target: int, maxBytes: int)
    requires Positive(inputs) && Plan(inputs, target, maxBytes).Ok?
    ensures GreedyPages(Plan(inputs, target, maxBytes).value, target, maxBytes)
  {
    hide GreedyState, GreedyPages;
    OrderedKeeps(inputs, maxBytes);
    PlaceAllIsGreedy(Ordered(inputs), target, maxBytes);
    CloseIsGreedy(PlaceAll(Ordered(inputs), target, maxBytes), target, maxBytes);
  }
}
