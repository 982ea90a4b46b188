/** Pagination of glyph cells on fixed canvases inside the browser: the producer side. */
module CanvasPagination {
  import opened RasterPages

  const PAGE := 2048
  const GAP := 5

  /** A glyph that differs from the fallback fonts, with the size of its ink. */
  datatype Proven = Proven(codePoint: int, w: int, h: int, isSpace: bool)

  datatype CanvasPage = CanvasPage(pageIndex: int, png: Png, glyphs: seq<Glyph>, final: bool, nextCursor: nat)

  predicate Inked(g: Proven) { g.w >= 1 && g.h >= 1 }

  // ---------------------------------------------------------------- what a page list promises

  /** Pages 1..k; only the last is final, each other one names the next. */
  ghost predicate Numbered(pages: seq<CanvasPage>) {
    forall i | 0 <= i < |pages| ::
      && pages[i].pageIndex == i + 1
      && (pages[i].final <==> i == |pages| - 1)
      && pages[i].nextCursor == if i == |pages| - 1 then 0 else i + 2
  }

  function AllGlyphs(pages: seq<CanvasPage>): seq<Glyph> {
    if pages == [] then [] else AllGlyphs(pages[..|pages| - 1]) + pages[|pages| - 1].glyphs
  }

  /** The glyph stands for the proven one, at some place. */
  predicate Draws(g: Glyph, p: Proven) {
    && g.Glyph? && g.codePoint == p.codePoint && g.isSpace == p.isSpace
    && if p.isSpace then g.box == SpriteBox(0, 0, 0, 0) else g.box.width == p.w && g.box.height == p.h
  }

  ghost predicate DrawsAll(gs: seq<Glyph>, glyphs: seq<Proven>) {
    |gs| == |glyphs| && forall i | 0 <= i < |gs| :: Draws(gs[i], glyphs[i])
  }

  /** A cell keeps its distance from the page border unless it starts at the first column or row. */
  predicate Margin(b: SpriteBox) {
    && b.x >= GAP && b.y >= GAP
    && (b.x == GAP || b.x + b.width + GAP <= PAGE) && (b.y == GAP || b.y + b.height + GAP <= PAGE)
  }

  predicate Apart(a: SpriteBox, b: SpriteBox) {
    || a.x + a.width + GAP <= b.x || b.x + b.width + GAP <= a.x
    || a.y + a.height + GAP <= b.y || b.y + b.height + GAP <= a.y
  }

  predicate IsCell(g: Glyph) { g.Glyph? && !g.isSpace }

  /** The cells of one page: margins kept, every two apart by the gap. */
  ghost predicate Tidy(gs: seq<Glyph>) {
    && (forall i | 0 <= i < |gs| && IsCell(gs[i]) :: Margin(gs[i].box))
    && forall i, j | 0 <= i < j < |gs| && IsCell(gs[i]) && IsCell(gs[j]) :: Apart(gs[i].box, gs[j].box)
  }

  /** The first glyph goes on the first page, so that this page is not left empty. */
  predicate FirstFits(g: Proven) {
    g.h <= if g.w <= PAGE - 2 * GAP then PAGE - 2 * GAP else PAGE - 3 * GAP
  }

  // ---------------------------------------------------------------- the cursor

  /** Every cell of the page is above the current row, or in it and left of the cursor. */
  ghost predicate Behind(gs: seq<Glyph>, x: int, y: int, rowH: int) {
    && x >= GAP && y >= GAP && rowH >= 0
    && forall i | 0 <= i < |gs| && IsCell(gs[i]) :: BehindOne(gs[i].box, x, y, rowH)
  }

  predicate BehindOne(b: SpriteBox, x: int, y: int, rowH: int) {
    b.y + b.height + GAP <= y || (b.y == y && b.height <= rowH && b.x + b.width + GAP <= x)
  }

  function PlaceAt(g: Proven, x: int, y: int): Glyph {
    Glyph(g.codePoint, g.isSpace, if g.isSpace then SpriteBox(0, 0, 0, 0) else SpriteBox(x, y, g.w, g.h))
  }

  lemma NewRow(gs: seq<Glyph>, x: int, y: int, rowH: int)
    requires Behind(gs, x, y, rowH)
    ensures Behind(gs, GAP, y + rowH + GAP, 0)
  {}

  lemma PlaceKeeps(gs: seq<Glyph>, g: Proven, x: int, y: int, rowH: int)
    requires Tidy(gs) && Behind(gs, x, y, rowH) && Inked(g)
    requires (x == GAP || x + g.w + GAP <= PAGE) && (y == GAP || y + g.h + GAP <= PAGE)
    ensures Tidy(gs + [PlaceAt(g, x, y)])
    ensures Behind(gs + [PlaceAt(g, x, y)], x + g.w + GAP, y, if g.h > rowH then g.h else rowH)
  {
    forall i | 0 <= i < |gs| && IsCell(gs[i]) && !g.isSpace
      ensures Apart(gs[i].box, PlaceAt(g, x, y).box)
    {
      assert BehindOne(gs[i].box, x, y, rowH);
    }
    forall i | 0 <= i < |gs| && IsCell(gs[i])
      ensures BehindOne(gs[i].box, x + g.w + GAP, y, if g.h > rowH then g.h else rowH)
    {
      assert BehindOne(gs[i].box, x, y, rowH);
    }
  }

  /** On a tidy page two cells are five pixels apart in a row or in a column, and each keeps five to
      the right and lower border unless it starts at the left or upper one. */
  lemma TidyMeans(gs: seq<Glyph>, i: nat, j: nat)
    requires Tidy(gs) && i < j < |gs| && IsCell(gs[i]) && IsCell(gs[j])
    ensures var (a, b) := (gs[i].box, gs[j].box);
      && (a.x + a.width + 5 <= b.x || b.x + b.width + 5 <= a.x
           || a.y + a.height + 5 <= b.y || b.y + b.height + 5 <= a.y)
      && a.x >= 5 && a.y >= 5 && (a.x > 5 ==> a.x + a.width <= 2043) && (a.y > 5 ==> a.y + a.height <= 2043)
      && b.x >= 5 && b.y >= 5 && (b.x > 5 ==> b.x + b.width <= 2043) && (b.y > 5 ==> b.y + b.height <= 2043)
  {}

  lemma DrawsSnoc(gs: seq<Glyph>, glyphs: seq<Proven>, i: nat, g: Glyph)
    requires i < |glyphs| && DrawsAll(gs, glyphs[..i]) && Draws(g, glyphs[i])
    ensures DrawsAll(gs + [g], glyphs[..i + 1])
  {}

  /** The page list while more pages are to come. */
  ghost predicate Open(pages: seq<CanvasPage>) {
    forall i | 0 <= i < |pages| ::
      pages[i].pageIndex == i + 1 && !pages[i].final && pages[i].nextCursor == i + 2
  }

  ghost predicate TidyPages(pages: seq<CanvasPage>) {
    forall i | 0 <= i < |pages| :: Tidy(pages[i].glyphs) && pages[i].png == Png(PAGE, PAGE)
  }

  /** Only the first page can be empty, and it is exactly when the first glyph did not fit. */
  ghost predicate EmptyFirst(pages: seq<CanvasPage>, glyphs: seq<Proven>) {
    && (forall i | 1 <= i < |pages| :: pages[i].glyphs != [])
    && (glyphs != [] && pages != [] ==> (pages[0].glyphs == [] <==> !FirstFits(glyphs[0])))
  }

  /** Between two glyphs: the finished pages, the current page and the cursor. */
  datatype State = State(pages: seq<CanvasPage>, current: seq<Glyph>, x: int, y: int, rowH: int)

  ghost predicate Drawn(s: State, glyphs: seq<Proven>, i: nat)
    requires i <= |glyphs|
  {
    && Open(s.pages) && TidyPages(s.pages) && EmptyFirst(s.pages, glyphs)
    && Tidy(s.current) && Behind(s.current, s.x, s.y, s.rowH)
    && DrawsAll(AllGlyphs(s.pages) + s.current, glyphs[..i])
  }

  /** Before the i-th glyph is looked at. */
  ghost predicate Between(s: State, glyphs: seq<Proven>, i: nat)
    requires i <= |glyphs|
  {
    && Drawn(s, glyphs, i)
    && (i == 0 ==> s == State([], [], GAP, GAP, 0))
    && (i > 0 ==> s.current != [] && (s.pages == [] ==> FirstFits(glyphs[0])))
  }

  /** The i-th glyph fits the current row. */
  ghost predicate Wrapped(s: State, glyphs: seq<Proven>, i: nat)
    requires i < |glyphs|
  {
    && Drawn(s, glyphs, i)
    && (i == 0 ==> s == State([], [], GAP, if glyphs[0].w <= PAGE - 2 * GAP then GAP else 2 * GAP, 0))
    && (i > 0 ==> s.current != [] && (s.pages == [] ==> FirstFits(glyphs[0])))
    && (s.x == GAP || s.x + glyphs[i].w + GAP <= PAGE)
  }

  /** The i-th glyph can be placed at the cursor. */
  ghost predicate Ready(s: State, glyphs: seq<Proven>, i: nat)
    requires i < |glyphs|
  {
    && Drawn(s, glyphs, i) && (s.pages == [] ==> FirstFits(glyphs[0]))
    && (s.x == GAP || s.x + glyphs[i].w + GAP <= PAGE)
    && (s.y == GAP || s.y + glyphs[i].h + GAP <= PAGE)
  }

  lemma WrapRow(s: State, glyphs: seq<Proven>, i: nat)
    requires i < |glyphs| && Between(s, glyphs, i)
    ensures s.x + glyphs[i].w + GAP <= PAGE ==> Wrapped(s, glyphs, i)
    ensures s.x + glyphs[i].w + GAP > PAGE ==> Wrapped(s.(x := GAP, y := s.y + s.rowH + GAP, rowH := 0), glyphs, i)
  {
    hide Tidy, DrawsAll, Behind, EmptyFirst, TidyPages;
    NewRow(s.current, s.x, s.y, s.rowH);
  }

  function Close(s: State): State {
    var n := |s.pages| + 1;
    State(s.pages + [CanvasPage(n, Png(PAGE, PAGE), s.current, false, n + 1)], [], GAP, GAP, 0)
  }

  lemma ClosePage(s: State, glyphs: seq<Proven>, i: nat)
    requires i < |glyphs| && Wrapped(s, glyphs, i) && s.y + glyphs[i].h + GAP > PAGE
    ensures Ready(Close(s), glyphs, i)
  {
    hide Tidy, DrawsAll, Behind;
    var t := Close(s);
    NothingPlaced(glyphs);
    assert t.pages[..|t.pages| - 1] == s.pages;
    assert AllGlyphs(t.pages) + t.current == AllGlyphs(s.pages) + s.current;
  }

  lemma PlaceNext(s: State, glyphs: seq<Proven>, i: nat)
    requires i < |glyphs| && Ready(s, glyphs, i) && Inked(glyphs[i])
    ensures var g := glyphs[i];
      Between(State(s.pages, s.current + [PlaceAt(g, s.x, s.y)], s.x + g.w + GAP, s.y,
                    if g.h > s.rowH then g.h else s.rowH), glyphs, i + 1)
  {
    hide Tidy, DrawsAll, Behind, EmptyFirst, TidyPages;
    var g := PlaceAt(glyphs[i], s.x, s.y);
    PlaceKeeps(s.current, glyphs[i], s.x, s.y, s.rowH);
    DrawsSnoc(AllGlyphs(s.pages) + s.current, glyphs, i, g);
    assert AllGlyphs(s.pages) + (s.current + [g]) == AllGlyphs(s.pages) + s.current + [g];
  }

  ghost predicate Paginated(pages: seq<CanvasPage>, glyphs: seq<Proven>) {
    && Numbered(pages) && TidyPages(pages) && EmptyFirst(pages, glyphs)
    && DrawsAll(AllGlyphs(pages), glyphs)
    && (pages == [] <==> glyphs == [])
    && (pages != [] ==> pages[|pages| - 1].glyphs != [])
  }

  lemma LastPage(s: State, glyphs: seq<Proven>)
    requires Between(s, glyphs, |glyphs|)
    ensures s.current == [] ==> Paginated(s.pages, glyphs)
    ensures s.current != [] ==>
      Paginated(s.pages + [CanvasPage(|s.pages| + 1, Png(PAGE, PAGE), s.current, true, 0)], glyphs)
  {
    hide Tidy, DrawsAll, Behind;
    assert glyphs[..|glyphs|] == glyphs;
    var pages := s.pages + [CanvasPage(|s.pages| + 1, Png(PAGE, PAGE), s.current, true, 0)];
    assert pages[..|pages| - 1] == s.pages;
    assert s.pages == [] ==> AllGlyphs(s.pages) + s.current == s.current;
  }

  lemma NothingPlaced(glyphs: seq<Proven>)
    ensures Tidy([]) && Behind([], GAP, GAP, 0) && DrawsAll([], glyphs[..0])
    ensures Between(State([], [], GAP, GAP, 0), glyphs, 0)
  {
    assert AllGlyphs([]) + [] == [];
  }

  // ---------------------------------------------------------------- the rule the cursor follows

  datatype Cursor = Cursor(x: int, y: int, rowH: int)

  const TOP := Cursor(GAP, GAP, 0)

  /** A glyph that does not fit beside the row starts a new one. */
  function Wrap(c: Cursor, g: Proven): Cursor {
    if c.x + g.w + GAP > PAGE then Cursor(GAP, c.y + c.rowH + GAP, 0) else c
  }

  function AfterPlacing(at: Cursor, g: Proven): Cursor {
    Cursor(at.x + g.w + GAP, at.y, if g.h > at.rowH then g.h else at.rowH)
  }

  /** The cursor of a page after the given glyphs. */
  function CursorAfter(gs: seq<Proven>, firstPage: bool): Cursor
    decreases |gs|, 0
  {
    if gs == [] then TOP
    else var n := |gs| - 1; AfterPlacing(NextSpot(gs[..n], gs[n], firstPage), gs[n])
  }

  /** Where the next glyph of a page goes; only on the first page does the very first glyph look at
      the row. */
  function NextSpot(gs: seq<Proven>, g: Proven, firstPage: bool): Cursor
    decreases |gs|, 1
  {
    if gs == [] && !firstPage then TOP else Wrap(CursorAfter(gs, firstPage), g)
  }

  /** The glyphs of a page stand where the rule puts them. */
  ghost predicate LaidOut(cells: seq<Glyph>, gs: seq<Proven>, firstPage: bool) {
    && |cells| == |gs|
    && forall j | 0 <= j < |gs| ::
         var at := NextSpot(gs[..j], gs[j], firstPage); cells[j] == PlaceAt(gs[j], at.x, at.y)
  }

  /** The first of the next glyphs has no room on this page. */
  predicate FullFor(gs: seq<Proven>, next: seq<Proven>, firstPage: bool) {
    next != [] && Wrap(CursorAfter(gs, firstPage), next[0]).y + next[0].h + GAP > PAGE
  }

  /** In pixels: the next glyph would reach below row 2043, in the open row if it fits beside it. */
  lemma FullForMeans(gs: seq<Proven>, next: seq<Proven>, firstPage: bool)
    ensures FullFor(gs, next, firstPage) <==>
      && next != []
      && var (c, g) := (CursorAfter(gs, firstPage), next[0]);
         (if c.x + g.w > 2043 then c.y + c.rowH + 5 else c.y) + g.h > 2043
  {}

  function Joined(parts: seq<seq<Proven>>): seq<Proven> {
    if parts == [] then [] else Joined(parts[..|parts| - 1]) + parts[|parts| - 1]
  }

  /** The glyphs cut into pages: each page is laid out by the rule and left only for a glyph that has
      no room on it. */
  ghost predicate CutInto(pages: seq<CanvasPage>, parts: seq<seq<Proven>>) {
    && |parts| == |pages|
    && (forall k | 0 <= k < |parts| :: LaidOut(pages[k].glyphs, parts[k], k == 0))
    && forall k | 0 <= k < |parts| - 1 :: FullFor(parts[k], parts[k + 1], k == 0)
  }

  /** The same, with the open page and the cursor. */
  ghost predicate Cut(s: State, parts: seq<seq<Proven>>, part: seq<Proven>, done: seq<Proven>) {
    && CutInto(s.pages, parts) && Joined(parts) + part == done
    && LaidOut(s.current, part, parts == [])
    && (parts != [] ==> FullFor(parts[|parts| - 1], part, |parts| == 1))
    && Cursor(s.x, s.y, s.rowH) == CursorAfter(part, parts == [])
  }

  function Placed(s: State, at: Cursor, g: Proven): State {
    var c := AfterPlacing(at, g);
    State(s.pages, s.current + [PlaceAt(g, at.x, at.y)], c.x, c.y, c.rowH)
  }

  lemma LaidOutNext(cells: seq<Glyph>, gs: seq<Proven>, g: Proven, firstPage: bool)
    requires LaidOut(cells, gs, firstPage)
    ensures var at := NextSpot(gs, g, firstPage); LaidOut(cells + [PlaceAt(g, at.x, at.y)], gs + [g], firstPage)
  {
    assert (gs + [g])[..|gs|] == gs;
    assert forall j | 0 <= j < |gs| :: (gs + [g])[..j] == gs[..j];
  }

  lemma CutPlace(s: State, parts: seq<seq<Proven>>, part: seq<Proven>, done: seq<Proven>, g: Proven)
    requires Cut(s, parts, part, done)
    requires Wrap(Cursor(s.x, s.y, s.rowH), g).y + g.h + GAP <= PAGE
    ensures Cut(Placed(s, Wrap(Cursor(s.x, s.y, s.rowH), g), g), parts, part + [g], done + [g])
  {
    hide LaidOut, CutInto, FullFor, Joined, Wrap, PlaceAt;
    LaidOutNext(s.current, part, g, parts == []);
    assert (part + [g])[..|part|] == part;
    assert Joined(parts) + (part + [g]) == done + [g];
    if parts != [] { SameFirst(parts[|parts| - 1], part, g, |parts| == 1); }
  }

  lemma SameFirst(gs: seq<Proven>, part: seq<Proven>, g: Proven, firstPage: bool)
    requires FullFor(gs, part, firstPage)
    ensures part != [] && FullFor(gs, part + [g], firstPage)
  {}

  lemma CutClose(s: State, parts: seq<seq<Proven>>, part: seq<Proven>, done: seq<Proven>, g: Proven)
    requires Cut(s, parts, part, done)
    requires Wrap(Cursor(s.x, s.y, s.rowH), g).y + g.h + GAP > PAGE
    ensures Cut(Placed(Close(s), TOP, g), parts + [part], [g], done + [g])
  {
    hide LaidOut, Wrap, PlaceAt, CursorAfter, NextSpot;
    var all := parts + [part];
    assert all[..|parts|] == parts;
    LaidOutNothing();
    LaidOutFirst(g);
    OnePlaced(g);
    assert Close(s).current + [PlaceAt(g, GAP, GAP)] == [PlaceAt(g, GAP, GAP)];
    assert Joined(all) == done;
    assert FullFor(part, [g], parts == []);
  }

  lemma OnePlaced(g: Proven)
    ensures CursorAfter([g], false) == AfterPlacing(TOP, g)
  {
    assert [g][..0] == [];
  }

  lemma LaidOutFirst(g: Proven)
    ensures LaidOut([PlaceAt(g, GAP, GAP)], [g], false)
  {
    LaidOutNothing();
    LaidOutNext([], [], g, false);
    assert [] + [g] == [g] && [] + [PlaceAt(g, GAP, GAP)] == [PlaceAt(g, GAP, GAP)];
  }

  lemma LaidOutNothing()
    ensures forall firstPage :: LaidOut([], [], firstPage)
  {}

  lemma CutNothing()
    ensures Cut(State([], [], GAP, GAP, 0), [], [], [])
  {}

  lemma LaidOutLength(cells: seq<Glyph>, gs: seq<Proven>, firstPage: bool)
    requires LaidOut(cells, gs, firstPage)
    ensures |cells| == |gs|
  {}

  /** One more page carries one more part. */
  lemma CutIntoNext(pages: seq<CanvasPage>, parts: seq<seq<Proven>>, page: CanvasPage, part: seq<Proven>)
    requires CutInto(pages, parts) && LaidOut(page.glyphs, part, parts == [])
    requires parts != [] ==> FullFor(parts[|parts| - 1], part, |parts| == 1)
    ensures CutInto(pages + [page], parts + [part])
  {
    hide LaidOut, FullFor;
  }

  lemma JoinedNext(parts: seq<seq<Proven>>, part: seq<Proven>)
    ensures Joined(parts + [part]) == Joined(parts) + part
  {
    assert (parts + [part])[..|parts|] == parts;
  }

  lemma OpenParts(s: State, parts: seq<seq<Proven>>, part: seq<Proven>, done: seq<Proven>)
    requires Cut(s, parts, part, done)
    ensures CutInto(s.pages, parts) && Joined(parts) + part == done && LaidOut(s.current, part, parts == [])
    ensures parts != [] ==> FullFor(parts[|parts| - 1], part, |parts| == 1)
  {
    hide LaidOut, FullFor, CutInto, Joined;
  }

  /** Everything is cut into the finished pages. */
  lemma CutAll(s: State, parts: seq<seq<Proven>>, part: seq<Proven>, done: seq<Proven>)
    requires Cut(s, parts, part, done) && (s.current == [] ==> s.pages == [])
    ensures var all := if part == [] then parts else parts + [part];
      && Joined(all) == done
      && CutInto(if s.current == [] then s.pages
                 else s.pages + [CanvasPage(|s.pages| + 1, Png(PAGE, PAGE), s.current, true, 0)], all)
  {
    hide FullFor, LaidOut, CursorAfter, Cut, CutInto, Joined;
    OpenParts(s, parts, part, done);
    LaidOutLength(s.current, part, parts == []);
    if part == [] {
      assert Joined(parts) + part == Joined(parts);
    } else {
      JoinedNext(parts, part);
      CutIntoNext(s.pages, parts, CanvasPage(|s.pages| + 1, Png(PAGE, PAGE), s.current, true, 0), part);
    }
  }

  /** All that holds before the i-th glyph. */
  ghost predicate Going(s: State, parts: seq<seq<Proven>>, part: seq<Proven>, glyphs: seq<Proven>, i: nat)
    requires i <= |glyphs|
  {
    Between(s, glyphs, i) && Cut(s, parts, part, glyphs[..i])
  }

  lemma GoOn(s: State, parts: seq<seq<Proven>>, part: seq<Proven>, glyphs: seq<Proven>, i: nat)
    requires i < |glyphs| && Going(s, parts, part, glyphs, i) && Inked(glyphs[i])
    ensures var g := glyphs[i];
      var at := Wrap(Cursor(s.x, s.y, s.rowH), g);
      if at.y + g.h + GAP > PAGE then Going(Placed(Close(s), TOP, g), parts + [part], [g], glyphs, i + 1)
      else Going(Placed(s, at, g), parts, part + [g], glyphs, i + 1)
  {
    hide Between, Wrapped, Ready, Cut;
    var g := glyphs[i];
    var at := Wrap(Cursor(s.x, s.y, s.rowH), g);
    var w := s.(x := at.x, y := at.y, rowH := at.rowH);
    assert glyphs[..i + 1] == glyphs[..i] + [g];
    WrapRow(s, glyphs, i);
    FitsHere(w, glyphs, i);
    if at.y + g.h + GAP > PAGE {
      ClosePage(w, glyphs, i);
      assert Close(w) == Close(s);
      PlaceNext(Close(s), glyphs, i);
      CutClose(s, parts, part, glyphs[..i], g);
    } else {
      PlaceNext(w, glyphs, i);
      CutPlace(s, parts, part, glyphs[..i], g);
    }
  }

  lemma Arrive(s: State, parts: seq<seq<Proven>>, part: seq<Proven>, glyphs: seq<Proven>)
    requires Going(s, parts, part, glyphs, |glyphs|)
    ensures var all := if part == [] then parts else parts + [part];
      var pages := if s.current == [] then s.pages
                   else s.pages + [CanvasPage(|s.pages| + 1, Png(PAGE, PAGE), s.current, true, 0)];
      Paginated(pages, glyphs) && Joined(all) == glyphs && CutInto(pages, all)
  {
    hide Between, Cut, Paginated, CutInto;
    assert glyphs[..|glyphs|] == glyphs;
    LastPage(s, glyphs);
    NoPageLeft(s, glyphs);
    CutAll(s, parts, part, glyphs);
  }

  /** Pages by the rule, for every list of inked glyphs. */
  method Paginate(glyphs: seq<Proven>) returns (pages: seq<CanvasPage>, ghost parts: seq<seq<Proven>>)
    requires forall i | 0 <= i < |glyphs| :: Inked(glyphs[i])
    ensures Paginated(pages, glyphs)
    ensures Joined(parts) == glyphs && CutInto(pages, parts)
  {
    hide Going, Paginated, CutInto, Joined, Inked;
    pages := [];
    var current: seq<Glyph> := [];
    var curX, curY, rowMaxH := GAP, GAP, 0;
    ghost var part: seq<Proven>;
    parts, part := [], [];
    SetOut(glyphs);
    for i := 0 to |glyphs|
      invariant Going(State(pages, current, curX, curY, rowMaxH), parts, part, glyphs, i)
    {
      var g := glyphs[i];
      GoOn(State(pages, current, curX, curY, rowMaxH), parts, part, glyphs, i);
      if curX + g.w + GAP > PAGE {
        curX, curY, rowMaxH := GAP, curY + rowMaxH + GAP, 0;
      }
      if curY + g.h + GAP > PAGE {
        var n := |pages| + 1;
        pages := pages + [CanvasPage(n, Png(PAGE, PAGE), current, false, n + 1)];
        current, curX, curY, rowMaxH := [], GAP, GAP, 0;
        parts, part := parts + [part], [];
        assert part + [g] == [g];
      }
      current := current + [PlaceAt(g, curX, curY)];
      curX, rowMaxH := curX + g.w + GAP, if g.h > rowMaxH then g.h else rowMaxH;
      part := part + [g];
    }
    Arrive(State(pages, current, curX, curY, rowMaxH), parts, part, glyphs);
    if current != [] {
      var n := |pages| + 1;
      pages := pages + [CanvasPage(n, Png(PAGE, PAGE), current, true, 0)];
    }
    parts := if part == [] then parts else parts + [part];
  }

  lemma SetOut(glyphs: seq<Proven>)
    ensures Going(State([], [], GAP, GAP, 0), [], [], glyphs, 0)
  {
    NothingPlaced(glyphs);
    CutNothing();
    assert glyphs[..0] == [];
  }

  lemma NoPageLeft(s: State, glyphs: seq<Proven>)
    requires Between(s, glyphs, |glyphs|)
    ensures s.current == [] ==> s.pages == []
  {}

  lemma FitsHere(s: State, glyphs: seq<Proven>, i: nat)
    requires i < |glyphs| && Wrapped(s, glyphs, i)
    ensures s.y + glyphs[i].h + GAP <= PAGE ==> Ready(s, glyphs, i)
  {}
}
