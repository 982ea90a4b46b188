/** The bounded crawl over all sprite pages of all sizes. The server is arbitrary: it may answer
    every request differently, badly or not at all. */
module SpriteCrawl {
  import opened RasterPages
  import opened SizeGroups

  /** One decoded layout entry; Bad stands for a missing or non-integer field. The code point is
      None when it is not an integer. */
  datatype LayoutEntry = Bad | Entry(box: SpriteBox, codePoint: Option<int>)

  /** The decoded sprite: Refused for bad base64, too many bytes or a wrong signature. */
  datatype Sprite = Refused | Accepted(png: Png)

  /** Failed stands for a transport error, a bad status or a body that is not a JSON object. */
  datatype Response = Failed | Body(status: int, layout: Option<seq<LayoutEntry>>, sprite: Sprite)

  /** The answer to the request of the i-th size for a page. */
  type Server = (int, int) -> Response

  predicate EntryOk(e: LayoutEntry) {
    e.Entry? && e.box.width >= 1 && e.box.height >= 1 && e.box.x >= 0 && e.box.y >= 0
  }

  predicate IsMapped(e: LayoutEntry) { e.Entry? && e.codePoint.Some? && e.codePoint.value > 0 }

  /** The glyphs of the mapped entries, in layout order. */
  function MappedGlyphs(entries: seq<LayoutEntry>): (r: seq<Glyph>)
    ensures |r| <= |entries|
  {
    if entries == [] then [] else
      var n := |entries| - 1;
      var e := entries[n];
      MappedGlyphs(entries[..n]) + if IsMapped(e) then [Glyph(e.codePoint.value, false, e.box)] else []
  }

  ghost predicate EntriesOk(entries: seq<LayoutEntry>) { forall i | 0 <= i < |entries| :: EntryOk(entries[i]) }

  /** A response is usable as page evidence. */
  ghost predicate Usable(resp: Response) {
    && resp.Body? && resp.status == 200 && resp.layout.Some? && resp.sprite.Accepted?
    && EntriesOk(resp.layout.value)
    && (resp.layout.value != [] ==> MappedGlyphs(resp.layout.value) != [])
  }

  /** The page a usable response stands for: terminal exactly when its layout is empty. */
  function PageOf(resp: Response, pageIndex: int, md5: string, pt: int): RasterPage
    requires resp.Body? && resp.layout.Some? && resp.sprite.Accepted? && pageIndex >= 0
  {
    var glyphs := MappedGlyphs(resp.layout.value);
    var empty := resp.layout.value == [];
    RasterPage(pageIndex, |glyphs|, resp.sprite.png, if empty then 0 else pageIndex + 1, empty, md5,
               Some(pt), Some(glyphs))
  }

  method ParsePage(resp: Response, pageIndex: nat, md5: string, pt: int) returns (r: Option<RasterPage>)
    ensures r.Some? <==> Usable(resp)
    ensures r.Some? ==> r.value == PageOf(resp, pageIndex, md5, pt)
  {
    if resp.Failed? || resp.status != 200 || resp.layout.None? { return None; }
    if resp.sprite.Refused? { return None; }
    var layout := resp.layout.value;
    if layout == [] {
      return Some(RasterPage(pageIndex, 0, resp.sprite.png, 0, true, md5, Some(pt), Some([])));
    }
    var glyphs: seq<Glyph> := [];
    for i := 0 to |layout|
      invariant EntriesOk(layout[..i])
      invariant glyphs == MappedGlyphs(layout[..i])
    {
      var e := layout[i];
      assert layout[..i + 1][..i] == layout[..i];
      if e.Bad? { return None; }
      if e.box.width < 1 || e.box.height < 1 || e.box.x < 0 || e.box.y < 0 { return None; }
      if e.codePoint.None? || e.codePoint.value <= 0 {
        continue;
      }
      glyphs := glyphs + [Glyph(e.codePoint.value, false, e.box)];
    }
    assert layout[..|layout|] == layout;
    if glyphs == [] { return None; }
    r := Some(RasterPage(pageIndex, |glyphs|, resp.sprite.png, pageIndex + 1, false, md5, Some(pt), Some(glyphs)));
  }

  // ---------------------------------------------------------------- one size

  ghost predicate Answers(server: Server, i: int, pt: int, page: int) {
    pt >= 1 && Usable(server(i, page))
  }

  /** Pages 1..k of the i-th size, all of them answered. */
  ghost predicate AnswersUpto(server: Server, i: int, pt: int, k: nat) {
    forall page | 1 <= page <= k :: Answers(server, i, pt, page)
  }

  function Pages(server: Server, i: int, md5: string, pt: int, k: nat): (r: seq<RasterPage>)
    requires AnswersUpto(server, i, pt, k)
    ensures |r| == k
  {
    seq(k, j requires 0 <= j < k => assert Answers(server, i, pt, j + 1); PageOf(server(i, j + 1), j + 1, md5, pt))
  }

  predicate EmptyAt(server: Server, i: int, page: int) {
    server(i, page).Body? && server(i, page).layout == Some([])
  }

  method FetchSpritePage(server: Server, i: int, md5: string, pt: int, cursor: nat) returns (r: Option<RasterPage>)
    ensures r.Some? <==> Answers(server, i, pt, if cursor == 0 then 1 else cursor)
    ensures r.Some? ==> var page := if cursor == 0 then 1 else cursor; r.value == PageOf(server(i, page), page, md5, pt)
  {
    var pageIndex := if cursor == 0 then 1 else cursor;
    if pt < 1 { return None; }
    r := ParsePage(server(i, pageIndex), pageIndex, md5, pt);
  }

  /** The crawl of one size stopped after k pages: no page before the last is empty, and it
      stopped for the budget, at an empty page or at a page it could not get. */
  ghost predicate StopsAfter(server: Server, i: int, pt: int, limit: nat, k: nat) {
    && k <= limit && AnswersUpto(server, i, pt, k)
    && (forall page | 1 <= page < k :: !EmptyAt(server, i, page))
    && (k == limit || (k > 0 && EmptyAt(server, i, k)) || !Answers(server, i, pt, k + 1))
  }

  method FetchSize(server: Server, i: int, md5: string, pt: int, limit: nat)
    returns (r: Option<seq<RasterPage>>, ghost k: nat)
    ensures r.Some? <==> limit > 0 && Answers(server, i, pt, 1)
    ensures StopsAfter(server, i, pt, limit, k) && (r.Some? <==> k > 0)
    ensures r.Some? ==> r.value == Pages(server, i, md5, pt, k)
  {
    var pages: seq<RasterPage> := [];
    var cursor := 0;
    var n := 0;
    while n < limit
      invariant n <= limit && n == |pages| && cursor == if n == 0 then 0 else n + 1
      invariant AnswersUpto(server, i, pt, n) && pages == Pages(server, i, md5, pt, n)
      invariant forall page | 1 <= page <= n :: !EmptyAt(server, i, page)
    {
      var page := FetchSpritePage(server, i, md5, pt, cursor);
      if page.None? { break; }
      pages := pages + [page.value];
      n := n + 1;
      assert pages == Pages(server, i, md5, pt, n);
      EmptyMeans(server, i, md5, pt, n);
      if page.value.final || page.value.nextCursor == 0 || page.value.glyphCount == 0 { break; }
      cursor := page.value.nextCursor;
    }
    k := n;
    if pages == [] { return None, k; }
    var p := 0;
    while p < |pages|
      invariant 0 <= p <= |pages|
    {
      assert Answers(server, i, pt, p + 1);
      var g := 0;
      while g < |pages[p].glyphs.value|
        invariant 0 <= g <= |pages[p].glyphs.value|
      {
        BoxesArePositive(server(i, p + 1).layout.value, g);
        if pages[p].glyphs.value[g].box.width <= 0 || pages[p].glyphs.value[g].box.height <= 0 {
          return None, k;
        }
        g := g + 1;
      }
      p := p + 1;
    }
    r := Some(pages);
  }

  lemma EmptyMeans(server: Server, i: int, md5: string, pt: int, page: nat)
    requires Answers(server, i, pt, page) && page > 0
    ensures var p := PageOf(server(i, page), page, md5, pt);
      && (Terminal(p) <==> EmptyAt(server, i, page)) && (Live(p) <==> !EmptyAt(server, i, page))
      && (p.glyphCount == 0 <==> EmptyAt(server, i, page))
  {}

  /** Every glyph of a usable page is well formed, whatever the later checks look at. */
  lemma {:induction false} BoxesArePositive(entries: seq<LayoutEntry>, g: nat)
    requires EntriesOk(entries) && g < |MappedGlyphs(entries)|
    ensures var m := MappedGlyphs(entries)[g];
      m.Glyph? && !m.isSpace && m.codePoint > 0 && m.box.width > 0 && m.box.height > 0 && m.box.x >= 0 && m.box.y >= 0
  {
    var n := |entries| - 1;
    assert EntryOk(entries[n]);
    if g < |MappedGlyphs(entries[..n])| {
      BoxesArePositive(entries[..n], g);
    }
  }

  // ---------------------------------------------------------------- all sizes

  /** The i-th size is complete: non-empty pages 1..k-1, the empty page k, no code point twice. */
  ghost predicate SizeIsRight(server: Server, i: int, md5: string, pt: int, limit: nat, k: nat) {
    && 2 <= k <= limit && AnswersUpto(server, i, pt, k)
    && (forall page | 1 <= page < k :: !EmptyAt(server, i, page)) && EmptyAt(server, i, k)
    && PagesOk(Pages(server, i, md5, pt, k)) && CodesDistinct(Pages(server, i, md5, pt, k))
  }

  /** A size has at most one complete run, and a crawl of a size with one stops at its end. */
  lemma RunIsUnique(server: Server, i: int, md5: string, pt: int, limit: nat, k: nat, stop: nat)
    requires SizeIsRight(server, i, md5, pt, limit, k) && StopsAfter(server, i, pt, limit, stop)
    ensures stop == k
  {
    assert 0 <= stop < k ==> Answers(server, i, pt, stop + 1);
    assert 0 < stop < k ==> !EmptyAt(server, i, stop);
    assert stop > k ==> !EmptyAt(server, i, k);
  }

  lemma PagesShape(server: Server, i: int, md5: string, pt: int, limit: nat, k: nat)
    requires StopsAfter(server, i, pt, limit, k) && k > 0
    ensures var ps := Pages(server, i, md5, pt, k);
      && Counts(ps) && AllOfSize(ps, pt) && (forall p | p in ps :: p.md5 == md5)
      && (forall j | 0 <= j < k - 1 :: Live(ps[j]) && ps[j].glyphCount != 0)
      && (Terminal(ps[k - 1]) <==> EmptyAt(server, i, k))
      && (ps[k - 1].glyphCount == 0 <==> EmptyAt(server, i, k))
  {
    var ps := Pages(server, i, md5, pt, k);
    forall j | 0 <= j < k
      ensures Answers(server, i, pt, j + 1) && ps[j] == PageOf(server(i, j + 1), j + 1, md5, pt)
    {}
    forall j | 0 <= j < k - 1
      ensures Live(ps[j]) && ps[j].glyphCount != 0
    {
      EmptyMeans(server, i, md5, pt, j + 1);
      assert !EmptyAt(server, i, j + 1);
    }
    EmptyMeans(server, i, md5, pt, k);
  }

  /** What a crawl brings home for a size passes the gate exactly when the run is complete. */
  lemma StoppedIsFine(server: Server, i: int, md5: string, pt: int, limit: nat, k: nat)
    requires StopsAfter(server, i, pt, limit, k) && k > 0
    ensures GroupFine(Pages(server, i, md5, pt, k)) <==> SizeIsRight(server, i, md5, pt, limit, k)
  {
    hide PageOk, CodesDistinct, EmptyAt, Answers, Live, Terminal;
    var ps := Pages(server, i, md5, pt, k);
    PagesShape(server, i, md5, pt, limit, k);
    hide Pages;
    assert forall j | 0 <= j < k :: ps[j] in ps && ps[j].pageIndex == j + 1;
    forall j | 1 <= j <= k
      ensures HasIndex(ps, j)
    {
      assert ps[j - 1] in ps;
    }
    if k >= 2 { assert ps[0] in ps && ps[0].glyphCount != 0; }
  }

  function CrawlGroups(server: Server, md5: string, sizes: seq<int>, ks: seq<nat>): (r: seq<seq<RasterPage>>)
    requires |ks| <= |sizes|
    requires forall i | 0 <= i < |ks| :: AnswersUpto(server, i, sizes[i], ks[i])
    ensures |r| == |ks| && forall i | 0 <= i < |ks| :: r[i] == Pages(server, i, md5, sizes[i], ks[i])
  {
    seq(|ks|, i requires 0 <= i < |ks| => Pages(server, i, md5, sizes[i], ks[i]))
  }

  /** The first sizes were crawled, each to its stop. */
  ghost predicate Stopped(server: Server, sizes: seq<int>, limit: nat, ks: seq<nat>) {
    |ks| <= |sizes| && forall i | 0 <= i < |ks| :: ks[i] > 0 && StopsAfter(server, i, sizes[i], limit, ks[i])
  }

  ghost predicate SizeDone(server: Server, i: int, md5: string, pt: int, limit: nat) {
    exists k: nat :: SizeIsRight(server, i, md5, pt, limit, k)
  }

  lemma CrawlIsComplete(server: Server, md5: string, sizes: seq<int>, limit: nat, ks: seq<nat>)
    requires Stopped(server, sizes, limit, ks) && |ks| == |sizes| > 0 && |md5| == 32
    ensures Complete(Crawled(server, md5, sizes, limit, ks), sizes, md5)
       <==> Distinct(sizes) && forall i | 0 <= i < |sizes| :: SizeDone(server, i, md5, sizes[i], limit)
    ensures forall i | 0 <= i < |sizes| ::
              SizeDone(server, i, md5, sizes[i], limit) <==> SizeIsRight(server, i, md5, sizes[i], limit, ks[i])
  {
    var groups := CrawlGroups(server, md5, sizes, ks);
    forall i | 0 <= i < |sizes|
      ensures groups[i] != [] && Counts(groups[i]) && AllOfSize(groups[i], sizes[i])
      ensures forall p: RasterPage | p in groups[i] :: p.md5 == md5
      ensures GroupFine(groups[i]) <==> SizeIsRight(server, i, md5, sizes[i], limit, ks[i])
      ensures SizeDone(server, i, md5, sizes[i], limit) <==> SizeIsRight(server, i, md5, sizes[i], limit, ks[i])
    {
      hide StopsAfter, SizeIsRight, GroupFine, Counts, AllOfSize, Pages;
      assert StopsAfter(server, i, sizes[i], limit, ks[i]);
      PagesShape(server, i, md5, sizes[i], limit, ks[i]);
      StoppedIsFine(server, i, md5, sizes[i], limit, ks[i]);
      if SizeDone(server, i, md5, sizes[i], limit) {
        var k: nat :| SizeIsRight(server, i, md5, sizes[i], limit, k);
        RunIsUnique(server, i, md5, sizes[i], limit, k, ks[i]);
      }
    }
    hide StopsAfter, SizeIsRight, GroupFine, Counts, AllOfSize, Pages, SizeDone, Complete;
    FlatIsComplete(groups, sizes, md5);
  }

  /** All pages crawled so far. */
  function Crawled(server: Server, md5: string, sizes: seq<int>, ghost limit: nat, ks: seq<nat>): seq<RasterPage>
    requires Stopped(server, sizes, limit, ks)
  {
    Flat(CrawlGroups(server, md5, sizes, ks))
  }

  lemma NothingCrawled(server: Server, md5: string, sizes: seq<int>, limit: nat)
    ensures Stopped(server, sizes, limit, []) && Crawled(server, md5, sizes, limit, []) == []
  {}

  lemma CrawlNext(server: Server, md5: string, sizes: seq<int>, limit: nat, ks: seq<nat>, k: nat)
    requires Stopped(server, sizes, limit, ks) && |ks| < |sizes| && k > 0
    requires StopsAfter(server, |ks|, sizes[|ks|], limit, k)
    ensures Stopped(server, sizes, limit, ks + [k])
    ensures Crawled(server, md5, sizes, limit, ks + [k])
         == Crawled(server, md5, sizes, limit, ks) + Pages(server, |ks|, md5, sizes[|ks|], k)
  {
    hide Pages;
    var more := CrawlGroups(server, md5, sizes, ks + [k]);
    assert more[..|ks|] == CrawlGroups(server, md5, sizes, ks);
  }

  /** The sizes asked for: the listed ones, or the single one. */
  function Sizes(requested: seq<int>, single: int): seq<int> {
    if requested == [] then [single] else requested
  }

  /** The crawl returns pages exactly when the request is valid, no size repeats and every size
      has a complete run within the page budget; it returns all these runs, in request order. */
  method FetchAllSpritePages(family: string, style: string, md5: string, requested: seq<int>, single: int,
                             server: Server, limit: nat)
    returns (r: Option<seq<RasterPage>>, ghost ks: seq<nat>)
    ensures var sizes := Sizes(requested, single);
      r.Some? <==> && family != "" && style != "" && |md5| == 32 && Distinct(sizes)
                   && forall i | 0 <= i < |sizes| :: SizeDone(server, i, md5, sizes[i], limit)
    ensures r.Some? ==> Complete(r.value, Sizes(requested, single), md5)
    ensures r.Some? ==> var sizes := Sizes(requested, single);
      && |ks| == |sizes| && Stopped(server, sizes, limit, ks)
      && r.value == Crawled(server, md5, sizes, limit, ks)
      && forall i | 0 <= i < |sizes| :: SizeIsRight(server, i, md5, sizes[i], limit, ks[i])
  {
    hide SizeIsRight, Pages, Complete, Distinct, Stopped, StopsAfter, CrawlGroups, Flat, SizeDone;
    ks := [];
    if family == "" || style == "" || |md5| != 32 { return None, ks; }
    var sizes := Sizes(requested, single);
    var all: seq<RasterPage> := [];
    NothingCrawled(server, md5, sizes, limit);
    for i := 0 to |sizes|
      invariant |ks| == i && Stopped(server, sizes, limit, ks)
      invariant all == Crawled(server, md5, sizes, limit, ks)
    {
      var pages, k := FetchSize(server, i, md5, sizes[i], limit);
      if pages.None? {
        NothingFetched(server, i, md5, sizes[i], limit);
        return None, ks;
      }
      CrawlNext(server, md5, sizes, limit, ks, k);
      ks := ks + [k];
      all := all + pages.value;
    }
    CrawlIsComplete(server, md5, sizes, limit, ks);
    var complete := IsCompleteRasterPages(all, sizes, md5);
    if !complete { return None, ks; }
    r := Some(all);
  }

  lemma NothingFetched(server: Server, i: int, md5: string, pt: int, limit: nat)
    requires StopsAfter(server, i, pt, limit, 0)
    ensures !SizeDone(server, i, md5, pt, limit)
  {
    forall k: nat
      ensures !SizeIsRight(server, i, md5, pt, limit, k)
    {
      assert k >= 2 && AnswersUpto(server, i, pt, k) ==> Answers(server, i, pt, 1);
    }
  }
}
