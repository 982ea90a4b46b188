/** The browser evaluator's measurements, the capture checks on what it returns, and both together. */
module CanvasCapture {
  import opened RasterPages
  import opened SizeGroups
  import opened CanvasPagination

  // ---------------------------------------------------------------- measuring

  /** One candidate rendered at one size: whether it looks like a fallback font, the ink bounds
      and the advance rounded up. */
  datatype Render = Render(fallback: bool, minX: int, maxX: int, minY: int, maxY: int, advance: int)

  predicate Blank(r: Render) { r.maxX < r.minX || r.maxY < r.minY }

  /** The target font shows a glyph of its own: ink, or the one blank glyph that is allowed. */
  predicate IsProven(cp: int, r: Render) {
    cp == 32 || (!r.fallback && !Blank(r))
  }

  function AtLeastOne(n: int): (r: int)
    ensures r >= 1
  {
    if n < 1 then 1 else n
  }

  /** How a proven glyph enters pagination: its ink box, or for a blank space its advance and size. */
  function Cell(cp: int, r: Render, pt: int): Proven {
    if Blank(r) then Proven(cp, AtLeastOne(r.advance), AtLeastOne(pt), true)
    else Proven(cp, r.maxX - r.minX + 1, r.maxY - r.minY + 1, false)
  }

  /** The proven candidates in candidate order. */
  function ProvenOf(candidates: seq<int>, pt: int, render: (int, int) -> Render): (r: seq<Proven>)
    ensures |r| <= |candidates|
  {
    if candidates == [] then [] else
      var n := |candidates| - 1;
      var cp := candidates[n];
      ProvenOf(candidates[..n], pt, render)
      + if IsProven(cp, render(pt, cp)) then [Cell(cp, render(pt, cp), pt)] else []
  }

  function CodePoints(glyphs: seq<Proven>): (r: seq<int>)
    ensures |r| == |glyphs| && forall i | 0 <= i < |r| :: r[i] == glyphs[i].codePoint
  {
    seq(|glyphs|, i requires 0 <= i < |glyphs| => glyphs[i].codePoint)
  }

  lemma {:induction false} ProvenMembers(candidates: seq<int>, pt: int, render: (int, int) -> Render, cp: int)
    ensures cp in CodePoints(ProvenOf(candidates, pt, render)) <==> cp in candidates && IsProven(cp, render(pt, cp))
  {
    if candidates != [] {
      var n := |candidates| - 1;
      ProvenMembers(candidates[..n], pt, render, cp);
      var before, all := ProvenOf(candidates[..n], pt, render), ProvenOf(candidates, pt, render);
      assert candidates == candidates[..n] + [candidates[n]];
      assert CodePoints(all) == CodePoints(before)
        + if IsProven(candidates[n], render(pt, candidates[n])) then [candidates[n]] else [];
    }
  }

  /** Ink of its own: some of it, and not as a fallback font would draw it. */
  predicate ShowsInk(r: Render) { !r.fallback && r.minX <= r.maxX && r.minY <= r.maxY }

  /** The cell ends on the last ink column and row when it starts on the first; without ink it is the
      space, as wide as its advance and as high as its size. */
  predicate Fits(g: Proven, r: Render, pt: int) {
    if r.minX <= r.maxX && r.minY <= r.maxY
    then !g.isSpace && r.minX + g.w == r.maxX + 1 && r.minY + g.h == r.maxY + 1
    else g.isSpace && g.w >= 1 && g.h >= 1 && g.w >= r.advance && g.h >= pt
         && (g.w == 1 || g.w == r.advance) && (g.h == 1 || g.h == pt)
  }

  predicate FitsRender(g: Proven, pt: int, render: (int, int) -> Render) { Fits(g, render(pt, g.codePoint), pt) }

  lemma {:induction false} ProvenFit(candidates: seq<int>, pt: int, render: (int, int) -> Render)
    ensures forall g | g in ProvenOf(candidates, pt, render) :: FitsRender(g, pt, render)
  {
    if candidates != [] {
      var n := |candidates| - 1;
      ProvenFit(candidates[..n], pt, render);
      if IsProven(candidates[n], render(pt, candidates[n])) { CellFits(candidates[n], pt, render); }
      hide FitsRender, Cell;
    }
  }

  lemma CellFits(cp: int, pt: int, render: (int, int) -> Render)
    requires IsProven(cp, render(pt, cp))
    ensures FitsRender(Cell(cp, render(pt, cp), pt), pt, render)
  {}

  /** What measuring guarantees: ink on every cell, no repetition, only U+0020 without ink. */
  ghost predicate Measured(glyphs: seq<Proven>) {
    && Distinct(CodePoints(glyphs))
    && forall i | 0 <= i < |glyphs| :: Inked(glyphs[i]) && (glyphs[i].isSpace ==> glyphs[i].codePoint == 32)
  }

  lemma {:induction false} ProvenIsMeasured(candidates: seq<int>, pt: int, render: (int, int) -> Render)
    requires Distinct(candidates)
    ensures Measured(ProvenOf(candidates, pt, render))
  {
    if candidates != [] {
      var n := |candidates| - 1;
      ProvenIsMeasured(candidates[..n], pt, render);
      var before := CodePoints(ProvenOf(candidates[..n], pt, render));
      ProvenMembers(candidates[..n], pt, render, candidates[n]);
      assert candidates[n] !in candidates[..n];
      assert candidates[n] !in before;
    }
  }

  /** One size as the evaluator returns it; attested stands for the face and provenance checks. */
  datatype SizeResult = SizeResult(pt: int, attested: bool, required: seq<int>, candidates: seq<int>,
    proven: seq<int>, rejected: seq<int>, pages: seq<CanvasPage>)

  /** The code points seen so far are split into proven and rejected ones. */
  ghost predicate Split(seen: seq<int>, pt: int, render: (int, int) -> Render, glyphs: seq<Proven>,
                        rejected: seq<int>) {
    && glyphs == ProvenOf(seen, pt, render)
    && forall cp :: cp in rejected <==> cp in seen && !IsProven(cp, render(pt, cp))
  }

  lemma SplitSnoc(candidates: seq<int>, i: nat, pt: int, render: (int, int) -> Render, glyphs: seq<Proven>,
                  rejected: seq<int>)
    requires i < |candidates| && Split(candidates[..i], pt, render, glyphs, rejected)
    ensures var cp := candidates[i];
      if IsProven(cp, render(pt, cp))
      then Split(candidates[..i + 1], pt, render, glyphs + [Cell(cp, render(pt, cp), pt)], rejected)
      else Split(candidates[..i + 1], pt, render, glyphs, rejected + [cp])
  {
    assert candidates[..i + 1][..i] == candidates[..i];
    assert candidates[..i + 1] == candidates[..i] + [candidates[i]];
  }

  lemma SplitMeans(candidates: seq<int>, pt: int, render: (int, int) -> Render, glyphs: seq<Proven>, rejected: seq<int>)
    requires Split(candidates, pt, render, glyphs, rejected)
    ensures forall cp :: cp in rejected <==> cp in candidates && cp !in CodePoints(glyphs)
  {
    forall cp
      ensures cp in rejected <==> cp in candidates && cp !in CodePoints(glyphs)
    {
      ProvenMembers(candidates, pt, render, cp);
    }
  }

  lemma SplitNothing(candidates: seq<int>, pt: int, render: (int, int) -> Render)
    ensures Split(candidates[..0], pt, render, [], [])
  {}

  method Classify(candidates: seq<int>, pt: int, render: (int, int) -> Render)
    returns (glyphs: seq<Proven>, proven: seq<int>, rejected: seq<int>)
    ensures glyphs == ProvenOf(candidates, pt, render) && proven == CodePoints(glyphs)
    ensures forall cp :: cp in rejected <==> cp in candidates && cp !in proven
    ensures forall cp :: cp in proven <==> cp in candidates && (cp == 32 || ShowsInk(render(pt, cp)))
    ensures forall g | g in glyphs :: FitsRender(g, pt, render)
  {
    hide Split;
    glyphs, proven, rejected := [], [], [];
    SplitNothing(candidates, pt, render);
    for i := 0 to |candidates|
      invariant Split(candidates[..i], pt, render, glyphs, rejected) && proven == CodePoints(glyphs)
    {
      var cp := candidates[i];
      var r := render(pt, cp);
      SplitSnoc(candidates, i, pt, render, glyphs, rejected);
      if cp != 32 && r.fallback {
        rejected := rejected + [cp];
        continue;
      }
      if r.maxX < r.minX || r.maxY < r.minY {
        if cp == 32 {
          glyphs, proven := glyphs + [Proven(32, AtLeastOne(r.advance), AtLeastOne(pt), true)], proven + [32];
        } else {
          rejected := rejected + [cp];
        }
        continue;
      }
      glyphs := glyphs + [Proven(cp, r.maxX - r.minX + 1, r.maxY - r.minY + 1, false)];
      proven := proven + [cp];
    }
    assert candidates[..|candidates|] == candidates;
    SplitMeans(candidates, pt, render, glyphs, rejected);
    ProvenFit(candidates, pt, render);
    forall cp
      ensures cp in proven <==> cp in candidates && IsProven(cp, render(pt, cp))
    {
      SplitIs(candidates, pt, render, glyphs, rejected);
      ProvenMembers(candidates, pt, render, cp);
    }
    assert glyphs == ProvenOf(candidates, pt, render) by { SplitIs(candidates, pt, render, glyphs, rejected); }
  }

  lemma SplitIs(candidates: seq<int>, pt: int, render: (int, int) -> Render, glyphs: seq<Proven>, rejected: seq<int>)
    requires Split(candidates, pt, render, glyphs, rejected)
    ensures glyphs == ProvenOf(candidates, pt, render)
  {}

  // ---------------------------------------------------------------- the capture checks

  predicate GlyphCaptured(g: Glyph, png: Png, proven: seq<int>)
    requires png.Png?
  {
    && g.Glyph? && g.codePoint in proven
    && if g.isSpace then g.codePoint == 32 && g.box == SpriteBox(0, 0, 0, 0)
       else && g.box.x >= 0 && g.box.y >= 0 && g.box.width > 0 && g.box.height > 0
            && g.box.x + g.box.width <= png.width && g.box.y + g.box.height <= png.height
  }

  ghost predicate PageCaptured(p: CanvasPage, proven: seq<int>) {
    && p.png.Png? && p.png.width > 0 && p.png.height > 0
    && forall i | 0 <= i < |p.glyphs| :: GlyphCaptured(p.glyphs[i], p.png, proven)
  }

  ghost predicate PagesCaptured(pages: seq<CanvasPage>, proven: seq<int>) {
    forall i | 0 <= i < |pages| :: PageCaptured(pages[i], proven)
  }

  function CodesOf(gs: seq<Glyph>): (r: seq<int>)
    requires AllDecoded(gs)
    ensures |r| == |gs| && forall i | 0 <= i < |r| :: r[i] == gs[i].codePoint
  {
    seq(|gs|, i requires 0 <= i < |gs| => gs[i].codePoint)
  }

  /** Only the last page is final and names no next page. */
  predicate PageNumbered(pages: seq<CanvasPage>, i: nat)
    requires i < |pages|
  {
    if i == |pages| - 1 then pages[i].final && pages[i].nextCursor == 0
    else !pages[i].final && pages[i].nextCursor != 0
  }

  /** One size passes the capture checks. */
  ghost predicate Captured(res: SizeResult, requested: seq<int>) {
    && res.pt in requested && res.attested
    && res.required != [] && res.candidates != [] && res.proven != [] && res.pages != []
    && (forall cp | cp in res.required :: cp in res.proven)
    && (forall cp :: cp in res.candidates <==> cp in res.proven || cp in res.rejected)
    && (forall cp | cp in res.proven :: cp !in res.rejected)
    && (forall i | 0 <= i < |res.pages| :: res.pages[i].pageIndex == i + 1 && PageNumbered(res.pages, i))
    && (|res.pages| == 1 ==> res.pages[0].glyphs != [])
    && PagesCaptured(res.pages, res.proven)
    && AllDecoded(AllGlyphs(res.pages))
    && multiset(CodesOf(AllGlyphs(res.pages))) == multiset(Values(res.proven))
  }

  function ToRaster(p: CanvasPage, pt: int, md5: string): RasterPage {
    RasterPage(p.pageIndex, |p.glyphs|, p.png, p.nextCursor, p.final, md5, Some(pt), Some(p.glyphs))
  }

  function ToRasters(pages: seq<CanvasPage>, pt: int, md5: string): (r: seq<RasterPage>)
    ensures |r| == |pages| && forall i | 0 <= i < |r| :: r[i] == ToRaster(pages[i], pt, md5)
  {
    seq(|pages|, i requires 0 <= i < |pages| => ToRaster(pages[i], pt, md5))
  }

  ghost predicate OnPage(p: CanvasPage, holds: Glyph -> bool) {
    forall j | 0 <= j < |p.glyphs| :: holds(p.glyphs[j])
  }

  ghost predicate OnAll(gs: seq<Glyph>, holds: Glyph -> bool) { forall k | 0 <= k < |gs| :: holds(gs[k]) }

  lemma OnAllAppend(a: seq<Glyph>, b: seq<Glyph>, holds: Glyph -> bool)
    ensures OnAll(a + b, holds) <==> OnAll(a, holds) && OnAll(b, holds)
  {
    assert forall k | 0 <= k < |a| :: (a + b)[k] == a[k];
    assert forall k | 0 <= k < |b| :: (a + b)[|a| + k] == b[k];
  }

  lemma {:induction false} Everywhere(pages: seq<CanvasPage>, holds: Glyph -> bool)
    ensures (forall i | 0 <= i < |pages| :: OnPage(pages[i], holds)) <==> OnAll(AllGlyphs(pages), holds)
  {
    if pages != [] {
      var n := |pages| - 1;
      Everywhere(pages[..n], holds);
      OnAllAppend(AllGlyphs(pages[..n]), pages[n].glyphs, holds);
      assert OnPage(pages[n], holds) <==> OnAll(pages[n].glyphs, holds);
      assert forall i | 0 <= i < n :: pages[..n][i] == pages[i];
    }
  }

  method CapturePage(p: CanvasPage, proven: seq<int>) returns (ok: bool, codes: seq<int>)
    ensures ok <==> PageCaptured(p, proven)
    ensures ok ==> AllDecoded(p.glyphs) && codes == CodesOf(p.glyphs)
  {
    codes := [];
    if p.png.NotPng? || p.png.width <= 0 || p.png.height <= 0 { return false, codes; }
    for i := 0 to |p.glyphs|
      invariant forall j | 0 <= j < i :: GlyphCaptured(p.glyphs[j], p.png, proven)
      invariant |codes| == i && forall j | 0 <= j < i :: codes[j] == p.glyphs[j].codePoint
    {
      var g := p.glyphs[i];
      if g.Malformed? || g.codePoint !in proven { return false, codes; }
      codes := codes + [g.codePoint];
      var (x, y, w, h) := (g.box.x, g.box.y, g.box.width, g.box.height);
      if g.isSpace {
        if g.codePoint != 32 || x != 0 || y != 0 || w != 0 || h != 0 { return false, codes; }
        continue;
      }
      if x < 0 || y < 0 || w <= 0 || h <= 0 || x + w > p.png.width || y + h > p.png.height { return false, codes; }
    }
    ok := true;
  }

  ghost predicate AllDecoded(gs: seq<Glyph>) { forall i | 0 <= i < |gs| :: gs[i].Glyph? }

  lemma CollectPage(pages: seq<CanvasPage>, i: nat)
    requires i < |pages| && AllDecoded(AllGlyphs(pages[..i])) && AllDecoded(pages[i].glyphs)
    ensures AllDecoded(AllGlyphs(pages[..i + 1]))
    ensures CodesOf(AllGlyphs(pages[..i + 1])) == CodesOf(AllGlyphs(pages[..i])) + CodesOf(pages[i].glyphs)
  {
    assert pages[..i + 1][..i] == pages[..i];
  }

  lemma SubsetMeans(a: seq<int>, b: seq<int>)
    ensures Values(a) <= Values(b) <==> forall x | x in a :: x in b
  {
    if Values(a) <= Values(b) {
      forall x | x in a
        ensures x in b
      {
        assert x in Values(a) && x in Values(b);
      }
    }
    if forall x | x in a :: x in b {
      forall x | x in Values(a)
        ensures x in Values(b)
      {
        assert x in a;
      }
    }
  }

  lemma DisjointMeans(a: seq<int>, b: seq<int>)
    ensures Values(a) * Values(b) == {} <==> forall x | x in a :: x !in b
  {
    if Values(a) * Values(b) == {} {
      forall x | x in a
        ensures x !in b
      {
        assert x !in Values(a) * Values(b);
      }
    }
    if forall x | x in a :: x !in b {
      forall x
        ensures x !in Values(a) * Values(b)
      {}
    }
  }

  lemma UnionMeans(c: seq<int>, a: seq<int>, b: seq<int>)
    ensures Values(c) == Values(a) + Values(b) <==> forall x :: x in c <==> x in a || x in b
  {
    if Values(c) == Values(a) + Values(b) {
      forall x
        ensures x in c <==> x in a || x in b
      {
        assert x in Values(c) <==> x in Values(a) + Values(b);
      }
    }
    if forall x :: x in c <==> x in a || x in b {
      forall x
        ensures x in Values(c) <==> x in Values(a) + Values(b)
      {
        assert x in c <==> x in a || x in b;
      }
    }
  }

  method SetsAgree(res: SizeResult) returns (ok: bool)
    ensures ok <==>
      && (forall cp | cp in res.required :: cp in res.proven)
      && (forall cp :: cp in res.candidates <==> cp in res.proven || cp in res.rejected)
      && (forall cp | cp in res.proven :: cp !in res.rejected)
  {
    var req, cand, prov, rej := Values(res.required), Values(res.candidates), Values(res.proven), Values(res.rejected);
    SubsetMeans(res.required, res.proven);
    UnionMeans(res.candidates, res.proven, res.rejected);
    DisjointMeans(res.proven, res.rejected);
    ok := req <= prov && cand == prov + rej && prov * rej == {};
  }

  /** The consumer's checks on one size; sorted lists of integers are equal exactly when their
      multisets are. */
  method CaptureSize(res: SizeResult, requested: seq<int>, md5: string) returns (r: Option<seq<RasterPage>>)
    ensures r.Some? <==> Captured(res, requested)
    ensures r.Some? ==> r.value == ToRasters(res.pages, res.pt, md5)
  {
    hide PageCaptured, AllGlyphs;
    var pages := res.pages;
    if res.pt !in requested || !res.attested { return None; }
    if res.required == [] || res.candidates == [] || res.proven == [] || pages == [] { return None; }
    var agree := SetsAgree(res);
    if !agree { return None; }
    for i := 0 to |pages|
      invariant forall j | 0 <= j < i :: pages[j].pageIndex == j + 1
    {
      if pages[i].pageIndex != i + 1 { return None; }
    }
    var collected: seq<int> := [];
    var out: seq<RasterPage> := [];
    NoGlyphs(pages);
    for i := 0 to |pages|
      invariant forall j | 0 <= j < i :: PageNumbered(pages, j) && PageCaptured(pages[j], res.proven)
      invariant i == 1 == |pages| ==> pages[0].glyphs != []
      invariant AllDecoded(AllGlyphs(pages[..i])) && collected == CodesOf(AllGlyphs(pages[..i]))
      invariant |out| == i && forall j | 0 <= j < i :: out[j] == ToRaster(pages[j], res.pt, md5)
    {
      var p := pages[i];
      if i == |pages| - 1 {
        if !p.final || p.nextCursor != 0 { return None; }
      } else {
        if p.final || p.nextCursor == 0 { return None; }
      }
      if i == |pages| - 1 && p.glyphs == [] && |pages| == 1 { return None; }
      var good, codes := CapturePage(p, res.proven);
      if !good { return None; }
      CollectPage(pages, i);
      collected := collected + codes;
      out := out + [ToRaster(p, res.pt, md5)];
    }
    assert pages[..|pages|] == pages;
    if multiset(collected) != multiset(Values(res.proven)) { return None; }
    r := Some(out);
  }

  lemma NoGlyphs(pages: seq<CanvasPage>)
    ensures AllGlyphs(pages[..0]) == []
  {}
}
