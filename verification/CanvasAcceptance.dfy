/** Pagination meets its consumer: exactly when the capture checks and the completeness gate accept
    what the evaluator drew. */
module CanvasAcceptance {
  import opened RasterPages
  import opened SizeGroups
  import opened CanvasPagination
  import opened CanvasCapture

  /** A cell of this size fits a page once it starts at the first column and row. */
  predicate Small(g: Proven) { g.isSpace || (g.w <= PAGE - GAP && g.h <= PAGE - GAP) }

  ghost predicate AllSmall(glyphs: seq<Proven>) { forall i | 0 <= i < |glyphs| :: Small(glyphs[i]) }

  ghost predicate AllPositive(glyphs: seq<Proven>) { forall i | 0 <= i < |glyphs| :: glyphs[i].codePoint > 0 }

  predicate KeepsMargin(g: Glyph) { IsCell(g) ==> Margin(g.box) }

  lemma MarginsEverywhere(pages: seq<CanvasPage>)
    requires TidyPages(pages)
    ensures OnAll(AllGlyphs(pages), KeepsMargin)
  {
    Everywhere(pages, KeepsMargin);
    assert forall i | 0 <= i < |pages| :: Tidy(pages[i].glyphs);
  }

  /** With its margin kept, a drawn cell lies in the page exactly when it is small. */
  lemma DrawnFits(g: Glyph, p: Proven, png: Png)
    requires Draws(g, p) && KeepsMargin(g) && Inked(p) && (p.isSpace ==> p.codePoint == 32) && png == Png(PAGE, PAGE)
    ensures GlyphOk(g, png) <==> p.codePoint > 0 && Small(p)
    ensures forall proven: seq<int> | p.codePoint in proven :: GlyphCaptured(g, png, proven) <==> Small(p)
  {}

  lemma CapturedIsSmall(pages: seq<CanvasPage>, glyphs: seq<Proven>)
    requires Paginated(pages, glyphs) && Measured(glyphs)
    ensures PagesCaptured(pages, CodePoints(glyphs)) <==> AllSmall(glyphs)
  {
    hide Tidy, EmptyFirst, Numbered, Distinct, Small, GlyphCaptured, KeepsMargin, Draws;
    var proven := CodePoints(glyphs);
    var takes := (g: Glyph) => GlyphCaptured(g, Png(PAGE, PAGE), proven);
    MarginsEverywhere(pages);
    Everywhere(pages, takes);
    forall i | 0 <= i < |pages|
      ensures PageCaptured(pages[i], proven) <==> OnPage(pages[i], takes)
    {}
    var all := AllGlyphs(pages);
    forall k | 0 <= k < |all|
      ensures takes(all[k]) <==> Small(glyphs[k])
    {
      assert proven[k] == glyphs[k].codePoint;
      DrawnFits(all[k], glyphs[k], Png(PAGE, PAGE));
    }
  }

  lemma {:induction false} DistinctMultiset(s: seq<int>)
    requires Distinct(s)
    ensures multiset(s) == multiset(Values(s))
  {
    if s != [] {
      var n := |s| - 1;
      DistinctMultiset(s[..n]);
      assert s == s[..n] + [s[n]];
      assert Values(s) == Values(s[..n]) + {s[n]} && s[n] !in Values(s[..n]);
    }
  }

  lemma DrawnCodes(pages: seq<CanvasPage>, glyphs: seq<Proven>)
    requires Paginated(pages, glyphs)
    ensures AllDecoded(AllGlyphs(pages)) && CodesOf(AllGlyphs(pages)) == CodePoints(glyphs)
  {
    hide Numbered, TidyPages, EmptyFirst;
  }

  /** What the evaluator returns for one size. */
  ghost predicate FromCanvas(res: SizeResult, pt: int, required: seq<int>, candidates: seq<int>, attested: bool,
                          glyphs: seq<Proven>) {
    && res.pt == pt && res.attested == attested && res.required == required && res.candidates == candidates
    && glyphs != [] && Measured(glyphs) && res.proven == CodePoints(glyphs) && Paginated(res.pages, glyphs)
    && (forall cp | cp in res.proven :: cp in candidates)
    && (forall cp :: cp in res.rejected <==> cp in candidates && cp !in res.proven)
  }

  ghost predicate Covers(glyphs: seq<Proven>, required: seq<int>) {
    required != [] && forall cp | cp in required :: cp in CodePoints(glyphs)
  }

  lemma CanvasIsCaptured(res: SizeResult, requested: seq<int>, required: seq<int>, candidates: seq<int>,
                         attested: bool, glyphs: seq<Proven>)
    requires FromCanvas(res, res.pt, required, candidates, attested, glyphs) && res.pt in requested
    ensures Captured(res, requested) <==> attested && Covers(glyphs, required) && AllSmall(glyphs)
  {
    hide AllSmall, TidyPages, Measured;
    CapturedIsSmall(res.pages, glyphs);
    DrawnCodes(res.pages, glyphs);
    MeasuredIsDistinct(glyphs);
    DistinctMultiset(res.proven);
    assert res.proven[0] in candidates;
    hide PagesCaptured, EmptyFirst, DrawsAll, Distinct, Values;
    assert res.pages != [] && |res.proven| > 0;
    assert forall i | 0 <= i < |res.pages| :: res.pages[i].pageIndex == i + 1 && PageNumbered(res.pages, i);
  }

  lemma MeasuredIsDistinct(glyphs: seq<Proven>)
    requires Measured(glyphs)
    ensures Distinct(CodePoints(glyphs))
  {}

  // ---------------------------------------------------------------- the gate

  lemma RastersAreOk(pages: seq<CanvasPage>, glyphs: seq<Proven>, pt: int, md5: string)
    requires Paginated(pages, glyphs) && Measured(glyphs) && glyphs != []
    ensures PagesOk(ToRasters(pages, pt, md5))
       <==> pt > 0 && |md5| == 32 && AllPositive(glyphs) && AllSmall(glyphs)
  {
    hide Tidy, EmptyFirst, Numbered, Distinct, Small, GlyphOk, KeepsMargin, Draws;
    var png := Png(PAGE, PAGE);
    var takes := (g: Glyph) => GlyphOk(g, png);
    MarginsEverywhere(pages);
    Everywhere(pages, takes);
    var all, rasters := AllGlyphs(pages), ToRasters(pages, pt, md5);
    forall k | 0 <= k < |all|
      ensures takes(all[k]) <==> glyphs[k].codePoint > 0 && Small(glyphs[k])
    {
      DrawnFits(all[k], glyphs[k], png);
    }
    hide DrawsAll;
    forall i | 0 <= i < |pages|
      ensures PageOk(rasters[i]) <==> pt > 0 && |md5| == 32 && OnPage(pages[i], takes)
    {
      assert rasters[i] == ToRaster(pages[i], pt, md5);
    }
    hide PageOk, OnPage;
    assert forall i | 0 <= i < |pages| :: rasters[i] in rasters;
    assert rasters[0] in rasters;
  }

  lemma CodesOfLast(pages: seq<CanvasPage>)
    requires pages != [] && AllDecoded(AllGlyphs(pages)) && AllDecoded(pages[|pages| - 1].glyphs)
    ensures var n := |pages| - 1;
            && AllDecoded(AllGlyphs(pages[..n]))
            && CodesOf(AllGlyphs(pages)) == CodesOf(AllGlyphs(pages[..n])) + CodesOf(pages[n].glyphs)
  {
    var (all, a) := (AllGlyphs(pages), AllGlyphs(pages[..|pages| - 1]));
    assert all == a + pages[|pages| - 1].glyphs;
    forall i | 0 <= i < |a|
      ensures a[i].Glyph?
    {
      assert all[i] == a[i];
    }
  }

  lemma AllCodesLast(ps: seq<RasterPage>)
    requires ps != [] && AllOk(ps)
    ensures var n := |ps| - 1;
            AllOk(ps[..n]) && PageOk(ps[n]) && AllCodes(ps) == AllCodes(ps[..n]) + Codes(ps[n])
  {
    hide PageOk, Codes;
  }

  lemma {:induction false} RasterCodes(pages: seq<CanvasPage>, pt: int, md5: string)
    requires AllOk(ToRasters(pages, pt, md5)) && AllDecoded(AllGlyphs(pages))
    ensures AllCodes(ToRasters(pages, pt, md5)) == CodesOf(AllGlyphs(pages))
  {
    if pages != [] {
      hide PageOk, AllOk, AllDecoded, AllCodes, Codes, AllGlyphs, ToRaster;
      var n := |pages| - 1;
      var rasters := ToRasters(pages, pt, md5);
      assert rasters[..n] == ToRasters(pages[..n], pt, md5);
      AllCodesLast(rasters);
      LastCodes(rasters[n], pages[n], pt, md5);
      CodesOfLast(pages);
      RasterCodes(pages[..n], pt, md5);
    }
  }

  lemma LastCodes(r: RasterPage, p: CanvasPage, pt: int, md5: string)
    requires r == ToRaster(p, pt, md5) && PageOk(r)
    ensures AllDecoded(p.glyphs) && Codes(r) == CodesOf(p.glyphs)
  {}

  lemma RastersShape(pages: seq<CanvasPage>, glyphs: seq<Proven>, pt: int, md5: string)
    requires Paginated(pages, glyphs) && glyphs != []
    ensures var rs := ToRasters(pages, pt, md5);
      && rs != [] && Counts(rs) && AllOfSize(rs, pt) && (forall p: RasterPage | p in rs :: p.md5 == md5)
      && Terminal(rs[|rs| - 1]) && rs[|rs| - 1].glyphCount != 0
      && ((forall i | 0 <= i < |rs| - 1 :: Live(rs[i])) <==> FirstFits(glyphs[0]))
  {
    hide TidyPages, DrawsAll, FirstFits;
    var rs := ToRasters(pages, pt, md5);
    assert forall i | 0 <= i < |rs| :: rs[i].pageIndex == i + 1;
    forall i | 1 <= i < |rs| - 1
      ensures Live(rs[i])
    {
      assert pages[i].glyphs != [];
    }
    if |rs| > 1 { assert Live(rs[0]) <==> pages[0].glyphs != []; }
  }

  lemma RastersAreGood(pages: seq<CanvasPage>, glyphs: seq<Proven>, pt: int, md5: string)
    requires Paginated(pages, glyphs) && Measured(glyphs) && glyphs != [] && PagesOk(ToRasters(pages, pt, md5))
    ensures GoodGroup(ToRasters(pages, pt, md5)) <==> FirstFits(glyphs[0])
  {
    hide Paginated, Measured, PageOk, GoodGroup, Unseen, FirstFits, AllCodes, TotalGlyphs;
    var rs := ToRasters(pages, pt, md5);
    RastersShape(pages, glyphs, pt, md5);
    DrawnCodes(pages, glyphs);
    MeasuredIsDistinct(glyphs);
    assert AllOk(rs) by { assert forall i | 0 <= i < |rs| :: rs[i] in rs; }
    RasterCodes(pages, pt, md5);
    UnseenMeans({}, AllCodes(rs));
    assert Unseen({}, AllCodes(rs));
    TotalIsZero(rs);
    assert rs[|rs| - 1] in rs;
    SortedIsGood(rs);
  }

  /** What one size must show: a positive size, positive code points, cells that fit. */
  ghost predicate Placeable(glyphs: seq<Proven>, pt: int) {
    && glyphs != [] && FirstFits(glyphs[0]) && AllSmall(glyphs) && AllPositive(glyphs) && pt > 0
  }

  lemma CanvasGroupIsFine(pages: seq<CanvasPage>, glyphs: seq<Proven>, pt: int, md5: string)
    requires Paginated(pages, glyphs) && Measured(glyphs) && glyphs != []
    ensures GroupFine(ToRasters(pages, pt, md5)) <==> Placeable(glyphs, pt) && |md5| == 32
  {
    hide Paginated, Measured, PagesOk, GoodGroup, FirstFits, AllSmall, AllPositive;
    RastersAreOk(pages, glyphs, pt, md5);
    if PagesOk(ToRasters(pages, pt, md5)) { RastersAreGood(pages, glyphs, pt, md5); }
  }

  /** Cells with the promised room are always placeable. */
  lemma RoomIsEnough(glyphs: seq<Proven>, pt: int)
    requires glyphs != [] && AllPositive(glyphs) && pt > 0
    requires forall i | 0 <= i < |glyphs| :: glyphs[i].w + 2 * GAP <= PAGE && glyphs[i].h + 2 * GAP <= PAGE
    ensures Placeable(glyphs, pt)
  {}

  // ---------------------------------------------------------------- all sizes, both sides

  function RasterGroups(results: seq<SizeResult>, md5: string): (r: seq<seq<RasterPage>>)
    ensures |r| == |results|
    ensures forall i | 0 <= i < |r| :: r[i] == ToRasters(results[i].pages, results[i].pt, md5)
  {
    seq(|results|, i requires 0 <= i < |results| => ToRasters(results[i].pages, results[i].pt, md5))
  }

  ghost predicate AllCaptured(results: seq<SizeResult>, requested: seq<int>) {
    forall i | 0 <= i < |results| :: Captured(results[i], requested)
  }

  /** The consumer, on whatever the evaluator returned. */
  method CaptureRasterPages(results: seq<SizeResult>, requested: seq<int>, md5: string)
    returns (r: Option<seq<RasterPage>>)
    ensures r.Some? <==>
      && results != [] && AllCaptured(results, requested)
      && Complete(Flat(RasterGroups(results, md5)), requested, md5)
    ensures r.Some? ==> r.value == Flat(RasterGroups(results, md5))
  {
    hide Captured, Complete;
    if results == [] { return None; }
    var out: seq<RasterPage> := [];
    for i := 0 to |results|
      invariant forall j | 0 <= j < i :: Captured(results[j], requested)
      invariant out == Flat(RasterGroups(results[..i], md5))
    {
      var pages := CaptureSize(results[i], requested, md5);
      if pages.None? { return None; }
      var groups := RasterGroups(results[..i + 1], md5);
      assert groups[..i] == RasterGroups(results[..i], md5);
      out := out + pages.value;
    }
    assert results[..|results|] == results;
    var ok := IsCompleteRasterPages(out, requested, md5);
    if !ok { return None; }
    r := Some(out);
  }

  ghost predicate EvaluatedSize(res: SizeResult, pt: int, required: seq<int>, candidates: seq<int>, attested: bool,
                                render: (int, int) -> Render) {
    FromCanvas(res, pt, required, candidates, attested, ProvenOf(candidates, pt, render))
  }

  method EvaluateSize(pt: int, required: seq<int>, candidates: seq<int>, attested: bool, render: (int, int) -> Render)
    returns (r: Option<SizeResult>)
    requires Distinct(candidates)
    ensures r.Some? <==> ProvenOf(candidates, pt, render) != []
    ensures r.Some? ==> EvaluatedSize(r.value, pt, required, candidates, attested, render)
  {
    hide Distinct, Paginated;
    var glyphs, proven, rejected := Classify(candidates, pt, render);
    if glyphs == [] { return None; }
    ProvenIsMeasured(candidates, pt, render);
    var pages, _ := Paginate(glyphs);
    forall cp | cp in proven
      ensures cp in candidates
    {
      ProvenMembers(candidates, pt, render, cp);
    }
    r := Some(SizeResult(pt, attested, required, candidates, proven, rejected, pages));
  }

  /** The evaluator: every requested size is measured and paginated; one size without a proven
      glyph makes the whole evaluation an error. */
  method EvaluateCanvas(requested: seq<int>, required: seq<int>, candidates: seq<int>, attested: bool,
                        render: (int, int) -> Render)
    returns (r: Option<seq<SizeResult>>)
    requires Distinct(candidates)
    ensures r.Some? <==> forall i | 0 <= i < |requested| :: ProvenOf(candidates, requested[i], render) != []
    ensures r.Some? ==> |r.value| == |requested| && forall i | 0 <= i < |requested| ::
      EvaluatedSize(r.value[i], requested[i], required, candidates, attested, render)
  {
    hide EvaluatedSize;
    var results: seq<SizeResult> := [];
    for i := 0 to |requested|
      invariant |results| == i && forall j | 0 <= j < i :: ProvenOf(candidates, requested[j], render) != []
      invariant forall j | 0 <= j < i :: EvaluatedSize(results[j], requested[j], required, candidates, attested, render)
    {
      var res := EvaluateSize(requested[i], required, candidates, attested, render);
      if res.None? { return None; }
      results := results + [res.value];
    }
    r := Some(results);
  }

  /** Everything a request needs in order to succeed. */
  ghost predicate Acceptable(requested: seq<int>, required: seq<int>, candidates: seq<int>, attested: bool,
                             render: (int, int) -> Render, md5: string) {
    && attested && |md5| == 32 && requested != [] && Distinct(requested)
    && forall i | 0 <= i < |requested| :: SizeAcceptable(requested[i], required, candidates, render)
  }

  ghost predicate SizeAcceptable(pt: int, required: seq<int>, candidates: seq<int>, render: (int, int) -> Render) {
    var glyphs := ProvenOf(candidates, pt, render);
    Placeable(glyphs, pt) && Covers(glyphs, required)
  }

  lemma GroupsAreSized(results: seq<SizeResult>, requested: seq<int>, required: seq<int>, candidates: seq<int>,
                       attested: bool, render: (int, int) -> Render, md5: string)
    requires |results| == |requested|
    requires forall i | 0 <= i < |requested| ::
               EvaluatedSize(results[i], requested[i], required, candidates, attested, render)
    ensures Sized(RasterGroups(results, md5), requested) && AllMd5(RasterGroups(results, md5), md5)
  {
    hide Measured, Paginated, FirstFits, Counts, AllOfSize;
    var groups := RasterGroups(results, md5);
    forall i | 0 <= i < |groups|
      ensures groups[i] != [] && Counts(groups[i]) && AllOfSize(groups[i], requested[i])
      ensures forall p: RasterPage | p in groups[i] :: p.md5 == md5
    {
      assert EvaluatedSize(results[i], requested[i], required, candidates, attested, render);
      RastersShape(results[i].pages, ProvenOf(candidates, requested[i], render), requested[i], md5);
    }
  }

  lemma SizeVerdict(res: SizeResult, requested: seq<int>, i: nat, required: seq<int>, candidates: seq<int>,
                    attested: bool, render: (int, int) -> Render, md5: string)
    requires i < |requested| && EvaluatedSize(res, requested[i], required, candidates, attested, render)
    ensures Captured(res, requested) && GroupFine(ToRasters(res.pages, res.pt, md5))
       <==> attested && |md5| == 32 && SizeAcceptable(requested[i], required, candidates, render)
  {
    hide Measured, Paginated, FirstFits, Captured, GroupFine, Covers, AllSmall, AllPositive;
    var glyphs := ProvenOf(candidates, requested[i], render);
    assert requested[i] in requested;
    CanvasIsCaptured(res, requested, required, candidates, attested, glyphs);
    CanvasGroupIsFine(res.pages, glyphs, requested[i], md5);
  }

  lemma CompleteNeedsMd5(results: seq<SizeResult>, requested: seq<int>, md5: string)
    requires results != [] && AllMd5(RasterGroups(results, md5), md5)
    requires Complete(Flat(RasterGroups(results, md5)), requested, md5)
    ensures |md5| == 32
  {
    hide Md5Bound, SizesMatch, GroupComplete, ToRasters, Flat;
    var all := Flat(RasterGroups(results, md5));
    assert all[0] in all && PageOk(all[0]);
    FlatMembers(RasterGroups(results, md5), all[0]);
  }

  /** Both sides together accept exactly the acceptable requests. */
  lemma EvaluatedIsAccepted(results: seq<SizeResult>, requested: seq<int>, required: seq<int>, candidates: seq<int>,
                            attested: bool, render: (int, int) -> Render, md5: string)
    requires |results| == |requested| > 0
    requires forall i | 0 <= i < |requested| ::
               EvaluatedSize(results[i], requested[i], required, candidates, attested, render)
    ensures AllCaptured(results, requested) && Complete(Flat(RasterGroups(results, md5)), requested, md5)
       <==> Acceptable(requested, required, candidates, attested, render, md5)
  {
    hide EvaluatedSize, Captured, GroupFine, SizeAcceptable, Complete, Sized, AllMd5, Distinct, Flat;
    var groups := RasterGroups(results, md5);
    GroupsAreSized(results, requested, required, candidates, attested, render, md5);
    forall i | 0 <= i < |requested|
      ensures Captured(results[i], requested) && GroupFine(groups[i])
         <==> attested && |md5| == 32 && SizeAcceptable(requested[i], required, candidates, render)
    {
      SizeVerdict(results[i], requested, i, required, candidates, attested, render, md5);
      assert EvaluatedSize(results[i], requested[i], required, candidates, attested, render);
      ItsSize(results[i], requested[i], required, candidates, attested, render);
    }
    if Complete(Flat(groups), requested, md5) { CompleteNeedsMd5(results, requested, md5); }
    if |md5| == 32 { FlatIsComplete(groups, requested, md5); }
    assert Captured(results[0], requested) && GroupFine(groups[0])
      <==> attested && |md5| == 32 && SizeAcceptable(requested[0], required, candidates, render);
  }

  lemma ItsSize(res: SizeResult, pt: int, required: seq<int>, candidates: seq<int>, attested: bool,
                render: (int, int) -> Render)
    requires EvaluatedSize(res, pt, required, candidates, attested, render)
    ensures res.pt == pt
  {}

  /** Measure, paginate, check, gate: the capture succeeds exactly for acceptable requests. */
  method Capture(requested: seq<int>, required: seq<int>, candidates: seq<int>, attested: bool,
                 render: (int, int) -> Render, md5: string)
    returns (r: Option<seq<RasterPage>>)
    requires Distinct(candidates)
    ensures r.Some? <==> Acceptable(requested, required, candidates, attested, render, md5)
    ensures r.Some? ==> Complete(r.value, requested, md5)
  {
    hide Distinct, Complete, EvaluatedSize, AllCaptured, Acceptable;
    var results := EvaluateCanvas(requested, required, candidates, attested, render);
    AcceptableNeeds(requested, required, candidates, attested, render, md5);
    if results.None? || results.value == [] { return None; }
    EvaluatedIsAccepted(results.value, requested, required, candidates, attested, render, md5);
    r := CaptureRasterPages(results.value, requested, md5);
  }

  lemma AcceptableNeeds(requested: seq<int>, required: seq<int>, candidates: seq<int>, attested: bool,
                        render: (int, int) -> Render, md5: string)
    ensures Acceptable(requested, required, candidates, attested, render, md5) ==>
      && requested != [] && forall i | 0 <= i < |requested| :: ProvenOf(candidates, requested[i], render) != []
  {
    hide FirstFits, AllSmall, AllPositive, Covers, Distinct;
    if Acceptable(requested, required, candidates, attested, render, md5) {
      forall i | 0 <= i < |requested|
        ensures ProvenOf(candidates, requested[i], render) != []
      {
        assert SizeAcceptable(requested[i], required, candidates, render);
      }
    }
  }

  /** One pixel less room is not enough: a first cell of height 2039 leaves an empty first page
      behind, and the gate refuses the set although the cell itself lies in its page. */
  lemma TallFirstCellIsRefused(pages: seq<CanvasPage>, pt: int, md5: string)
    requires Paginated(pages, [Proven(65, 1, 2039, false)])
    ensures !GroupFine(ToRasters(pages, pt, md5))
  {
    var glyphs := [Proven(65, 1, 2039, false)];
    assert Measured(glyphs);
    CanvasGroupIsFine(pages, glyphs, pt, md5);
    assert !FirstFits(glyphs[0]);
  }

  lemma {:induction false} FirstCandidate(candidates: seq<int>, pt: int, render: (int, int) -> Render)
    requires candidates != [] && IsProven(candidates[0], render(pt, candidates[0]))
    ensures ProvenOf(candidates, pt, render) != []
    ensures ProvenOf(candidates, pt, render)[0] == Cell(candidates[0], render(pt, candidates[0]), pt)
  {
    if |candidates| > 1 {
      FirstCandidate(candidates[..|candidates| - 1], pt, render);
    } else {
      assert ProvenOf(candidates[..0], pt, render) == [];
    }
  }

  /** A blank space as first candidate fits exactly up to size 2038 (2033 where its advance is over
      2038), its cell being as high as the size, and one larger requested size makes the whole
      capture fail. */
  lemma BlankFirstIsRefused(requested: seq<int>, required: seq<int>, candidates: seq<int>, attested: bool,
                            render: (int, int) -> Render, md5: string, pt: int)
    requires candidates != [] && candidates[0] == 32 && pt in requested && Blank(render(pt, 32))
    ensures ProvenOf(candidates, pt, render) != []
    ensures FirstFits(ProvenOf(candidates, pt, render)[0])
       <==> pt <= if render(pt, 32).advance <= 2038 then 2038 else 2033
    ensures pt >= 2039 ==> !Acceptable(requested, required, candidates, attested, render, md5)
  {
    hide ProvenOf, Covers, AllSmall, AllPositive, Distinct;
    FirstCandidate(candidates, pt, render);
    var i :| 0 <= i < |requested| && requested[i] == pt;
    assert SizeAcceptable(requested[i], required, candidates, render)
      ==> FirstFits(ProvenOf(candidates, requested[i], render)[0]);
  }
}
