/** Raster pages and the closed completeness gate that every raster source must pass. */
module RasterPages {
  import opened Sorting

  datatype Option<+T> = None | Some(value: T)

  datatype SpriteBox = SpriteBox(x: int, y: int, width: int, height: int)

  /** A decoded glyph entry; Malformed stands for any entry of the wrong shape. */
  datatype Glyph = Malformed | Glyph(codePoint: int, isSpace: bool, box: SpriteBox)

  /** Decoded image header; NotPng stands for a wrong signature or a short file. */
  datatype Png = NotPng | Png(width: nat, height: nat)

  /** One page of raster evidence. The cursor is the number of the next page, 0 for none; the
      md5 is already trimmed and lower-cased. */
  datatype RasterPage = RasterPage(
    pageIndex: int, glyphCount: int, png: Png, nextCursor: nat, final: bool,
    md5: string, acsPt: Option<int>, glyphs: Option<seq<Glyph>>)

  // ---------------------------------------------------------------- what complete means

  predicate GlyphOk(g: Glyph, png: Png) {
    && g.Glyph? && g.codePoint > 0 && png.Png?
    && if g.isSpace then g.codePoint == 32 && g.box == SpriteBox(0, 0, 0, 0)
       else && g.box.width > 0 && g.box.height > 0 && g.box.x >= 0 && g.box.y >= 0
            && g.box.x + g.box.width <= png.width && g.box.y + g.box.height <= png.height
  }

  predicate PageOk(p: RasterPage) {
    && p.png.Png? && p.png.width > 0 && p.png.height > 0
    && |p.md5| == 32
    && p.acsPt.Some? && p.acsPt.value > 0
    && p.glyphs.Some? && p.glyphCount == |p.glyphs.value|
    && forall i | 0 <= i < |p.glyphs.value| :: GlyphOk(p.glyphs.value[i], p.png)
  }

  predicate Live(p: RasterPage) { !p.final && p.nextCursor != 0 && p.glyphCount != 0 }

  predicate Terminal(p: RasterPage) { p.final || p.nextCursor == 0 || p.glyphCount == 0 }

  predicate OfSize(p: RasterPage, pt: int) { p.acsPt == Some(pt) }

  function Group(pages: seq<RasterPage>, pt: int): seq<RasterPage> {
    if pages == [] then []
    else Group(pages[..|pages| - 1], pt) + if OfSize(pages[|pages| - 1], pt) then [pages[|pages| - 1]] else []
  }

  function CodeAt(p: RasterPage, i: nat): int
    requires PageOk(p) && i < p.glyphCount
  {
    p.glyphs.value[i].codePoint
  }

  ghost predicate CodesDistinct(ps: seq<RasterPage>)
    requires forall p | p in ps :: PageOk(p)
  {
    forall p, q, i: nat, j: nat | p in ps && q in ps && i < p.glyphCount && j < q.glyphCount ::
      CodeAt(p, i) == CodeAt(q, j) ==> p.pageIndex == q.pageIndex && i == j
  }

  ghost predicate HasIndex(ps: seq<RasterPage>, j: int) {
    exists p :: p in ps && p.pageIndex == j
  }

  /** One size is complete: pages 1..k, live before the last, a terminal last page, some glyph,
      and no code point twice. */
  ghost predicate GoodGroup(ps: seq<RasterPage>)
    requires forall p | p in ps :: PageOk(p)
  {
    && ps != []
    && (forall j | 1 <= j <= |ps| :: HasIndex(ps, j))
    && (forall p | p in ps && p.pageIndex < |ps| :: Live(p))
    && (forall p | p in ps && p.pageIndex == |ps| :: Terminal(p))
    && (exists p :: p in ps && p.glyphCount != 0)
    && CodesDistinct(ps)
  }

  lemma {:induction false} GroupMembers(pages: seq<RasterPage>, pt: int, p: RasterPage)
    ensures p in Group(pages, pt) <==> p in pages && OfSize(p, pt)
  {
    if pages != [] {
      var n := |pages| - 1;
      assert pages == pages[..n] + [pages[n]];
      GroupMembers(pages[..n], pt, p);
    }
  }

  ghost predicate Md5Bound(pages: seq<RasterPage>, expected: string) {
    && (expected != "" ==> |expected| == 32)
    && (forall p | p in pages && expected != "" :: p.md5 == expected)
    && forall p, q | p in pages && q in pages :: p.md5 == q.md5
  }

  ghost predicate HasSize(pages: seq<RasterPage>, pt: int) {
    exists p :: p in pages && OfSize(p, pt)
  }

  ghost predicate SizesMatch(pages: seq<RasterPage>, requested: seq<int>) {
    requested != [] ==> forall pt :: pt in requested <==> HasSize(pages, pt)
  }

  ghost predicate GroupComplete(pages: seq<RasterPage>, pt: int) {
    (forall p | p in Group(pages, pt) :: PageOk(p)) && GoodGroup(Group(pages, pt))
  }

  ghost predicate Complete(pages: seq<RasterPage>, requested: seq<int>, expected: string) {
    && pages != []
    && (forall p | p in pages :: PageOk(p))
    && Md5Bound(pages, expected)
    && SizesMatch(pages, requested)
    && forall pt | HasSize(pages, pt) :: GroupComplete(pages, pt)
  }

  // ---------------------------------------------------------------- order does not matter

  lemma {:induction false} GroupCounts(pages: seq<RasterPage>, pt: int, p: RasterPage)
    ensures multiset(Group(pages, pt))[p] == if OfSize(p, pt) then multiset(pages)[p] else 0
  {
    if pages != [] {
      var n := |pages| - 1;
      assert pages == pages[..n] + [pages[n]];
      GroupCounts(pages[..n], pt, p);
    }
  }

  lemma GroupPermutes(a: seq<RasterPage>, b: seq<RasterPage>, pt: int)
    requires multiset(a) == multiset(b)
    ensures multiset(Group(a, pt)) == multiset(Group(b, pt))
  {
    forall p
      ensures multiset(Group(a, pt))[p] == multiset(Group(b, pt))[p]
    {
      GroupCounts(a, pt, p);
      GroupCounts(b, pt, p);
    }
  }

  lemma GoodGroupPermutes(a: seq<RasterPage>, b: seq<RasterPage>)
    requires multiset(a) == multiset(b)
    requires forall p | p in a :: PageOk(p)
    ensures forall p | p in b :: PageOk(p)
    ensures GoodGroup(a) ==> GoodGroup(b)
  {
    SameElements(a, b);
    if GoodGroup(a) {
      forall j | 1 <= j <= |b|
        ensures HasIndex(b, j)
      {
        assert HasIndex(a, j);
      }
    }
  }

  lemma CompletePermutesOneWay(a: seq<RasterPage>, b: seq<RasterPage>, requested: seq<int>, expected: string)
    requires multiset(a) == multiset(b) && Complete(a, requested, expected)
    ensures Complete(b, requested, expected)
  {
    SameElements(a, b);
    assert forall pt :: HasSize(a, pt) <==> HasSize(b, pt);
    forall pt | HasSize(b, pt)
      ensures GroupComplete(b, pt)
    {
      assert GroupComplete(a, pt);
      GroupPermutes(a, b, pt);
      GoodGroupPermutes(Group(a, pt), Group(b, pt));
    }
  }

  /** Acceptance does not depend on the order of the pages. */
  lemma CompletePermutes(a: seq<RasterPage>, b: seq<RasterPage>, requested: seq<int>, expected: string)
    requires multiset(a) == multiset(b)
    ensures Complete(a, requested, expected) <==> Complete(b, requested, expected)
  {
    if Complete(a, requested, expected) { CompletePermutesOneWay(a, b, requested, expected); }
    if Complete(b, requested, expected) { CompletePermutesOneWay(b, a, requested, expected); }
  }

  // ---------------------------------------------------------------- sorted groups

  predicate ByIndex(a: RasterPage, b: RasterPage) { a.pageIndex <= b.pageIndex }

  ghost predicate Counts(sorted: seq<RasterPage>) {
    forall i | 0 <= i < |sorted| :: sorted[i].pageIndex == i + 1
  }

  function Indices(ps: seq<RasterPage>): (r: seq<int>)
    ensures |r| == |ps| && forall i | 0 <= i < |ps| :: r[i] == ps[i].pageIndex
  {
    seq(|ps|, i requires 0 <= i < |ps| => ps[i].pageIndex)
  }

  function Values(s: seq<int>): set<int> { set x | x in s }

  lemma {:induction false} ValuesSize(s: seq<int>)
    ensures |Values(s)| <= |s|
  {
    if s != [] {
      ValuesSize(s[1..]);
      assert s == [s[0]] + s[1..];
      assert Values(s) == {s[0]} + Values(s[1..]);
    }
  }

  ghost function Upto(lo: int, n: nat): (r: set<int>)
    ensures |r| == n && forall x :: x in r <==> lo <= x < lo + n
  {
    if n == 0 then {} else Upto(lo, n - 1) + {lo + n - 1}
  }

  lemma SubsetSize(a: set<int>, b: set<int>)
    requires a <= b
    ensures |a| <= |b|
  {
    assert a + (b - a) == b;
  }

  /** k sorted numbers that include lo, ..., lo+k-1 end in the last of these. */
  lemma CoverEnds(idx: seq<int>, lo: int)
    requires idx != [] && forall i, j | 0 <= i < j < |idx| :: idx[i] <= idx[j]
    requires forall x | lo <= x < lo + |idx| :: x in idx
    ensures idx[|idx| - 1] == lo + |idx| - 1
  {
    var n := |idx| - 1;
    if idx[n] > lo + n {
      forall x | x in Upto(lo, n + 1)
        ensures x in Values(idx[..n])
      {
        assert x in idx;
        var i :| 0 <= i < |idx| && idx[i] == x;
        assert idx[..n][i] == x;
      }
      SubsetSize(Upto(lo, n + 1), Values(idx[..n]));
      ValuesSize(idx[..n]);
    } else {
      assert lo + n in idx;
    }
  }

  /** k sorted numbers that include lo, ..., lo+k-1 are exactly these. */
  lemma {:induction false} SortedCover(idx: seq<int>, lo: int)
    requires forall i, j | 0 <= i < j < |idx| :: idx[i] <= idx[j]
    requires forall x | lo <= x < lo + |idx| :: x in idx
    ensures forall i | 0 <= i < |idx| :: idx[i] == lo + i
  {
    if idx != [] {
      var n := |idx| - 1;
      CoverEnds(idx, lo);
      forall x | lo <= x < lo + n
        ensures x in idx[..n]
      {
        assert x in idx;
        var i :| 0 <= i < |idx| && idx[i] == x;
        assert idx[..n][i] == x;
      }
      SortedCover(idx[..n], lo);
    }
  }

  lemma ByIndexIsPreorder()
    ensures TotalPreorder(ByIndex)
  {}

  /** Sorting by index shows 1, ..., k exactly when every index up to k is present. */
  lemma SortedCounts(ps: seq<RasterPage>)
    ensures |Sort(ps, ByIndex)| == |ps|
    ensures Counts(Sort(ps, ByIndex)) <==> forall j | 1 <= j <= |ps| :: HasIndex(ps, j)
  {
    var sorted := Sort(ps, ByIndex);
    ByIndexIsPreorder();
    SortPermutes(ps, ByIndex);
    SortSorts(ps, ByIndex);
    SameElements(sorted, ps);
    if Counts(sorted) {
      forall j | 1 <= j <= |ps|
        ensures HasIndex(ps, j)
      {
        assert sorted[j - 1] in ps && sorted[j - 1].pageIndex == j;
      }
    }
    if forall j | 1 <= j <= |ps| :: HasIndex(ps, j) {
      var idx := Indices(sorted);
      forall x | 1 <= x < 1 + |idx|
        ensures x in idx
      {
        assert HasIndex(ps, x);
        var p :| p in ps && p.pageIndex == x;
        assert p in sorted;
        var i :| 0 <= i < |sorted| && sorted[i] == p;
        assert idx[i] == x;
      }
      SortedCover(idx, 1);
      assert forall i | 0 <= i < |sorted| :: sorted[i].pageIndex == idx[i];
    }
  }

  // ---------------------------------------------------------------- the gate

  method CheckGlyphs(glyphs: seq<Glyph>, png: Png) returns (ok: bool)
    requires png.Png?
    ensures ok <==> forall i | 0 <= i < |glyphs| :: GlyphOk(glyphs[i], png)
  {
    for i := 0 to |glyphs|
      invariant forall j | 0 <= j < i :: GlyphOk(glyphs[j], png)
    {
      var g := glyphs[i];
      if g.Malformed? || g.codePoint <= 0 { return false; }
      var (x, y, w, h) := (g.box.x, g.box.y, g.box.width, g.box.height);
      if g.isSpace {
        if g.codePoint != 32 || x != 0 || y != 0 || w != 0 || h != 0 { return false; }
        continue;
      }
      if w <= 0 || h <= 0 || x < 0 || y < 0 { return false; }
      if x + w > png.width || y + h > png.height { return false; }
    }
    return true;
  }

  method CheckPage(p: RasterPage, boundMd5: string) returns (ok: bool)
    ensures ok <==> PageOk(p) && (boundMd5 != "" ==> p.md5 == boundMd5)
  {
    if p.png.NotPng? || p.png.width <= 0 || p.png.height <= 0 { return false; }
    if |p.md5| != 32 { return false; }
    if boundMd5 != "" && p.md5 != boundMd5 { return false; }
    if p.acsPt.None? || p.acsPt.value <= 0 { return false; }
    if p.glyphs.None? || p.glyphCount != |p.glyphs.value| { return false; }
    ok := CheckGlyphs(p.glyphs.value, p.png);
  }

  // ---------------------------------------------------------------- code points of a group

  function Codes(p: RasterPage): (r: seq<int>)
    requires PageOk(p)
    ensures |r| == p.glyphCount && forall i | 0 <= i < |r| :: r[i] == CodeAt(p, i)
  {
    seq(p.glyphCount, i requires 0 <= i < p.glyphCount => CodeAt(p, i))
  }

  predicate AllOk(ps: seq<RasterPage>) { forall i | 0 <= i < |ps| :: PageOk(ps[i]) }

  function AllCodes(ps: seq<RasterPage>): seq<int>
    requires AllOk(ps)
  {
    if ps == [] then [] else AllCodes(ps[..|ps| - 1]) + Codes(ps[|ps| - 1])
  }

  /** Reading the codes one by one meets none of the seen ones and none twice. */
  ghost predicate Unseen(seen: set<int>, codes: seq<int>) {
    codes == [] ||
    var n := |codes| - 1;
    Unseen(seen, codes[..n]) && codes[n] !in seen && codes[n] !in codes[..n]
  }

  lemma {:induction false} UnseenPrefix(seen: set<int>, codes: seq<int>, k: nat)
    requires k <= |codes| && Unseen(seen, codes)
    ensures Unseen(seen, codes[..k])
  {
    if k < |codes| {
      UnseenPrefix(seen, codes[..|codes| - 1], k);
      assert codes[..|codes| - 1][..k] == codes[..k];
    } else {
      assert codes[..k] == codes;
    }
  }

  lemma UnseenSnoc(seen: set<int>, codes: seq<int>, x: int)
    ensures Unseen(seen, codes + [x]) <==> Unseen(seen, codes) && x !in seen + Values(codes)
  {
    assert (codes + [x])[..|codes|] == codes;
  }

  lemma NothingSeen(seen: set<int>)
    ensures Unseen(seen, [])
  {}

  lemma {:induction false} UnseenAppend(seen: set<int>, a: seq<int>, b: seq<int>)
    ensures Unseen(seen, a + b) <==> Unseen(seen, a) && Unseen(seen + Values(a), b)
  {
    if b == [] {
      assert a + b == a;
    } else {
      hide Unseen;
      var n := |b| - 1;
      UnseenAppend(seen, a, b[..n]);
      assert a + b == (a + b[..n]) + [b[n]] && b == b[..n] + [b[n]];
      UnseenSnoc(seen, a + b[..n], b[n]);
      UnseenSnoc(seen + Values(a), b[..n], b[n]);
      assert Values(a + b[..n]) == Values(a) + Values(b[..n]);
    }
  }

  lemma ValuesAppend(a: seq<int>, b: seq<int>)
    ensures Values(a + b) == Values(a) + Values(b)
  {}

  method SeePage(codes: seq<int>, seen: set<int>) returns (ok: bool, now: set<int>)
    ensures ok <==> Unseen(seen, codes)
    ensures ok ==> now == seen + Values(codes)
  {
    hide Unseen;
    now := seen;
    NothingSeen(seen);
    assert Values(codes[..0]) == {};
    for b := 0 to |codes|
      invariant now == seen + Values(codes[..b])
      invariant Unseen(seen, codes[..b])
    {
      assert codes[..b + 1] == codes[..b] + [codes[b]];
      assert codes[..b + 1][..b] == codes[..b];
      ValuesAppend(codes[..b], [codes[b]]);
      UnseenSnoc(seen, codes[..b], codes[b]);
      if codes[b] in now {
        if Unseen(seen, codes) { UnseenPrefix(seen, codes, b + 1); }
        return false, now;
      }
      now := now + {codes[b]};
    }
    assert codes[..|codes|] == codes;
    return true, now;
  }

  lemma AllCodesSnoc(ps: seq<RasterPage>, i: nat)
    requires AllOk(ps) && i < |ps|
    ensures AllCodes(ps[..i + 1]) == AllCodes(ps[..i]) + Codes(ps[i])
  {
    assert ps[..i + 1][..i] == ps[..i];
  }

  /** A repetition among the first pages is a repetition among all. */
  lemma UnseenPages(ps: seq<RasterPage>, k: nat)
    requires AllOk(ps) && k <= |ps| && Unseen({}, AllCodes(ps))
    ensures Unseen({}, AllCodes(ps[..k]))
    decreases |ps|
  {
    hide Unseen, AllCodes;
    if k < |ps| {
      var n := |ps| - 1;
      AllCodesSnoc(ps, n);
      assert ps[..n + 1] == ps;
      UnseenAppend({}, AllCodes(ps[..n]), Codes(ps[n]));
      UnseenPages(ps[..n], k);
      assert ps[..n][..k] == ps[..k];
    } else {
      assert ps[..k] == ps;
    }
  }

  method CheckCodes(ps: seq<RasterPage>) returns (ok: bool)
    requires AllOk(ps)
    ensures ok <==> Unseen({}, AllCodes(ps))
  {
    hide Unseen, AllCodes;
    var seen: set<int> := {};
    AllCodesOfNone();
    assert ps[..0] == [];
    for i := 0 to |ps|
      invariant seen == Values(AllCodes(ps[..i]))
      invariant Unseen({}, AllCodes(ps[..i]))
    {
      var good, now := SeePage(Codes(ps[i]), seen);
      ghost var before, own := AllCodes(ps[..i]), Codes(ps[i]);
      AllCodesSnoc(ps, i);
      UnseenAppend({}, before, own);
      assert {} + Values(before) == seen;
      if !good {
        if Unseen({}, AllCodes(ps)) { UnseenPages(ps, i + 1); }
        return false;
      }
      ValuesAppend(before, own);
      seen := now;
    }
    assert ps[..|ps|] == ps;
    return true;
  }

  lemma AllCodesOfNone()
    ensures AllCodes([]) == [] && Values([]) == {} && Unseen({}, [])
  {}

  // ---------------------------------------------------------------- reading codes and distinctness

  lemma {:induction false} UnseenMeans(seen: set<int>, codes: seq<int>)
    ensures Unseen(seen, codes) <==>
              && (forall a, b | 0 <= a < b < |codes| :: codes[a] != codes[b])
              && forall a | 0 <= a < |codes| :: codes[a] !in seen
  {
    if codes != [] {
      var n := |codes| - 1;
      UnseenMeans(seen, codes[..n]);
      assert forall a | 0 <= a < n :: codes[..n][a] == codes[a];
    }
  }

  lemma {:induction false} AllCodesMembers(ps: seq<RasterPage>, x: int)
    requires AllOk(ps)
    ensures x in AllCodes(ps) <==> exists k :: 0 <= k < |ps| && x in Codes(ps[k])
  {
    if ps == [] {
      AllCodesOfNone();
    } else {
      hide AllCodes, PageOk;
      var n := |ps| - 1;
      AllCodesSnoc(ps, n);
      assert ps[..n + 1] == ps;
      AllCodesMembers(ps[..n], x);
      if x in AllCodes(ps[..n]) {
        var k :| 0 <= k < n && x in Codes(ps[..n][k]);
        assert x in Codes(ps[k]);
      }
      if k :| 0 <= k < |ps| && x in Codes(ps[k]) {
        if k < n { assert x in Codes(ps[..n][k]); }
      }
    }
  }

  /** No code of the k-th page repeats, on the page or among the earlier ones. */
  ghost predicate FreshPage(ps: seq<RasterPage>, k: nat)
    requires AllOk(ps) && k < |ps|
  {
    && (forall a, b | 0 <= a < b < |Codes(ps[k])| :: Codes(ps[k])[a] != Codes(ps[k])[b])
    && forall a | 0 <= a < |Codes(ps[k])| :: Codes(ps[k])[a] !in AllCodes(ps[..k])
  }

  lemma {:induction false} UnseenIsFresh(ps: seq<RasterPage>)
    requires AllOk(ps)
    ensures Unseen({}, AllCodes(ps)) <==> forall k | 0 <= k < |ps| :: FreshPage(ps, k)
  {
    hide Unseen;
    if ps == [] {
      AllCodesOfNone();
    } else {
      var n := |ps| - 1;
      UnseenIsFresh(ps[..n]);
      UnseenAppend({}, AllCodes(ps[..n]), Codes(ps[n]));
      UnseenMeans({} + Values(AllCodes(ps[..n])), Codes(ps[n]));
      forall k | 0 <= k < n
        ensures FreshPage(ps[..n], k) <==> FreshPage(ps, k)
      {
        assert ps[..n][..k] == ps[..k];
      }
      assert FreshPage(ps, n) <==> Unseen({} + Values(AllCodes(ps[..n])), Codes(ps[n]));
    }
  }

  lemma CodesDistinctIsFresh(ps: seq<RasterPage>, k: nat)
    requires AllOk(ps) && Counts(ps) && k < |ps| && CodesDistinct(ps)
    ensures FreshPage(ps, k)
  {
    var own := Codes(ps[k]);
    forall a, b | 0 <= a < b < |own|
      ensures own[a] != own[b]
    {
      assert CodeAt(ps[k], a) == own[a] && CodeAt(ps[k], b) == own[b];
    }
    forall a | 0 <= a < |own|
      ensures own[a] !in AllCodes(ps[..k])
    {
      AllCodesMembers(ps[..k], own[a]);
      forall j | 0 <= j < k
        ensures own[a] !in Codes(ps[..k][j])
      {
        forall b | 0 <= b < |Codes(ps[j])|
          ensures Codes(ps[j])[b] != own[a]
        {
          OtherPageDiffers(ps, j, b, k, a);
        }
      }
    }
  }

  lemma OtherPageDiffers(ps: seq<RasterPage>, j: nat, b: nat, k: nat, a: nat)
    requires AllOk(ps) && Counts(ps) && CodesDistinct(ps) && j < k < |ps|
    requires b < ps[j].glyphCount && a < ps[k].glyphCount
    ensures Codes(ps[j])[b] != Codes(ps[k])[a]
  {
    assert ps[j] in ps && ps[k] in ps && ps[j].pageIndex != ps[k].pageIndex;
    assert CodeAt(ps[j], b) != CodeAt(ps[k], a);
  }

  lemma FreshIsCodesDistinct(ps: seq<RasterPage>)
    requires AllOk(ps) && forall k | 0 <= k < |ps| :: FreshPage(ps, k)
    ensures CodesDistinct(ps)
  {
    forall p, q, i: nat, j: nat | p in ps && q in ps && i < p.glyphCount && j < q.glyphCount
      && CodeAt(p, i) == CodeAt(q, j)
      ensures p.pageIndex == q.pageIndex && i == j
    {
      var k :| 0 <= k < |ps| && ps[k] == p;
      var l :| 0 <= l < |ps| && ps[l] == q;
      assert Codes(p)[i] == Codes(q)[j];
      if k < l {
        LaterIsNew(ps, k, i, l, j);
      } else if l < k {
        LaterIsNew(ps, l, j, k, i);
      } else {
        assert FreshPage(ps, k);
      }
    }
  }

  lemma LaterIsNew(ps: seq<RasterPage>, k: nat, i: nat, l: nat, j: nat)
    requires AllOk(ps) && k < l < |ps| && FreshPage(ps, l)
    requires i < |Codes(ps[k])| && j < |Codes(ps[l])|
    ensures Codes(ps[k])[i] != Codes(ps[l])[j]
  {
    AllCodesMembers(ps[..l], Codes(ps[k])[i]);
    assert ps[..l][k] == ps[k];
    assert Codes(ps[k])[i] in Codes(ps[..l][k]);
  }

  lemma UnseenIsDistinct(ps: seq<RasterPage>)
    requires AllOk(ps) && Counts(ps)
    ensures Unseen({}, AllCodes(ps)) <==> CodesDistinct(ps)
  {
    hide Unseen, CodesDistinct, FreshPage;
    UnseenIsFresh(ps);
    if CodesDistinct(ps) {
      forall k | 0 <= k < |ps|
        ensures FreshPage(ps, k)
      {
        CodesDistinctIsFresh(ps, k);
      }
    }
    if forall k | 0 <= k < |ps| :: FreshPage(ps, k) {
      FreshIsCodesDistinct(ps);
    }
  }

  // ---------------------------------------------------------------- one size

  function TotalGlyphs(ps: seq<RasterPage>): int {
    if ps == [] then 0 else TotalGlyphs(ps[..|ps| - 1]) + ps[|ps| - 1].glyphCount
  }

  lemma {:induction false} TotalIsZero(ps: seq<RasterPage>)
    requires AllOk(ps)
    ensures TotalGlyphs(ps) >= 0
    ensures TotalGlyphs(ps) == 0 <==> forall p | p in ps :: p.glyphCount == 0
  {
    if ps != [] {
      var n := |ps| - 1;
      TotalIsZero(ps[..n]);
      assert ps == ps[..n] + [ps[n]];
      assert PageOk(ps[n]);
    }
  }

  /** What the loops over a group sorted by index establish. */
  ghost predicate GroupChecks(sorted: seq<RasterPage>)
    requires AllOk(sorted)
  {
    && sorted != [] && Counts(sorted)
    && (forall i | 0 <= i < |sorted| - 1 :: Live(sorted[i]))
    && Terminal(sorted[|sorted| - 1])
    && TotalGlyphs(sorted) != 0
    && Unseen({}, AllCodes(sorted))
  }

  lemma PositionsAreIndices(sorted: seq<RasterPage>)
    requires AllOk(sorted) && sorted != [] && Counts(sorted)
    ensures (forall i | 0 <= i < |sorted| - 1 :: Live(sorted[i]))
       <==> forall p | p in sorted && p.pageIndex < |sorted| :: Live(p)
    ensures Terminal(sorted[|sorted| - 1]) <==> forall p | p in sorted && p.pageIndex == |sorted| :: Terminal(p)
  {
    hide Live, Terminal;
    assert forall i | 0 <= i < |sorted| :: sorted[i] in sorted;
  }

  lemma SortedIsGood(sorted: seq<RasterPage>)
    requires AllOk(sorted) && Counts(sorted)
    ensures GroupChecks(sorted) <==> GoodGroup(sorted)
  {
    hide Unseen, CodesDistinct, Live, Terminal;
    TotalIsZero(sorted);
    UnseenIsDistinct(sorted);
    if sorted != [] { PositionsAreIndices(sorted); }
    forall j | 1 <= j <= |sorted|
      ensures HasIndex(sorted, j)
    {
      assert sorted[j - 1] in sorted;
    }
  }

  lemma GroupChecksMean(ps: seq<RasterPage>)
    requires AllOk(ps) && AllOk(Sort(ps, ByIndex))
    ensures GroupChecks(Sort(ps, ByIndex)) <==> GoodGroup(ps)
  {
    hide GoodGroup, Unseen, AllCodes, Counts;
    var sorted := Sort(ps, ByIndex);
    SortPermutes(ps, ByIndex);
    SortedCounts(ps);
    GoodGroupPermutes(ps, sorted);
    GoodGroupPermutes(sorted, ps);
    if GoodGroup(ps) { GoodGroupHasAll(ps); }
    if Counts(sorted) { SortedIsGood(sorted); }
  }

  lemma GoodGroupHasAll(ps: seq<RasterPage>)
    requires AllOk(ps) && GoodGroup(ps)
    ensures forall j | 1 <= j <= |ps| :: HasIndex(ps, j)
  {
    hide CodesDistinct;
  }

  method SumGlyphs(ps: seq<RasterPage>) returns (total: int)
    ensures total == TotalGlyphs(ps)
  {
    total := 0;
    for i := 0 to |ps|
      invariant total == TotalGlyphs(ps[..i])
    {
      assert ps[..i + 1][..i] == ps[..i];
      total := total + ps[i].glyphCount;
    }
    assert ps[..|ps|] == ps;
  }

  method CheckGroup(ps: seq<RasterPage>) returns (ok: bool)
    requires AllOk(ps)
    ensures ok <==> GoodGroup(ps)
  {
    hide GoodGroup, Unseen, AllCodes, TotalGlyphs;
    var sorted := Sort(ps, ByIndex);
    assert AllOk(sorted) by {
      SortPermutes(ps, ByIndex);
      SameElements(sorted, ps);
      assert forall i | 0 <= i < |sorted| :: sorted[i] in ps;
    }
    GroupChecksMean(ps);
    if sorted == [] { return false; }
    for i := 0 to |sorted|
      invariant forall j | 0 <= j < i :: sorted[j].pageIndex == j + 1
    {
      if sorted[i].pageIndex != i + 1 { return false; }
    }
    for i := 0 to |sorted| - 1
      invariant forall j | 0 <= j < i :: Live(sorted[j])
    {
      if sorted[i].final || sorted[i].nextCursor == 0 || sorted[i].glyphCount == 0 { return false; }
    }
    var last := sorted[|sorted| - 1];
    if !last.final && last.nextCursor != 0 && last.glyphCount != 0 { return false; }
    var total := SumGlyphs(sorted);
    if total == 0 { return false; }
    ok := CheckCodes(sorted);
  }

  // ---------------------------------------------------------------- all pages

  /** The size map after reading some pages: its keys are the sizes seen, in order of first
      appearance, and each holds the pages of its size. */
  ghost predicate Mapped(pages: seq<RasterPage>, order: seq<int>, sizes: map<int, seq<RasterPage>>) {
    && (forall pt :: pt in sizes <==> HasSize(pages, pt))
    && (forall pt | pt in sizes :: sizes[pt] == Group(pages, pt))
    && forall pt :: pt in order <==> pt in sizes
  }

  lemma MapPage(pages: seq<RasterPage>, p: RasterPage, order: seq<int>, sizes: map<int, seq<RasterPage>>, pt: int)
    requires Mapped(pages, order, sizes) && p.acsPt == Some(pt)
    ensures pt in sizes ==> Mapped(pages + [p], order, sizes[pt := sizes[pt] + [p]])
    ensures pt !in sizes ==> Mapped(pages + [p], order + [pt], sizes[pt := [p]])
  {
    var all := pages + [p];
    assert all[..|pages|] == pages;
    forall x
      ensures HasSize(all, x) <==> HasSize(pages, x) || x == pt
    {
      if HasSize(pages, x) {
        var q :| q in pages && OfSize(q, x);
        assert q in all;
      }
      if x == pt { assert p in all && OfSize(p, x); }
    }
    if pt !in sizes { NoPagesNoGroup(pages, pt); }
  }

  lemma NoPagesNoGroup(pages: seq<RasterPage>, pt: int)
    requires !HasSize(pages, pt)
    ensures Group(pages, pt) == []
  {
    forall p | p in Group(pages, pt)
      ensures false
    {
      GroupMembers(pages, pt, p);
      assert HasSize(pages, pt);
    }
    if Group(pages, pt) != [] { assert Group(pages, pt)[0] in Group(pages, pt); }
  }

  method ReadPages(pages: seq<RasterPage>, expected: string)
    returns (ok: bool, order: seq<int>, sizes: map<int, seq<RasterPage>>)
    ensures ok <==> (forall p | p in pages :: PageOk(p) && p.md5 == if expected != "" then expected else pages[0].md5)
    ensures ok ==> Mapped(pages, order, sizes)
  {
    hide Mapped, PageOk;
    order, sizes := [], map[];
    var boundMd5 := expected;
    NothingMapped();
    assert pages[..0] == [];
    for i := 0 to |pages|
      invariant forall j | 0 <= j < i ::
                  PageOk(pages[j]) && pages[j].md5 == if expected != "" then expected else pages[0].md5
      invariant boundMd5 == if expected != "" || i == 0 then expected else pages[0].md5
      invariant i > 0 ==> boundMd5 != ""
      invariant Mapped(pages[..i], order, sizes)
    {
      var p := pages[i];
      assert p in pages;
      var good := CheckPage(p, boundMd5);
      if !good {
        return false, order, sizes;
      }
      OkPageHasSize(p);
      if boundMd5 == "" {
        boundMd5 := p.md5;
      }
      var pt := p.acsPt.value;
      MapPage(pages[..i], p, order, sizes, pt);
      assert pages[..i + 1] == pages[..i] + [p];
      if pt in sizes {
        sizes := sizes[pt := sizes[pt] + [p]];
      } else {
        sizes, order := sizes[pt := [p]], order + [pt];
      }
    }
    assert pages[..|pages|] == pages;
    return true, order, sizes;
  }

  lemma OkPageHasSize(p: RasterPage)
    requires PageOk(p)
    ensures p.acsPt.Some? && |p.md5| == 32 && p.md5 != ""
  {}

  lemma NothingMapped()
    ensures Mapped([], [], map[])
  {}

  lemma Md5BoundMeans(pages: seq<RasterPage>, expected: string)
    requires pages != [] && (expected != "" ==> |expected| == 32)
    ensures (forall p | p in pages :: p.md5 == if expected != "" then expected else pages[0].md5)
       <==> Md5Bound(pages, expected)
  {
    assert pages[0] in pages;
  }

  lemma KeysMatch(pages: seq<RasterPage>, sizes: map<int, seq<RasterPage>>, requested: seq<int>)
    requires requested != [] && forall pt :: pt in sizes <==> HasSize(pages, pt)
    ensures sizes.Keys == (set pt | pt in requested) <==> SizesMatch(pages, requested)
  {
    hide HasSize;
    var wanted := set pt | pt in requested;
    assert forall pt :: pt in wanted <==> pt in requested;
    if SizesMatch(pages, requested) {
      forall pt
        ensures pt in sizes.Keys <==> pt in wanted
      {
        assert pt in requested <==> HasSize(pages, pt);
      }
    }
    if sizes.Keys == wanted {
      forall pt
        ensures pt in requested <==> HasSize(pages, pt)
      {
        assert pt in sizes.Keys <==> pt in wanted;
      }
    }
  }

  /** The gate: accepts exactly the complete page sets. */
  method IsCompleteRasterPages(pages: seq<RasterPage>, requested: seq<int>, expected: string) returns (ok: bool)
    ensures ok <==> Complete(pages, requested, expected)
  {
    hide Mapped, PageOk, GroupComplete, GoodGroup;
    if pages == [] { return false; }
    if expected != "" && |expected| != 32 { return false; }
    var good, order, sizes := ReadPages(pages, expected);
    Md5BoundMeans(pages, expected);
    if !good { return false; }
    MappedMeans(pages, order, sizes);
    if requested != [] {
      KeysMatch(pages, sizes, requested);
      if sizes.Keys != set pt | pt in requested { return false; }
    }
    for i := 0 to |order|
      invariant forall j | 0 <= j < i :: GroupComplete(pages, order[j])
    {
      var pt := order[i];
      MappedGroup(pages, order, sizes, pt);
      var fine := CheckGroup(sizes[pt]);
      if !fine {
        assert HasSize(pages, pt) && !GroupComplete(pages, pt);
        return false;
      }
    }
    forall pt | HasSize(pages, pt)
      ensures GroupComplete(pages, pt)
    {
      assert pt in order;
    }
    return true;
  }

  lemma MappedMeans(pages: seq<RasterPage>, order: seq<int>, sizes: map<int, seq<RasterPage>>)
    requires Mapped(pages, order, sizes)
    ensures forall pt :: pt in sizes <==> HasSize(pages, pt)
    ensures forall pt :: pt in order <==> pt in sizes
  {}

  lemma MappedGroup(pages: seq<RasterPage>, order: seq<int>, sizes: map<int, seq<RasterPage>>, pt: int)
    requires Mapped(pages, order, sizes) && pt in sizes && forall p | p in pages :: PageOk(p)
    ensures AllOk(sizes[pt]) && (GoodGroup(sizes[pt]) <==> GroupComplete(pages, pt))
  {
    forall p | p in Group(pages, pt)
      ensures PageOk(p)
    {
      GroupMembers(pages, pt, p);
    }
    assert forall i | 0 <= i < |sizes[pt]| :: sizes[pt][i] in sizes[pt];
  }
}
