/** Page sets put together size by size, as both raster producers do, and when the gate takes them. */
module SizeGroups {
  import opened RasterPages

  function Flat(groups: seq<seq<RasterPage>>): seq<RasterPage> {
    if groups == [] then [] else Flat(groups[..|groups| - 1]) + groups[|groups| - 1]
  }

  /** One non-empty run of pages 1, 2, ... for each size. */
  ghost predicate Sized(groups: seq<seq<RasterPage>>, sizes: seq<int>) {
    && |groups| == |sizes|
    && (forall i | 0 <= i < |groups| :: groups[i] != [] && Counts(groups[i]))
    && forall i | 0 <= i < |groups| :: AllOfSize(groups[i], sizes[i])
  }

  predicate AllOfSize(ps: seq<RasterPage>, pt: int) { forall p | p in ps :: OfSize(p, pt) }

  ghost predicate Distinct(s: seq<int>) { forall i, j | 0 <= i < j < |s| :: s[i] != s[j] }

  ghost predicate PagesOk(ps: seq<RasterPage>) { forall p | p in ps :: PageOk(p) }

  lemma {:induction false} GroupConcat(a: seq<RasterPage>, b: seq<RasterPage>, pt: int)
    ensures Group(a + b, pt) == Group(a, pt) + Group(b, pt)
  {
    if b == [] {
      assert a + b == a;
    } else {
      var n := |b| - 1;
      GroupConcat(a, b[..n], pt);
      assert (a + b)[..|a + b| - 1] == a + b[..n];
    }
  }

  lemma {:induction false} GroupOfOneSize(a: seq<RasterPage>, q: int, pt: int)
    requires AllOfSize(a, q)
    ensures Group(a, pt) == if q == pt then a else []
  {
    if a != [] {
      var n := |a| - 1;
      assert a == a[..n] + [a[n]];
      GroupOfOneSize(a[..n], q, pt);
      assert OfSize(a[n], q);
    }
  }

  lemma {:induction false} FlatMembers(groups: seq<seq<RasterPage>>, p: RasterPage)
    ensures p in Flat(groups) <==> exists i :: 0 <= i < |groups| && p in groups[i]
  {
    if groups != [] {
      var n := |groups| - 1;
      FlatMembers(groups[..n], p);
      if p in Flat(groups[..n]) {
        var i :| 0 <= i < n && p in groups[..n][i];
        assert p in groups[i];
      }
      if i :| 0 <= i < |groups| && p in groups[i] {
        if i < n { assert p in groups[..n][i]; }
      }
    }
  }

  /** The last size adds its own pages to its own group and nothing to the others. */
  lemma LastGroup(groups: seq<seq<RasterPage>>, sizes: seq<int>, pt: int)
    requires Sized(groups, sizes) && groups != []
    ensures Sized(groups[..|groups| - 1], sizes[..|groups| - 1])
    ensures Group(Flat(groups), pt)
         == Group(Flat(groups[..|groups| - 1]), pt) + if sizes[|groups| - 1] == pt then groups[|groups| - 1] else []
  {
    var n := |groups| - 1;
    GroupConcat(Flat(groups[..n]), groups[n], pt);
    GroupOfOneSize(groups[n], sizes[n], pt);
  }

  lemma {:induction false} GroupAbsent(groups: seq<seq<RasterPage>>, sizes: seq<int>, pt: int)
    requires Sized(groups, sizes) && forall i | 0 <= i < |sizes| :: sizes[i] != pt
    ensures Group(Flat(groups), pt) == []
  {
    if groups != [] {
      hide Sized;
      LastGroup(groups, sizes, pt);
      SizedLengths(groups, sizes);
      GroupAbsent(groups[..|groups| - 1], sizes[..|groups| - 1], pt);
    }
  }

  lemma SizedLengths(groups: seq<seq<RasterPage>>, sizes: seq<int>)
    requires Sized(groups, sizes)
    ensures |groups| == |sizes|
  {}

  /** When no size is asked for twice, the group of a size is the run of that size. */
  lemma {:induction false} GroupPresent(groups: seq<seq<RasterPage>>, sizes: seq<int>, i: nat)
    requires Sized(groups, sizes) && Distinct(sizes) && i < |sizes|
    ensures i < |groups| && Group(Flat(groups), sizes[i]) == groups[i]
    decreases |groups|
  {
    hide Sized;
    SizedLengths(groups, sizes);
    var n := |groups| - 1;
    LastGroup(groups, sizes, sizes[i]);
    if i == n {
      GroupAbsent(groups[..n], sizes[..n], sizes[i]);
    } else {
      GroupPresent(groups[..n], sizes[..n], i);
    }
  }

  ghost predicate FirstAt(ps: seq<RasterPage>, a: nat) { a < |ps| && ps[a].pageIndex == 1 }

  lemma {:induction false} FirstPageOf(groups: seq<seq<RasterPage>>, sizes: seq<int>, i: nat) returns (a: nat)
    requires Sized(groups, sizes) && i < |sizes|
    ensures FirstAt(Group(Flat(groups), sizes[i]), a)
    decreases |groups|
  {
    SizedLengths(groups, sizes);
    var n := |groups| - 1;
    LastGroup(groups, sizes, sizes[i]);
    if i == n {
      a := |Group(Flat(groups[..n]), sizes[i])|;
      assert groups[n][0].pageIndex == 1;
    } else {
      hide Sized, Group, Flat;
      a := FirstPageOf(groups[..n], sizes[..n], i);
    }
  }

  /** A size asked for twice puts two first pages into one group. */
  lemma {:induction false} FirstPageTwice(groups: seq<seq<RasterPage>>, sizes: seq<int>, i: nat, j: nat)
    returns (a: nat, b: nat)
    requires Sized(groups, sizes) && i < j < |sizes| && sizes[i] == sizes[j]
    ensures a < b && FirstAt(Group(Flat(groups), sizes[i]), a) && FirstAt(Group(Flat(groups), sizes[i]), b)
    decreases |groups|
  {
    SizedLengths(groups, sizes);
    var n := |groups| - 1;
    LastGroup(groups, sizes, sizes[i]);
    if j == n {
      a := FirstPageOf(groups[..n], sizes[..n], i);
      b := |Group(Flat(groups[..n]), sizes[i])|;
      assert groups[n][0].pageIndex == 1;
    } else {
      hide Sized, Group, Flat;
      a, b := FirstPageTwice(groups[..n], sizes[..n], i, j);
    }
  }

  /** k numbers that include lo, ..., lo+k-1 do not repeat. */
  lemma CoverIsInjective(idx: seq<int>, lo: int, a: nat, b: nat)
    requires a < b < |idx| && forall x | lo <= x < lo + |idx| :: x in idx
    ensures idx[a] != idx[b]
  {
    if idx[a] == idx[b] {
      var rest := idx[..b] + idx[b + 1..];
      forall x | x in Upto(lo, |idx|)
        ensures x in Values(rest)
      {
        assert x in idx;
        var i :| 0 <= i < |idx| && idx[i] == x;
        var k := if i < b then i else if i == b then a else i - 1;
        assert rest[k] == x;
      }
      SubsetSize(Upto(lo, |idx|), Values(rest));
      ValuesSize(rest);
    }
  }

  lemma GoodGroupHasOneFirst(ps: seq<RasterPage>, a: nat, b: nat)
    requires PagesOk(ps) && GoodGroup(ps) && a < b && FirstAt(ps, a)
    ensures !FirstAt(ps, b)
  {
    hide CodesDistinct, PageOk;
    if b < |ps| {
      var idx := Indices(ps);
      forall x | 1 <= x < 1 + |idx|
        ensures x in idx
      {
        assert HasIndex(ps, x);
        var p :| p in ps && p.pageIndex == x;
        var i :| 0 <= i < |ps| && ps[i] == p;
        assert idx[i] == x;
      }
      CoverIsInjective(idx, 1, a, b);
    }
  }

  lemma CompleteHasNoRepeat(groups: seq<seq<RasterPage>>, sizes: seq<int>, md5: string, i: nat, j: nat)
    requires Sized(groups, sizes) && Complete(Flat(groups), sizes, md5) && i < j < |sizes|
    ensures sizes[i] != sizes[j]
  {
    if sizes[i] == sizes[j] {
      hide Sized, GoodGroup, PageOk, Group, Flat, Md5Bound;
      var a, b := FirstPageTwice(groups, sizes, i, j);
      var pt := sizes[i];
      assert pt in sizes && HasSize(Flat(groups), pt);
      assert GroupComplete(Flat(groups), pt);
      GoodGroupHasOneFirst(Group(Flat(groups), pt), a, b);
    }
  }

  lemma SizesAreMatched(groups: seq<seq<RasterPage>>, sizes: seq<int>)
    requires Sized(groups, sizes) && sizes != []
    ensures Flat(groups) != [] && SizesMatch(Flat(groups), sizes)
  {
    hide Counts, Flat;
    var all := Flat(groups);
    forall pt
      ensures pt in sizes <==> HasSize(all, pt)
    {
      if pt in sizes {
        var i :| 0 <= i < |sizes| && sizes[i] == pt;
        var p := groups[i][0];
        assert p in groups[i];
        FlatMembers(groups, p);
        assert p in all && OfSize(p, pt);
      }
      if HasSize(all, pt) {
        var p :| p in all && OfSize(p, pt);
        FlatMembers(groups, p);
        var i :| 0 <= i < |groups| && p in groups[i];
        assert AllOfSize(groups[i], sizes[i]);
        assert sizes[i] == pt;
      }
    }
    assert sizes[0] in sizes;
    assert HasSize(all, sizes[0]);
  }

  ghost predicate GroupFine(ps: seq<RasterPage>) { PagesOk(ps) && GoodGroup(ps) }

  ghost predicate AllMd5(groups: seq<seq<RasterPage>>, md5: string) {
    forall i, p | 0 <= i < |groups| && p in groups[i] :: p.md5 == md5
  }

  lemma FlatMd5(groups: seq<seq<RasterPage>>, md5: string)
    requires AllMd5(groups, md5) && |md5| == 32
    ensures Md5Bound(Flat(groups), md5)
  {
    forall p | p in Flat(groups)
      ensures p.md5 == md5
    {
      FlatMembers(groups, p);
    }
  }

  lemma FlatPagesOk(groups: seq<seq<RasterPage>>)
    ensures PagesOk(Flat(groups)) <==> forall i | 0 <= i < |groups| :: PagesOk(groups[i])
  {
    hide PageOk, Flat;
    forall p
      ensures p in Flat(groups) <==> exists i :: 0 <= i < |groups| && p in groups[i]
    {
      FlatMembers(groups, p);
    }
  }

  /** The gate takes one run of pages per size exactly when no size repeats and each run is good. */
  lemma FlatIsComplete(groups: seq<seq<RasterPage>>, sizes: seq<int>, md5: string)
    requires Sized(groups, sizes) && sizes != [] && AllMd5(groups, md5) && |md5| == 32
    ensures Complete(Flat(groups), sizes, md5)
       <==> Distinct(sizes) && forall i | 0 <= i < |groups| :: GroupFine(groups[i])
  {
    hide Sized, GoodGroup, PageOk, Group, Flat, Md5Bound, AllMd5, SizesMatch;
    var all := Flat(groups);
    SizedLengths(groups, sizes);
    SizesAreMatched(groups, sizes);
    FlatMd5(groups, md5);
    FlatPagesOk(groups);
    if Complete(all, sizes, md5) {
      forall i, j | 0 <= i < j < |sizes|
        ensures sizes[i] != sizes[j]
      {
        CompleteHasNoRepeat(groups, sizes, md5, i, j);
      }
      forall i | 0 <= i < |groups|
        ensures GroupFine(groups[i])
      {
        GroupPresent(groups, sizes, i);
        SizeIsThere(all, sizes, i);
        assert GroupComplete(all, sizes[i]);
      }
    }
    if Distinct(sizes) && forall i | 0 <= i < |groups| :: GroupFine(groups[i]) {
      forall pt | HasSize(all, pt)
        ensures GroupComplete(all, pt)
      {
        var i := SizeIsAsked(all, sizes, pt);
        GroupPresent(groups, sizes, i);
        assert GroupFine(groups[i]);
      }
      assert forall i | 0 <= i < |groups| :: GroupFine(groups[i]) ==> PagesOk(groups[i]);
      assert PagesOk(all);
    }
  }

  lemma SizeIsThere(all: seq<RasterPage>, sizes: seq<int>, i: nat)
    requires SizesMatch(all, sizes) && i < |sizes|
    ensures HasSize(all, sizes[i])
  {
    assert sizes[i] in sizes;
  }

  lemma SizeIsAsked(all: seq<RasterPage>, sizes: seq<int>, pt: int) returns (i: nat)
    requires SizesMatch(all, sizes) && sizes != [] && HasSize(all, pt)
    ensures i < |sizes| && sizes[i] == pt
  {
    assert pt in sizes;
    i :| 0 <= i < |sizes| && sizes[i] == pt;
  }
}
