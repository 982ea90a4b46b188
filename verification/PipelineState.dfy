/** The world and the memory of the streaming pipeline: what a glyph gives, what the disk promises,
    and what each stage of a run keeps in memory. */
module PipelineState {
  import opened AtlasCache
  import opened Sorting

  const SPACE := 0x20

  /** The fast pass on one cell: no image, a pass (with or without ink), or a failure. */
  datatype Fast = MissingImage | EasyPass(model: string, zeroInk: bool) | FastFail

  /** The single refinement: no base image, a pass, or a failure. */
  datatype Refined = NoBase | RefinedPass(model: string, lowConfidence: bool) | RefinedFail

  /** The regressed code points (dictionary keys, so distinct) and what each gives. */
  datatype Env = Env(keys: seq<int>, fast: int -> Fast, refine: int -> Refined)

  /** A cached glyph model; Spoiled stands for any entry that does not decode. */
  datatype Entry = Good(model: string) | Spoiled

  type Cache = map<int, Entry>

  // ---------------------------------------------------------------- what a run should give

  predicate Excluded(e: Env, cp: int) { e.fast(cp).EasyPass? && e.fast(cp).zeroInk && cp != SPACE }

  predicate Easy(e: Env, cp: int) { e.fast(cp).EasyPass? && !Excluded(e, cp) }

  predicate Needs(e: Env, cp: int) { !e.fast(cp).EasyPass? }

  predicate Repaired(e: Env, cp: int) { Needs(e, cp) && e.refine(cp).RefinedPass? }

  predicate Low(e: Env, cp: int) { Repaired(e, cp) && e.refine(cp).lowConfidence }

  function ModelOf(e: Env, cp: int): string
    requires Easy(e, cp) || Repaired(e, cp)
  {
    if Easy(e, cp) then e.fast(cp).model else e.refine(cp).model
  }

  ghost predicate NoDup(s: seq<int>) { forall i, j | 0 <= i < j < |s| :: s[i] != s[j] }

  // ---------------------------------------------------------------- what is on the disk

  ghost predicate CacheOK(e: Env, cache: Cache) {
    forall cp | cp in cache && cache[cp].Good? :: Easy(e, cp) && cache[cp].model == e.fast(cp).model
  }

  ghost predicate CheckpointOK(e: Env, c: Checkpoint) {
    && NoDup(c.frozen) && (forall cp | cp in c.frozen :: cp in e.keys && (Easy(e, cp) || Repaired(e, cp)))
    && NoDup(c.failed) && (forall cp | cp in c.failed :: cp in e.keys && Needs(e, cp))
    && forall cp | cp in c.lowConfidence :: cp in e.keys && Low(e, cp)
  }

  /** Whatever was saved under this identity is true of the glyphs. (Loading bytes that are not
      UTF-8 raises; no save leaves such bytes behind.) */
  ghost predicate DiskOK(e: Env, identity: string, file: CheckpointFile, cache: Cache) {
    && !file.Undecodable? && CacheOK(e, cache)
    && (Loaded(file, identity).Some? ==> CheckpointOK(e, Loaded(file, identity).value))
  }

  /** Every easy glyph of the list is in the cache. */
  ghost predicate Backed(e: Env, frozen: seq<int>, cache: Cache) {
    forall cp | cp in frozen && Easy(e, cp) :: cp in cache && cache[cp].Good?
  }

  ghost predicate Warm(e: Env, identity: string, file: CheckpointFile, cache: Cache) {
    Loaded(file, identity).Some? ==> Backed(e, Loaded(file, identity).value.frozen, cache)
  }

  function ResumedLow(file: CheckpointFile, identity: string): seq<int> {
    match Loaded(file, identity) case Some(c) => c.lowConfidence case None => []
  }

  /** A later resume finds the glyph: saved as frozen, with a decodable cached model. */
  predicate OnDisk(identity: string, file: CheckpointFile, cache: Cache, cp: int) {
    Loaded(file, identity).Some? && cp in Loaded(file, identity).value.frozen && cp in cache && cache[cp].Good?
  }

  /** A later resume does not rasterise the code point: stored, or saved as failed. */
  predicate Settled(identity: string, file: CheckpointFile, cache: Cache, cp: int) {
    OnDisk(identity, file, cache, cp) || (Loaded(file, identity).Some? && cp in Loaded(file, identity).value.failed)
  }

  /** Nothing stored is lost from one disk to the next. */
  ghost predicate Progress(identity: string, file0: CheckpointFile, cache0: Cache, file: CheckpointFile, cache: Cache) {
    forall cp | OnDisk(identity, file0, cache0, cp) :: OnDisk(identity, file, cache, cp)
  }

  /** The list holds every stored glyph, so saving it loses none. */
  ghost predicate Covers(identity: string, file: CheckpointFile, cache: Cache, frozen: seq<int>) {
    forall cp | OnDisk(identity, file, cache, cp) :: cp in frozen
  }

  function EasyCount(e: Env, s: seq<int>): nat {
    if s == [] then 0 else EasyCount(e, s[..|s| - 1]) + if Easy(e, s[|s| - 1]) then 1 else 0
  }

  ghost predicate OnDiskUpTo(e: Env, identity: string, file: CheckpointFile, cache: Cache, done: seq<int>, k: nat)
    requires k <= |done|
  {
    forall i | 0 <= i < k && Easy(e, done[i]) :: OnDisk(identity, file, cache, done[i])
  }

  /** Of the rasterised code points, at most the last n easy ones are not stored yet. */
  ghost predicate Lags(e: Env, identity: string, file: CheckpointFile, cache: Cache, done: seq<int>, n: nat) {
    exists k: nat :: k <= |done| && OnDiskUpTo(e, identity, file, cache, done, k) && EasyCount(e, done[k..]) <= n
  }

  lemma LagsMore(e: Env, identity: string, file: CheckpointFile, cache: Cache, done: seq<int>, n: nat, cp: int)
    requires Lags(e, identity, file, cache, done, n)
    ensures Lags(e, identity, file, cache, done + [cp], if Easy(e, cp) then n + 1 else n)
  {
    var k: nat :| k <= |done| && OnDiskUpTo(e, identity, file, cache, done, k) && EasyCount(e, done[k..]) <= n;
    assert (done + [cp])[k..] == done[k..] + [cp];
    assert (done[k..] + [cp])[..|done[k..]|] == done[k..];
    assert OnDiskUpTo(e, identity, file, cache, done + [cp], k);
  }

  lemma LagsWhenStored(e: Env, identity: string, file: CheckpointFile, cache: Cache, done: seq<int>)
    requires forall i | 0 <= i < |done| && Easy(e, done[i]) :: OnDisk(identity, file, cache, done[i])
    ensures Lags(e, identity, file, cache, done, 0)
  {
    assert OnDiskUpTo(e, identity, file, cache, done, |done|) && done[|done|..] == [];
  }

  lemma LagsKept(e: Env, identity: string, file0: CheckpointFile, cache0: Cache, file: CheckpointFile, cache: Cache,
                 done: seq<int>, m: nat, n: nat)
    requires Lags(e, identity, file0, cache0, done, m) && m <= n && Progress(identity, file0, cache0, file, cache)
    ensures Lags(e, identity, file, cache, done, n)
  {
    var k: nat :| k <= |done| && OnDiskUpTo(e, identity, file0, cache0, done, k) && EasyCount(e, done[k..]) <= m;
    hide OnDisk;
    assert OnDiskUpTo(e, identity, file, cache, done, k);
  }

  lemma ProgressThen(identity: string, file0: CheckpointFile, cache0: Cache, file1: CheckpointFile, cache1: Cache,
                     file: CheckpointFile, cache: Cache)
    requires Progress(identity, file0, cache0, file1, cache1) && Progress(identity, file1, cache1, file, cache)
    ensures Progress(identity, file0, cache0, file, cache)
  {
    hide OnDisk;
  }

  // ---------------------------------------------------------------- sorting a checkpoint keeps it

  lemma SortKeepsList(s: seq<int>)
    ensures forall x :: x in Sort(s, Ascending) <==> x in s
    ensures NoDup(s) ==> NoDup(Sort(s, Ascending))
  {
    var t := Sort(s, Ascending);
    SortPermutes(s, Ascending);
    SameElements(t, s);
    if NoDup(s) {
      NoDupMultiset(s);
      NoDupBack(t);
    }
  }

  lemma {:induction false} NoDupMultiset(s: seq<int>)
    requires NoDup(s)
    ensures forall x :: multiset(s)[x] <= 1
  {
    if s != [] {
      var n := |s| - 1;
      NoDupMultiset(s[..n]);
      assert s == s[..n] + [s[n]] && s[n] !in s[..n];
    }
  }

  lemma NoDupBack(s: seq<int>)
    requires forall x :: multiset(s)[x] <= 1
    ensures NoDup(s)
  {
    forall i, j | 0 <= i < j < |s|
      ensures s[i] != s[j]
    {
      assert s == s[..j] + [s[j]] + s[j + 1..];
      assert multiset(s)[s[j]] == multiset(s[..j])[s[j]] + 1 + multiset(s[j + 1..])[s[j]];
      assert s[..j][i] == s[i];
      assert multiset(s[..j])[s[i]] >= 1;
    }
  }

  lemma CanonicalIsOK(e: Env, c: Checkpoint, cache: Cache)
    requires CheckpointOK(e, c)
    ensures CheckpointOK(e, Canonical(c))
    ensures Backed(e, c.frozen, cache) ==> Backed(e, Canonical(c).frozen, cache)
  {
    SortKeepsList(c.frozen);
    SortKeepsList(c.failed);
    SortKeepsList(c.lowConfidence);
  }

  function Without(s: seq<int>, x: int): (r: seq<int>)
    ensures |r| <= |s|
  {
    if s == [] then [] else if s[0] == x then s[1..] else [s[0]] + Without(s[1..], x)
  }

  lemma {:induction false} WithoutKeeps(s: seq<int>, x: int)
    requires NoDup(s)
    ensures NoDup(Without(s, x)) && forall y :: y in Without(s, x) <==> y in s && y != x
  {
    if s != [] {
      WithoutKeeps(s[1..], x);
      assert s == [s[0]] + s[1..];
      assert s[0] !in s[1..];
    }
  }

  // ---------------------------------------------------------------- memory during the fast pass

  ghost predicate RasterOK(e: Env, frozen: map<int, string>, failed: seq<int>, excluded: seq<int>, state: Checkpoint) {
    && (forall cp | cp in frozen :: cp in e.keys && Easy(e, cp) && frozen[cp] == ModelOf(e, cp))
    && NoDup(failed) && (forall cp | cp in failed :: cp in e.keys && Needs(e, cp))
    && NoDup(excluded) && (forall cp | cp in excluded :: cp in e.keys && Excluded(e, cp))
    && CheckpointOK(e, state) && (forall cp :: cp in state.frozen <==> cp in frozen)
    && forall cp | cp in state.failed :: cp in failed
  }

  predicate Handled(frozen: map<int, string>, failed: seq<int>, excluded: seq<int>, cp: int) {
    cp in frozen || cp in failed || cp in excluded
  }

  /** Frozen, failed and excluded hold exactly the code points handled before, and this one. */
  ghost predicate Handles(frozen: map<int, string>, failed: seq<int>, excluded: seq<int>,
                          frozen0: map<int, string>, failed0: seq<int>, excluded0: seq<int>, more: seq<int>) {
    forall cp :: Handled(frozen, failed, excluded, cp) <==> Handled(frozen0, failed0, excluded0, cp) || cp in more
  }

  function Freeze(state: Checkpoint, cp: int): Checkpoint {
    if cp in state.frozen then state else state.(frozen := state.frozen + [cp])
  }

  function Fail(state: Checkpoint, cp: int): Checkpoint {
    if cp in state.failed then state else state.(failed := state.failed + [cp])
  }

  lemma NoDupSnoc(s: seq<int>, x: int)
    requires NoDup(s) && x !in s
    ensures NoDup(s + [x])
  {}

  lemma FreezeKeeps(e: Env, frozen: map<int, string>, failed: seq<int>, excluded: seq<int>, state: Checkpoint, cp: int)
    requires RasterOK(e, frozen, failed, excluded, state) && cp in e.keys && Easy(e, cp)
    ensures RasterOK(e, frozen[cp := e.fast(cp).model], failed, excluded, Freeze(state, cp))
    ensures Handles(frozen[cp := e.fast(cp).model], failed, excluded, frozen, failed, excluded, [cp])
  {
    if cp !in state.frozen { NoDupSnoc(state.frozen, cp); }
  }

  lemma FailKeeps(e: Env, frozen: map<int, string>, failed: seq<int>, excluded: seq<int>, state: Checkpoint, cp: int)
    requires RasterOK(e, frozen, failed, excluded, state) && cp in e.keys && Needs(e, cp) && cp !in failed
    ensures RasterOK(e, frozen, failed + [cp], excluded, state)
    ensures RasterOK(e, frozen, failed + [cp], excluded, Fail(state, cp))
    ensures Handles(frozen, failed + [cp], excluded, frozen, failed, excluded, [cp])
  {
    NoDupSnoc(failed, cp);
    if cp !in state.failed { NoDupSnoc(state.failed, cp); }
  }

  lemma ExcludeKeeps(e: Env, frozen: map<int, string>, failed: seq<int>, excluded: seq<int>, state: Checkpoint, cp: int)
    requires RasterOK(e, frozen, failed, excluded, state) && cp in e.keys && Excluded(e, cp) && cp !in excluded
    ensures RasterOK(e, frozen, failed, excluded + [cp], state)
    ensures Handles(frozen, failed, excluded + [cp], frozen, failed, excluded, [cp])
  {
    NoDupSnoc(excluded, cp);
  }

  /** Storing an easy glyph keeps every promise about the disk. */
  lemma StoreKeeps(e: Env, identity: string, file: CheckpointFile, cache: Cache, state: Checkpoint, cp: int)
    requires DiskOK(e, identity, file, cache) && Backed(e, state.frozen, cache) && Easy(e, cp)
    ensures var stored := cache[cp := Good(e.fast(cp).model)];
      && DiskOK(e, identity, file, stored) && Backed(e, Freeze(state, cp).frozen, stored)
      && (Warm(e, identity, file, cache) ==> Warm(e, identity, file, stored))
  {}

  lemma SaveKeeps(e: Env, identity: string, cache: Cache, state: Checkpoint)
    requires CacheOK(e, cache) && CheckpointOK(e, state) && Backed(e, state.frozen, cache) && state.identity == identity
    ensures DiskOK(e, identity, Saved(Canonical(state)), cache) && Warm(e, identity, Saved(Canonical(state)), cache)
  {
    CanonicalIsOK(e, state, cache);
  }

  /** A save stores exactly the frozen glyphs with a cached model, and loses none. */
  lemma SaveStores(identity: string, file: CheckpointFile, cache: Cache, state: Checkpoint)
    requires Covers(identity, file, cache, state.frozen) && state.identity == identity
    ensures var after := Saved(Canonical(state));
      && (forall cp :: OnDisk(identity, after, cache, cp) <==> cp in state.frozen && cp in cache && cache[cp].Good?)
      && Progress(identity, file, cache, after, cache) && Covers(identity, after, cache, state.frozen)
  {
    SortKeepsList(state.frozen);
  }

  lemma StoreProgress(identity: string, file: CheckpointFile, cache: Cache, frozen: seq<int>, cp: int, model: string)
    requires Covers(identity, file, cache, frozen) && cp in frozen
    ensures Progress(identity, file, cache, file, cache[cp := Good(model)])
    ensures Covers(identity, file, cache[cp := Good(model)], frozen)
  {}

  lemma CoversMore(identity: string, file: CheckpointFile, cache: Cache, frozen: seq<int>, more: seq<int>)
    requires Covers(identity, file, cache, frozen) && forall cp | cp in frozen :: cp in more
    ensures Covers(identity, file, cache, more)
  {
    hide OnDisk;
  }

  // ---------------------------------------------------------------- memory during refinement

  /** After the first cells of a list of failed glyphs went through refinement. */
  ghost predicate RefineOK(e: Env, frozen0: map<int, string>, list: seq<int>, i: nat,
                           frozen: map<int, string>, remaining: seq<int>, added: seq<int>, state: Checkpoint)
    requires i <= |list|
  {
    && (forall cp :: cp in frozen <==> cp in frozen0 || (cp in list[..i] && Repaired(e, cp)))
    && (forall cp | cp in frozen :: cp in e.keys && (Easy(e, cp) || Repaired(e, cp)) && frozen[cp] == ModelOf(e, cp))
    && NoDup(remaining) && (forall cp :: cp in remaining <==> cp in list[..i] && !Repaired(e, cp))
    && NoDup(added) && (forall cp :: cp in added <==> cp in list[..i] && Low(e, cp))
    && CheckpointOK(e, state) && (forall cp :: cp in state.frozen <==> cp in frozen)
  }

  ghost predicate FailedList(e: Env, frozen0: map<int, string>, list: seq<int>) {
    && NoDup(list) && (forall cp | cp in list :: cp in e.keys && Needs(e, cp))
    && forall cp | cp in frozen0 :: Easy(e, cp)
  }

  function Repair(state: Checkpoint, cp: int): Checkpoint {
    state.(frozen := state.frozen + [cp],
           failed := if cp in state.failed then Without(state.failed, cp) else state.failed)
  }

  lemma SnocIn(list: seq<int>, i: nat)
    requires i < |list| && NoDup(list)
    ensures list[i] !in list[..i] && forall cp :: cp in list[..i + 1] <==> cp in list[..i] || cp == list[i]
  {
    assert list[..i + 1] == list[..i] + [list[i]];
  }

  lemma RepairState(e: Env, state: Checkpoint, cp: int)
    requires CheckpointOK(e, state) && cp in e.keys && Repaired(e, cp) && cp !in state.frozen
    ensures CheckpointOK(e, Repair(state, cp))
  {
    NoDupSnoc(state.frozen, cp);
    WithoutKeeps(state.failed, cp);
  }

  lemma RepairKeeps(e: Env, frozen0: map<int, string>, list: seq<int>, i: nat,
                    frozen: map<int, string>, remaining: seq<int>, added: seq<int>, state: Checkpoint)
    requires i < |list| && FailedList(e, frozen0, list)
             && RefineOK(e, frozen0, list, i, frozen, remaining, added, state)
    requires Repaired(e, list[i])
    ensures var cp := list[i];
      RefineOK(e, frozen0, list, i + 1, frozen[cp := e.refine(cp).model], remaining,
               if Low(e, cp) then added + [cp] else added, Repair(state, cp))
  {
    hide CheckpointOK, NoDup;
    var cp := list[i];
    SnocIn(list, i);
    assert cp in list && cp !in frozen0;
    assert cp !in frozen;
    RepairState(e, state, cp);
    if Low(e, cp) { NoDupSnoc(added, cp); }
  }

  lemma RemainKeeps(e: Env, frozen0: map<int, string>, list: seq<int>, i: nat,
                    frozen: map<int, string>, remaining: seq<int>, added: seq<int>, state: Checkpoint)
    requires i < |list| && FailedList(e, frozen0, list)
             && RefineOK(e, frozen0, list, i, frozen, remaining, added, state)
    requires !Repaired(e, list[i])
    ensures RefineOK(e, frozen0, list, i + 1, frozen, remaining + [list[i]], added, state)
  {
    hide CheckpointOK, NoDup;
    SnocIn(list, i);
    NoDupSnoc(remaining, list[i]);
  }

  // ---------------------------------------------------------------- what a finished run shows

  ghost predicate FrozenIs(e: Env, frozen: map<int, string>) {
    && (forall cp :: cp in frozen <==> cp in e.keys && (Easy(e, cp) || Repaired(e, cp)))
    && forall cp | cp in frozen :: frozen[cp] == ModelOf(e, cp)
  }

  ghost predicate FailedIs(e: Env, failed: seq<int>) {
    NoDup(failed) && forall cp :: cp in failed <==> cp in e.keys && Needs(e, cp) && !Repaired(e, cp)
  }

  ghost predicate ExcludedIs(e: Env, excluded: seq<int>) {
    NoDup(excluded) && forall cp :: cp in excluded <==> cp in e.keys && Excluded(e, cp)
  }

  ghost predicate LowIs(e: Env, low: seq<int>) {
    NoDup(low) && forall cp :: cp in low <==> cp in e.keys && Low(e, cp)
  }

  /** Every list of pending code points is planned on non-empty pages, each exactly once. */
  ghost predicate PlansAll(plan: seq<int> -> seq<seq<int>>) {
    forall pending :: PlanCovers(pending, plan(pending))
  }

  ghost predicate PlanCovers(pending: seq<int>, pages: seq<seq<int>>) {
    && (forall cp :: cp in Cells(pages) <==> cp in pending)
    && (NoDup(pending) ==> NoDup(Cells(pages)))
    && |Cells(pages)| == |pending| && |pages| <= |pending|
  }

  function Cells(pages: seq<seq<int>>): seq<int> {
    if pages == [] then [] else Cells(pages[..|pages| - 1]) + pages[|pages| - 1]
  }

  lemma CellsNext(pages: seq<seq<int>>, p: nat)
    requires p < |pages|
    ensures Cells(pages[..p + 1]) == Cells(pages[..p]) + pages[p]
  {
    assert pages[..p + 1][..p] == pages[..p];
  }

  /** A run died, or reached the end of refinement without or with a frozen glyph. */
  datatype RunEnd = Interrupted | NothingFrozen | Completed

  /** The list resumed from the checkpoint, followed by every low-confidence glyph once: after a
      resume the list repeats entries, as a set it does not change. */
  ghost predicate LowAfter(e: Env, resumed: seq<int>, low: seq<int>) {
    && resumed <= low && LowIs(e, low[|resumed|..])
    && forall cp :: cp in low <==> cp in e.keys && Low(e, cp)
  }
}
