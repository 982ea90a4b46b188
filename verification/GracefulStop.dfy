/** What a graceful shutdown or the deadline leaves on the disk: a stop raises without saving. */
module GracefulStop {
  import opened AtlasCache
  import opened Sorting
  import opened PipelineState

  /** Where the deadline or the shutdown flag ended a run, if one of them did. */
  datatype Stop = Nowhere | AtStage | AtPage | AtCell | AtRefine

  /** The checkpoint on disk is the present state. */
  predicate InStep(file: CheckpointFile, state: Checkpoint) { file == Saved(Canonical(state)) }

  /** The next easy glyph completes a checkpoint batch. */
  predicate FullBatch(batch: nat, since: nat) { batch > 0 && since + 1 >= batch }

  /** The cells of a page that froze or failed fast since the page began or last saved a batch. */
  function Unsaved(e: Env, batch: nat, done: seq<int>): seq<int> {
    if done == [] then [] else
      var n := |done| - 1;
      var (u, cp) := (Unsaved(e, batch, done[..n]), done[n]);
      if Easy(e, cp) then (if FullBatch(batch, EasyCount(e, u)) then [] else u + [cp])
      else if e.fast(cp).FastFail? then u + [cp] else u
  }

  predicate BatchSaved(e: Env, batch: nat, done: seq<int>) { batch > 0 && EasyCount(e, done) >= batch }

  /** What a stop inside a page leaves: once something was saved, the file is in step exactly when
      no cell since then froze or failed fast; before that the file is untouched. */
  ghost predicate CellStop(e: Env, batch: nat, file0: CheckpointFile, state0: Checkpoint, done: seq<int>,
                           file: CheckpointFile, state: Checkpoint) {
    if InStep(file0, state0) || BatchSaved(e, batch, done)
    then InStep(file, state) <==> Unsaved(e, batch, done) == []
    else file == file0
  }

  function AfterCell(e: Env, state: Checkpoint, cp: int): Checkpoint {
    if Easy(e, cp) then Freeze(state, cp) else if e.fast(cp).FastFail? then Fail(state, cp) else state
  }

  function SinceAfter(e: Env, batch: nat, since: nat, cp: int): nat {
    if !Easy(e, cp) then since else if FullBatch(batch, since) then 0 else since + 1
  }

  function FileAfter(e: Env, batch: nat, since: nat, cp: int, file: CheckpointFile, state: Checkpoint): CheckpointFile {
    if Easy(e, cp) && FullBatch(batch, since) then Saved(Canonical(state)) else file
  }

  /** Every entry of the state weighs, a frozen glyph twice: repairing a failed one adds weight. */
  function Weight(c: Checkpoint): nat { 2 * |c.frozen| + |c.failed| }

  /** The file holds the state as it was n additions ago. */
  ghost predicate Ledger(file: CheckpointFile, state: Checkpoint, n: nat) {
    file.Saved? && (n == 0 ==> InStep(file, state)) && Weight(state) >= Weight(file.checkpoint) + n
  }

  lemma CanonicalWeight(c: Checkpoint)
    ensures Weight(Canonical(c)) == Weight(c)
  {
    SortLength(c.frozen);
    SortLength(c.failed);
  }

  lemma SortLength(s: seq<int>)
    ensures |Sort(s, Ascending)| == |s|
  {
    SortPermutes(s, Ascending);
    assert |multiset(Sort(s, Ascending))| == |multiset(s)|;
  }

  lemma LedgerOpens(file: CheckpointFile, state: Checkpoint)
    requires InStep(file, state)
    ensures Ledger(file, state, 0)
  {
    CanonicalWeight(state);
  }

  lemma LedgerExact(file: CheckpointFile, state: Checkpoint, n: nat)
    requires Ledger(file, state, n)
    ensures InStep(file, state) <==> n == 0
  {
    CanonicalWeight(state);
  }

  ghost predicate PageLedger(e: Env, batch: nat, file0: CheckpointFile, state0: Checkpoint, done: seq<int>,
                             file: CheckpointFile, state: Checkpoint) {
    if InStep(file0, state0) || BatchSaved(e, batch, done) then Ledger(file, state, |Unsaved(e, batch, done)|)
    else file == file0
  }

  lemma PageLedgerOpens(e: Env, batch: nat, file: CheckpointFile, state: Checkpoint)
    ensures PageLedger(e, batch, file, state, [], file, state)
  {
    if InStep(file, state) { LedgerOpens(file, state); }
  }

  lemma PageLedgerExact(e: Env, batch: nat, file0: CheckpointFile, state0: Checkpoint, done: seq<int>,
                        file: CheckpointFile, state: Checkpoint)
    requires PageLedger(e, batch, file0, state0, done, file, state)
    ensures CellStop(e, batch, file0, state0, done, file, state)
  {
    if InStep(file0, state0) || BatchSaved(e, batch, done) {
      LedgerExact(file, state, |Unsaved(e, batch, done)|);
    }
  }

  lemma {:induction false} UnsavedCounts(e: Env, batch: nat, done: seq<int>)
    requires !BatchSaved(e, batch, done)
    ensures EasyCount(e, Unsaved(e, batch, done)) == EasyCount(e, done)
  {
    if done != [] {
      var n := |done| - 1;
      UnsavedCounts(e, batch, done[..n]);
      EasyCountSnoc(e, Unsaved(e, batch, done[..n]), done[n]);
    }
  }

  lemma EasyCountSnoc(e: Env, s: seq<int>, cp: int)
    ensures EasyCount(e, s + [cp]) == EasyCount(e, s) + if Easy(e, cp) then 1 else 0
  {
    assert (s + [cp])[..|s|] == s;
  }

  lemma UnsavedNext(e: Env, batch: nat, done: seq<int>, since: nat, cp: int)
    requires since == EasyCount(e, Unsaved(e, batch, done))
    ensures SinceAfter(e, batch, since, cp) == EasyCount(e, Unsaved(e, batch, done + [cp]))
    ensures var (u, next) := (Unsaved(e, batch, done), Unsaved(e, batch, done + [cp]));
      next == if Easy(e, cp) then (if FullBatch(batch, since) then [] else u + [cp])
              else if e.fast(cp).FastFail? then u + [cp] else u
  {
    assert (done + [cp])[..|done|] == done;
    EasyCountSnoc(e, Unsaved(e, batch, done), cp);
  }

  lemma BatchNext(e: Env, batch: nat, done: seq<int>, since: nat, cp: int)
    requires since == EasyCount(e, Unsaved(e, batch, done))
    ensures BatchSaved(e, batch, done + [cp])
       <==> BatchSaved(e, batch, done) || (Easy(e, cp) && FullBatch(batch, since))
  {
    EasyCountSnoc(e, done, cp);
    if !BatchSaved(e, batch, done) { UnsavedCounts(e, batch, done); }
  }

  lemma AfterCellWeighs(e: Env, state: Checkpoint, cp: int)
    requires cp !in state.frozen && cp !in state.failed
    ensures Weight(AfterCell(e, state, cp)) >= Weight(state) + if Easy(e, cp) || e.fast(cp).FastFail? then 1 else 0
    ensures !Easy(e, cp) && !e.fast(cp).FastFail? ==> AfterCell(e, state, cp) == state
    ensures AfterCell(e, state, cp).pages == state.pages
  {}

  lemma PageLedgerNext(e: Env, batch: nat, file0: CheckpointFile, state0: Checkpoint, done: seq<int>,
                       file: CheckpointFile, state: Checkpoint, since: nat, cp: int)
    requires PageLedger(e, batch, file0, state0, done, file, state)
    requires since == EasyCount(e, Unsaved(e, batch, done)) && cp !in state.frozen && cp !in state.failed
    ensures SinceAfter(e, batch, since, cp) == EasyCount(e, Unsaved(e, batch, done + [cp]))
    ensures var next := AfterCell(e, state, cp);
      && PageLedger(e, batch, file0, state0, done + [cp], FileAfter(e, batch, since, cp, file, next), next)
      && next.pages == state.pages
  {
    UnsavedNext(e, batch, done, since, cp);
    BatchNext(e, batch, done, since, cp);
    AfterCellWeighs(e, state, cp);
    var next := AfterCell(e, state, cp);
    LedgerOpens(Saved(Canonical(next)), next);
    hide Unsaved, BatchSaved, InStep, Weight, AfterCell, Easy, FullBatch, Canonical;
  }

  /** The frozen glyphs are the earlier ones and the easy ones of the list. */
  ghost predicate FrozenBy(e: Env, frozen: map<int, string>, frozen0: map<int, string>, done: seq<int>) {
    forall cp :: cp in frozen <==> cp in frozen0 || (cp in done && Easy(e, cp))
  }

  lemma FrozenByCell(e: Env, frozen: map<int, string>, frozen1: map<int, string>, frozen0: map<int, string>,
                     done: seq<int>, cp: int)
    requires FrozenBy(e, frozen1, frozen0, done)
    requires frozen == if Easy(e, cp) && cp !in frozen1 then frozen1[cp := e.fast(cp).model] else frozen1
    ensures FrozenBy(e, frozen, frozen0, done + [cp])
  {
    hide Easy;
    forall x
      ensures x in frozen <==> x in frozen0 || (x in done + [cp] && Easy(e, x))
    {
      assert x in frozen <==> x in frozen1 || (x == cp && Easy(e, cp));
    }
  }

  lemma FrozenByThen(e: Env, frozen: map<int, string>, frozen1: map<int, string>, frozen0: map<int, string>,
                     a: seq<int>, b: seq<int>)
    requires FrozenBy(e, frozen1, frozen0, a) && FrozenBy(e, frozen, frozen1, b)
    ensures FrozenBy(e, frozen, frozen0, a + b)
  {
    hide Easy;
  }

  function PagesOf(plan: seq<int> -> seq<seq<int>>, pending: seq<int>): seq<seq<int>> {
    if pending == [] then [] else plan(pending)
  }

  /** The pages are done and saved; each took one check of the wall, and each cell one. */
  ghost predicate PagesDone(pages: seq<seq<int>>, used: int, file0: CheckpointFile, state0: Checkpoint,
                            rasterised: seq<int>, file: CheckpointFile, state: Checkpoint) {
    && rasterised == Cells(pages) && used == |pages| + |rasterised| && state.pages == state0.pages + |pages|
    && if pages == [] then file == file0 && state == state0 else InStep(file, state)
  }

  /** A stop at the check before a page or before a cell of it. */
  ghost predicate PageStop(stop: Stop, e: Env, batch: nat, pages: seq<seq<int>>, used: int,
                           file0: CheckpointFile, state0: Checkpoint, done: seq<int>,
                           rasterised: seq<int>, file: CheckpointFile, state: Checkpoint) {
    var p := state.pages - state0.pages;
    && 0 <= p < |pages| && rasterised == Cells(pages[..p]) + done
    && match stop
       case AtPage =>
         done == [] && used == p + |rasterised|
         && if p == 0 then file == file0 && state == state0 else InStep(file, state)
       case AtCell =>
         done < pages[p] && used == p + 1 + |rasterised|
         && if p == 0 then CellStop(e, batch, file0, state0, done, file, state)
            else InStep(file, state) <==> Unsaved(e, batch, done) == []
       case _ => false
  }

  lemma StopsOnPage(stop: Stop, e: Env, batch: nat, pages: seq<seq<int>>, p: nat, used1: int, used: int,
                    file0: CheckpointFile, state0: Checkpoint, rasterised1: seq<int>,
                    file1: CheckpointFile, state1: Checkpoint, done: seq<int>,
                    file: CheckpointFile, state: Checkpoint)
    requires p < |pages| && PagesDone(pages[..p], used1, file0, state0, rasterised1, file1, state1)
    requires stop == AtPage ==> used == used1 && done == [] && file == file1 && state == state1
    requires stop == AtCell ==>
      used == used1 + 1 + |done| && done < pages[p] && state.pages == state1.pages
      && CellStop(e, batch, file1, state1, done, file, state)
    requires stop == AtPage || stop == AtCell
    ensures PageStop(stop, e, batch, pages, used, file0, state0, done, rasterised1 + done, file, state)
  {
    hide Unsaved, BatchSaved, InStep;
  }

  ghost predicate NoneRepaired(e: Env, done: seq<int>) { forall cp | cp in done :: !Repaired(e, cp) }

  /** What one run knew: the state it resumed, the code points it had to rasterise, and those it had
      done of the page, or of the refinement, on which it stopped. */
  datatype Trace = Trace(resumed: Checkpoint, pending: seq<int>, done: seq<int>)

  /** The state a run resumes: the loaded checkpoint, or none, with the stored glyphs as frozen. */
  ghost predicate Resumes(identity: string, file: CheckpointFile, cache: Cache, resumed: Checkpoint) {
    && NoDup(resumed.frozen) && (forall cp :: cp in resumed.frozen <==> OnDisk(identity, file, cache, cp))
    && var c := Loaded(file, identity);
       resumed == (if c.Some? then c.value else Checkpoint(identity, 0, [], [], [])).(frozen := resumed.frozen)
  }

  ghost predicate IsPending(e: Env, identity: string, file: CheckpointFile, cache: Cache, pending: seq<int>) {
    NoDup(pending) && forall cp :: cp in pending <==> cp in e.keys && !Settled(identity, file, cache, cp)
  }

  /** Where a run stops that the wall ends at its check number checks, counted from zero, and what the
      disk then holds. */
  ghost predicate StopsAt(stop: Stop, e: Env, batch: nat, pages: seq<seq<int>>, checks: nat, file0: CheckpointFile,
                          t: Trace, rasterised: seq<int>, failed: seq<int>, file: CheckpointFile, state: Checkpoint) {
    match stop
    case Nowhere => true
    case AtStage =>
      if checks < 2 then rasterised == [] && file == file0 && state == t.resumed
      else PagesDone(pages, checks - 2, file0, t.resumed, rasterised, file, state)
    case AtRefine =>
      && rasterised == Cells(pages) && state.pages == t.resumed.pages + |pages|
      && t.done < failed && checks == 3 + |pages| + |rasterised| + |t.done|
      && if pages == [] && !InStep(file0, t.resumed) then file == file0
         else InStep(file, state) <==> NoneRepaired(e, t.done)
    case _ => PageStop(stop, e, batch, pages, checks - 2, file0, t.resumed, t.done, rasterised, file, state)
  }

  // ---------------------------------------------------------------- steps of a run

  lemma FrozenOfStored(e: Env, identity: string, file: CheckpointFile, cache: Cache, frozen0: map<int, string>,
                       frozen: map<int, string>, done: seq<int>)
    requires FrozenBy(e, frozen, frozen0, done) && forall cp :: cp in frozen0 <==> OnDisk(identity, file, cache, cp)
    ensures forall cp :: cp in frozen <==> OnDisk(identity, file, cache, cp) || (cp in done && Easy(e, cp))
  {
    hide OnDisk, Easy;
  }

  lemma NothingUnsaved(e: Env, batch: nat)
    ensures EasyCount(e, Unsaved(e, batch, [])) == 0
  {}

  lemma NotNoted(e: Env, frozen: map<int, string>, failed: seq<int>, excluded: seq<int>, state: Checkpoint, cp: int)
    requires RasterOK(e, frozen, failed, excluded, state) && !Handled(frozen, failed, excluded, cp)
    ensures cp !in state.frozen && cp !in state.failed
  {}

  lemma NoPages(file: CheckpointFile, state: Checkpoint)
    ensures PagesDone([], 0, file, state, [], file, state) && Cells([]) == []
  {}

  lemma FrozenByNone(e: Env, frozen: map<int, string>)
    ensures FrozenBy(e, frozen, frozen, [])
  {}

  lemma NextPageDone(pages: seq<seq<int>>, p: nat, used1: int, file0: CheckpointFile, state0: Checkpoint,
                     rasterised1: seq<int>, file1: CheckpointFile, state1: Checkpoint,
                     file: CheckpointFile, state: Checkpoint)
    requires p < |pages| && PagesDone(pages[..p], used1, file0, state0, rasterised1, file1, state1)
    requires InStep(file, state) && state.pages == state1.pages + 1
    ensures PagesDone(pages[..p + 1], used1 + 1 + |pages[p]|, file0, state0, rasterised1 + pages[p], file, state)
  {
    hide InStep;
    CellsNext(pages, p);
  }

  lemma NoneRepairedYet(e: Env)
    ensures NoneRepaired(e, [])
  {}

  lemma NoneRepairedNext(e: Env, done: seq<int>, cp: int)
    ensures NoneRepaired(e, done + [cp]) <==> NoneRepaired(e, done) && !Repaired(e, cp)
  {
    assert cp in done + [cp];
  }

  lemma MustRepairOrNot(e: Env, frozen0: map<int, string>, list: seq<int>, i: nat)
    requires i < |list| && FailedList(e, frozen0, list)
    ensures Repaired(e, list[i]) <==> e.refine(list[i]).RefinedPass?
  {
    assert list[i] in list;
  }

  lemma RepairWeighs(file: CheckpointFile, state: Checkpoint, n: nat, cp: int)
    requires Ledger(file, state, n)
    ensures Ledger(file, Repair(state, cp), n + 1)
  {
    WithoutOne(state.failed, cp);
  }

  lemma {:induction false} WithoutOne(s: seq<int>, x: int)
    ensures |Without(s, x)| >= |s| - 1
  {
    if s != [] { WithoutOne(s[1..], x); }
  }

  lemma PendingIs(e: Env, identity: string, file: CheckpointFile, cache: Cache, frozen: map<int, string>,
                  failed: seq<int>, pending: seq<int>)
    requires forall cp :: Settled(identity, file, cache, cp) <==> cp in frozen || cp in failed
    requires NoDup(pending) && forall cp :: cp in pending <==> cp in e.keys && cp !in frozen && cp !in failed
    ensures IsPending(e, identity, file, cache, pending)
  {
    hide Settled, NoDup;
  }

  lemma StopsEarly(stop: Stop, e: Env, batch: nat, pages: seq<seq<int>>, checks: nat, file0: CheckpointFile,
                   t: Trace, rasterised: seq<int>, failed: seq<int>, file: CheckpointFile, state: Checkpoint)
    requires stop == AtStage ==> checks < 2 && rasterised == [] && file == file0 && state == t.resumed
    requires stop == AtStage || stop == Nowhere
    ensures StopsAt(stop, e, batch, pages, checks, file0, t, rasterised, failed, file, state)
  {}

  lemma StopIsBounded(stop: Stop, e: Env, batch: nat, pages: seq<seq<int>>, checks: nat, file0: CheckpointFile,
                      t: Trace, rasterised: seq<int>, failed: seq<int>, file: CheckpointFile, state: Checkpoint, k: nat)
    requires StopsAt(stop, e, batch, pages, checks, file0, t, rasterised, failed, file, state) && stop != Nowhere
    requires |pages| <= k && |rasterised| <= k && (stop == AtRefine ==> |failed| <= k)
    ensures checks <= 3 * k + 3
  {
    hide InStep, NoneRepaired, CellStop, Unsaved;
  }

  lemma StopsInPass(stop: Stop, e: Env, batch: nat, pages: seq<seq<int>>, checks: nat, file0: CheckpointFile,
                    t: Trace, rasterised: seq<int>, failed: seq<int>, file: CheckpointFile, state: Checkpoint)
    requires stop == AtPage || stop == AtCell || stop == Nowhere
    requires stop != Nowhere ==>
      PageStop(stop, e, batch, pages, checks - 2, file0, t.resumed, t.done, rasterised, file, state)
    ensures StopsAt(stop, e, batch, pages, checks, file0, t, rasterised, failed, file, state)
  {}

  lemma StopsAfterPass(stop: Stop, e: Env, batch: nat, pages: seq<seq<int>>, checks: nat, used: int,
                       file0: CheckpointFile, t: Trace, rasterised: seq<int>, failed: seq<int>,
                       file: CheckpointFile, state: Checkpoint)
    requires PagesDone(pages, used - 2, file0, t.resumed, rasterised, file, state)
    requires stop == Nowhere || (stop == AtStage && checks == used)
    ensures StopsAt(stop, e, batch, pages, checks, file0, t, rasterised, failed, file, state)
    ensures used == 2 + |pages| + |rasterised|
  {
    hide InStep;
  }

  lemma StopsRefining(stop: Stop, e: Env, batch: nat, pages: seq<seq<int>>, checks: nat, used: int,
                      file0: CheckpointFile, t: Trace, rasterised: seq<int>, failed: seq<int>,
                      file1: CheckpointFile, state1: Checkpoint, file: CheckpointFile, state: Checkpoint)
    requires PagesDone(pages, used - 2, file0, t.resumed, rasterised, file1, state1)
    requires stop == Nowhere || stop == AtRefine
    requires stop == AtRefine ==>
      && file == file1 && state.pages == state1.pages && t.done < failed && checks == used + 1 + |t.done|
      && (InStep(file1, state1) ==> (InStep(file, state) <==> NoneRepaired(e, t.done)))
    ensures StopsAt(stop, e, batch, pages, checks, file0, t, rasterised, failed, file, state)
  {
    hide InStep, NoneRepaired;
  }

  // ---------------------------------------------------------------- when the state is on disk

  /** The run saved its state before it stopped, or resumed a file that was in step. */
  predicate SavedOnce(stop: Stop, e: Env, batch: nat, file0: CheckpointFile, t: Trace, state: Checkpoint) {
    InStep(file0, t.resumed) || state.pages > t.resumed.pages || (stop == AtCell && BatchSaved(e, batch, t.done))
  }

  /** Nothing was added to the state since the last save. */
  ghost predicate AllSaved(stop: Stop, e: Env, batch: nat, done: seq<int>) {
    match stop
    case AtCell => Unsaved(e, batch, done) == []
    case AtRefine => NoneRepaired(e, done)
    case _ => true
  }

  /** The first k cells end with the easy glyph that completes a batch, or there are none. */
  predicate SavePoint(e: Env, batch: nat, done: seq<int>, k: nat)
    requires k <= |done|
  {
    k == 0 || (batch > 0 && Easy(e, done[k - 1]) && EasyCount(e, done[..k]) % batch == 0)
  }

  /** No cell from the given one on froze or failed fast. */
  ghost predicate QuietFrom(e: Env, done: seq<int>, k: nat) {
    forall i | k <= i < |done| :: !Easy(e, done[i]) && !e.fast(done[i]).FastFail?
  }

  lemma NextModulo(c: nat, batch: nat)
    requires batch > 0
    ensures (c + 1) % batch == if c % batch + 1 >= batch then 0 else c % batch + 1
  {
    var (q, r) := (c / batch, c % batch);
    assert c == q * batch + r;
    if r + 1 < batch {
      Remainder(c + 1, batch, q, r + 1);
    } else {
      assert (q + 1) * batch == q * batch + batch;
      Remainder(c + 1, batch, q + 1, 0);
    }
  }

  lemma Remainder(c: nat, batch: nat, q: nat, r: nat)
    requires r < batch && c == q * batch + r
    ensures c % batch == r
  {
    var d := q - c / batch;
    assert d * batch == c % batch - r;
    assert d >= 1 ==> d * batch >= batch;
    assert d <= -1 ==> d * batch + batch <= 0;
  }

  /** Counted from the start of the page, a batch is saved at every multiple of its size. */
  lemma {:induction false} UnsavedModulo(e: Env, batch: nat, done: seq<int>)
    requires batch > 0
    ensures EasyCount(e, Unsaved(e, batch, done)) == EasyCount(e, done) % batch
  {
    if done != [] {
      var n := |done| - 1;
      UnsavedModulo(e, batch, done[..n]);
      EasyCountSnoc(e, Unsaved(e, batch, done[..n]), done[n]);
      NextModulo(EasyCount(e, done[..n]), batch);
    }
  }

  lemma QuietStep(e: Env, batch: nat, before: seq<int>, cp: int)
    ensures var done := before + [cp];
      && (forall k: nat | k <= |before| ::
            (SavePoint(e, batch, done, k) <==> SavePoint(e, batch, before, k))
            && (QuietFrom(e, done, k) <==> QuietFrom(e, before, k) && !Easy(e, cp) && !e.fast(cp).FastFail?))
      && QuietFrom(e, done, |done|)
  {
    var done := before + [cp];
    assert done[|before|] == cp;
    forall k: nat | k <= |before|
      ensures SavePoint(e, batch, done, k) <==> SavePoint(e, batch, before, k)
      ensures QuietFrom(e, done, k) <==> QuietFrom(e, before, k) && !Easy(e, cp) && !e.fast(cp).FastFail?
    {
      assert done[..k] == before[..k];
      assert forall i | k <= i < |before| :: done[i] == before[i];
    }
  }

  ghost predicate QuietSinceSave(e: Env, batch: nat, done: seq<int>) {
    exists k: nat :: k <= |done| && SavePoint(e, batch, done, k) && QuietFrom(e, done, k)
  }

  lemma QuietSinceNext(e: Env, batch: nat, before: seq<int>, cp: int)
    ensures var done := before + [cp];
      QuietSinceSave(e, batch, done) <==>
        || (!Easy(e, cp) && !e.fast(cp).FastFail? && QuietSinceSave(e, batch, before))
        || SavePoint(e, batch, done, |done|)
  {
    var done := before + [cp];
    QuietStep(e, batch, before, cp);
    hide SavePoint, QuietFrom, Easy;
    if QuietSinceSave(e, batch, done) {
      var k: nat :| k <= |done| && SavePoint(e, batch, done, k) && QuietFrom(e, done, k);
      if k <= |before| { assert SavePoint(e, batch, before, k) && QuietFrom(e, before, k); }
    }
    if QuietSinceSave(e, batch, before) && !Easy(e, cp) && !e.fast(cp).FastFail? {
      var k: nat :| k <= |before| && SavePoint(e, batch, before, k) && QuietFrom(e, before, k);
      assert SavePoint(e, batch, done, k) && QuietFrom(e, done, k);
    }
  }

  /** The cell that completes a batch is a save point. */
  lemma SavePointNext(e: Env, batch: nat, before: seq<int>, cp: int)
    ensures var done := before + [cp];
      SavePoint(e, batch, done, |done|)
      <==> Easy(e, cp) && FullBatch(batch, EasyCount(e, Unsaved(e, batch, before)))
  {
    hide Unsaved, Easy;
    var done := before + [cp];
    assert done[..|done|] == done;
    EasyCountSnoc(e, before, cp);
    if batch > 0 {
      UnsavedModulo(e, batch, before);
      NextModulo(EasyCount(e, before), batch);
    }
  }

  /** Nothing of a page is unsaved exactly when, after its last save point, no cell froze or failed
      fast. */
  lemma {:induction false} UnsavedEmptyExactly(e: Env, batch: nat, done: seq<int>)
    ensures Unsaved(e, batch, done) == [] <==> QuietSinceSave(e, batch, done)
  {
    if done == [] {
      assert SavePoint(e, batch, done, 0) && QuietFrom(e, done, 0);
    } else {
      var n := |done| - 1;
      var (before, cp) := (done[..n], done[n]);
      UnsavedEmptyExactly(e, batch, before);
      QuietSinceNext(e, batch, before, cp);
      SavePointNext(e, batch, before, cp);
      assert before + [cp] == done;
      hide QuietSinceSave, SavePoint, Easy, FullBatch, EasyCount;
    }
  }

  /** A stop saves nothing: it leaves the state on disk exactly when, since the last save, no cell of
      the page froze or failed fast and refinement repaired nothing; with no save at all it leaves the
      disk as it was, which is in step with no state when nothing was loaded from it. */
  lemma StopInStepExactly(
      stop: Stop, e: Env, batch: nat, pages: seq<seq<int>>, checks: nat, file0: CheckpointFile, t: Trace,
      rasterised: seq<int>, failed: seq<int>, file: CheckpointFile, state: Checkpoint)
    requires stop != Nowhere && StopsAt(stop, e, batch, pages, checks, file0, t, rasterised, failed, file, state)
    ensures SavedOnce(stop, e, batch, file0, t, state) ==> (InStep(file, state) <==> AllSaved(stop, e, batch, t.done))
    ensures !SavedOnce(stop, e, batch, file0, t, state) ==>
      file == file0 && (Loaded(file0, state.identity).None? ==> !InStep(file, state))
  {
    hide Unsaved, BatchSaved, NoneRepaired, Cells;
  }
}
