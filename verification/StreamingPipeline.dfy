/** The streaming run with its durable resume. A process can die between any two steps; the cache can
    lose or spoil entries between runs. What a glyph gives is a fixed function of its code point. */
module StreamingPipeline {
  import opened AtlasCache
  import opened Sorting
  import opened PipelineState
  import opened GracefulStop

  class AtlasUltraPipeline {
    const e: Env
    const identity: string
    const batch: nat
    // the disk
    var file: CheckpointFile
    var cache: Cache
    // steps until the process dies, and checks of the wall until it is met
    var fuel: nat
    var checks: nat
    var stop: Stop
    // memory of one run
    var state: Checkpoint
    var frozen: map<int, string>
    var failed: seq<int>
    var excluded: seq<int>
    var lowConfidence: seq<int>
    // code points whose cells this run has rasterised, in order
    var rasterised: seq<int>

    constructor (e: Env, identity: string, batch: nat)
      ensures this.e == e && this.identity == identity && this.batch == batch
      ensures file == Missing && cache == map[]
    {
      this.e, this.identity, this.batch := e, identity, batch;
      file, cache, fuel, checks, stop := Missing, map[], 0, 0, Nowhere;
      state := Checkpoint(identity, 0, [], [], []);
      frozen, failed, excluded, lowConfidence, rasterised := map[], [], [], [], [];
    }

    ghost predicate Durable()
      reads this`file, this`cache
    {
      NoDup(e.keys) && DiskOK(e, identity, file, cache)
    }

    ghost predicate Running()
      reads this`file, this`cache, this`state, this`frozen, this`failed, this`excluded
    {
      && Durable() && RasterOK(e, frozen, failed, excluded, state)
      && Backed(e, state.frozen, cache) && state.identity == identity
      && Covers(identity, file, cache, state.frozen)
    }

    ghost predicate IsWarm()
      reads this`file, this`cache
    {
      Warm(e, identity, file, cache)
    }

    /** Every easy glyph rasterised so far is frozen, and all but the last few are stored. */
    ghost predicate Tracked(since: nat)
      reads this`file, this`cache, this`frozen, this`rasterised
    {
      && Lags(e, identity, file, cache, rasterised, since) && (batch > 0 ==> since < batch)
      && Recorded(e, rasterised, frozen)
    }

    /** A death here loses at most one batch of easy glyphs. */
    ghost predicate LosesAtMostABatch()
      reads this`file, this`cache, this`rasterised
    {
      batch > 0 ==> Lags(e, identity, file, cache, rasterised, batch)
    }

    ghost predicate IsStored(cp: int)
      reads this`file, this`cache
    {
      OnDisk(identity, file, cache, cp)
    }

    /** One step of the process, unless it dies here. */
    method Step() returns (alive: bool)
      modifies this`fuel
      ensures alive <==> old(fuel) > 0
      ensures fuel == if alive then old(fuel) - 1 else 0
    {
      if fuel == 0 { return false; }
      fuel := fuel - 1;
      alive := true;
    }

    /** A look at the deadline and the shutdown flag: when one of them is met, the run is over. */
    method CheckWall(site: Stop) returns (alive: bool)
      requires stop == Nowhere && site != Nowhere
      modifies this`fuel, this`checks, this`stop
      ensures fuel == if old(fuel) > 0 then old(fuel) - 1 else 0
      ensures alive <==> old(fuel) > 0 && old(checks) > 0
      ensures checks == if alive then old(checks) - 1 else old(checks)
      ensures stop == if old(fuel) > 0 && old(checks) == 0 then site else Nowhere
    {
      alive := Step();
      if !alive { return; }
      if checks == 0 {
        stop := site;
        return false;
      }
      checks := checks - 1;
    }

    method SaveCheckpoint() returns (alive: bool)
      requires Durable() && CheckpointOK(e, state) && Backed(e, state.frozen, cache) && state.identity == identity
      requires Covers(identity, file, cache, state.frozen)
      modifies this`fuel, this`file
      ensures Durable() && (old(IsWarm()) ==> IsWarm()) && Covers(identity, file, cache, state.frozen)
      ensures Progress(identity, old(file), cache, file, cache)
      ensures file == if alive then Saved(Canonical(state)) else old(file)
      ensures alive ==> IsWarm() && forall cp | cp in state.frozen && Easy(e, cp) :: IsStored(cp)
      ensures old(fuel) - 1 <= fuel <= old(fuel) && (!alive ==> fuel == 0)
    {
      hide DiskOK, CheckpointOK, Warm, NoDup, OnDisk;
      alive := Step();
      if !alive { return; }
      SaveKeepsDisk(e, identity, file, cache);
      SaveKeeps(e, identity, cache, state);
      SaveStores(identity, file, cache, state);
      file := Saved(Canonical(state));
    }

    /** Load the checkpoint; frozen entries without a decodable cached model are dropped. */
    method Resume()
      requires Durable()
      modifies this`state, this`frozen, this`failed, this`excluded, this`lowConfidence, this`rasterised
      ensures Running() && excluded == [] && rasterised == [] && lowConfidence == ResumedLow(file, identity)
      ensures forall cp :: cp in frozen <==> IsStored(cp)
      ensures forall cp | cp in frozen :: frozen[cp] == cache[cp].model
      ensures var c := Loaded(file, identity);
        && failed == (if c.Some? then c.value.failed else [])
        && state == (if c.Some? then c.value else Checkpoint(identity, 0, [], [], [])).(frozen := state.frozen)
      ensures Resumes(identity, file, cache, state)
    {
      hide DiskOK, Backed;
      frozen, failed, excluded, rasterised := map[], [], [], [];
      var loaded := Loaded(file, identity);
      LoadedIsOK(e, identity, file, cache);
      state := if loaded.Some? then loaded.value else Checkpoint(identity, 0, [], [], []);
      lowConfidence := state.lowConfidence;
      var list := state.frozen;
      ghost var start := state;
      assert list[..0] == [];
      for i := 0 to |list|
        invariant Kept(e, list, i, cache, frozen, state.frozen)
        invariant state == start.(frozen := state.frozen) && failed == [] && excluded == [] && rasterised == []
        invariant lowConfidence == start.lowConfidence
      {
        var cp := list[i];
        KeepNext(e, list, i, cache, frozen, state.frozen);
        if cp !in cache || cache[cp].Spoiled? {
          state := state.(frozen := Without(state.frozen, cp));
        } else {
          frozen := frozen[cp := cache[cp].model];
        }
      }
      KeptAll(e, list, cache, frozen, start, state);
      KeptIsStored(e, identity, file, cache, list, frozen);
      ghost var known := frozen;
      var retry, keep := state.failed, [];
      for i := 0 to |retry|
        invariant keep == retry[..i] && frozen == known
      {
        var cp := retry[i];
        assert cp in retry && Needs(e, cp);
        if cp !in frozen { keep := keep + [cp]; }
      }
      assert retry[..|retry|] == retry;
      failed := keep;
    }

    /** The code points still to be rasterised, in increasing order. */
    method Pending() returns (pending: seq<int>)
      requires NoDup(e.keys)
      ensures NoDup(pending) && forall cp :: cp in pending <==> cp in e.keys && cp !in frozen && cp !in failed
      ensures |pending| <= |e.keys|
    {
      pending := [];
      var sorted := Sort(e.keys, Ascending);
      SortPermutes(e.keys, Ascending);
      SortKeepsList(e.keys);
      for i := 0 to |sorted|
        invariant NoDup(pending) && |pending| <= i
        invariant forall cp :: cp in pending <==> cp in sorted[..i] && cp !in frozen && cp !in failed
      {
        var cp := sorted[i];
        SnocIn(sorted, i);
        if cp !in frozen && cp !in failed { pending := pending + [cp]; }
      }
      assert sorted[..|sorted|] == sorted;
    }

    /** The fast geometry of one fetched cell. */
    method Rasterise(cp: int) returns (r: Fast)
      modifies this`rasterised
      ensures rasterised == old(rasterised) + [cp] && r == e.fast(cp)
    {
      rasterised := rasterised + [cp];
      r := e.fast(cp);
    }

    /** Stores an easy glyph; after a batch of them a checkpoint follows. */
    method KeepGlyph(cp: int, model: string, since: nat) returns (alive: bool, now: nat)
      requires Running() && cp in e.keys && Easy(e, cp) && model == e.fast(cp).model
      requires Lags(e, identity, file, cache, rasterised, since + 1) && (batch > 0 ==> since < batch)
      requires Recorded(e, rasterised, frozen[cp := model])
      modifies this`fuel, this`file, this`cache, this`state, this`frozen
      ensures Durable() && (old(IsWarm()) ==> IsWarm()) && LosesAtMostABatch()
      ensures Progress(identity, old(file), old(cache), file, cache)
      ensures alive ==> Running() && Tracked(now) && frozen == old(frozen)[cp := model]
      ensures alive ==> state == Freeze(old(state), cp)
      ensures alive ==> now == if FullBatch(batch, since) then 0 else since + 1
      ensures alive ==> file == if FullBatch(batch, since) then Saved(Canonical(state)) else old(file)
      ensures old(fuel) - 2 <= fuel <= old(fuel) && (!alive ==> fuel == 0)
    {
      hide RasterOK, DiskOK, Warm, NoDup, OnDisk, Lags, Handles;
      ghost var (file0, cache0, state0) := (file, cache, state);
      FreezeKeeps(e, frozen, failed, excluded, state, cp);
      StoreKeeps(e, identity, file, cache, state, cp);
      frozen := frozen[cp := model];
      now := since + 1;
      if cp !in state.frozen { state := state.(frozen := state.frozen + [cp]); }
      assert state == Freeze(state0, cp);
      CoversMore(identity, file, cache, state0.frozen, state.frozen);
      if batch > 0 { LagsKept(e, identity, file, cache, file, cache, rasterised, now, batch); }
      alive := Step();
      if !alive { return; }
      cache := cache[cp := Good(model)];
      StoreProgress(identity, file, cache0, state.frozen, cp, model);
      LagsKept(e, identity, file, cache0, file, cache, rasterised, now, now);
      if batch > 0 { LagsKept(e, identity, file, cache0, file, cache, rasterised, now, batch); }
      if batch > 0 && now >= batch {
        RunningState(e, frozen, failed, excluded, state);
        alive := SaveCheckpoint();
        ProgressThen(identity, file0, cache0, file0, cache, file, cache);
        LagsKept(e, identity, file0, cache, file, cache, rasterised, now, batch);
        if alive {
          RecordedIsStored(e, identity, file, cache, rasterised, frozen, failed, excluded, state);
          now := 0;
        }
      }
    }

    /** One cell of a page. */
    method RasterCell(cp: int, since: nat) returns (alive: bool, now: nat)
      requires Running() && Tracked(since) && cp in e.keys && cp !in failed && cp !in excluded && stop == Nowhere
      modifies this`fuel, this`checks, this`stop
      modifies this`file, this`cache, this`state, this`frozen, this`failed, this`excluded, this`rasterised
      ensures Durable() && (old(IsWarm()) ==> IsWarm()) && LosesAtMostABatch()
      ensures Progress(identity, old(file), old(cache), file, cache)
      ensures alive ==> Running() && Tracked(now)
      ensures alive ==> Handles(frozen, failed, excluded, old(frozen), old(failed), old(excluded), [cp])
      ensures rasterised == old(rasterised) || (cp !in old(frozen) && rasterised == old(rasterised) + [cp])
      ensures alive && cp !in old(frozen) ==> rasterised == old(rasterised) + [cp]
      ensures alive ==>
        frozen == if Easy(e, cp) && cp !in old(frozen) then old(frozen)[cp := e.fast(cp).model] else old(frozen)
      ensures alive && cp in old(frozen) ==> state == old(state) && file == old(file) && now == since
      ensures alive && cp !in old(frozen) ==>
        && state == AfterCell(e, old(state), cp) && now == SinceAfter(e, batch, since, cp)
        && file == FileAfter(e, batch, since, cp, old(file), state)
      // a stop here leaves all as it is
      ensures alive ==> stop == Nowhere && checks == old(checks) - 1
      ensures stop != Nowhere ==>
        && !alive && stop == AtCell && old(checks) == 0 && Running()
        && unchanged(this`file, this`cache, this`state, this`frozen, this`failed, this`excluded, this`rasterised)
      ensures old(fuel) - 3 <= fuel <= old(fuel) && (!alive ==> fuel == 0 || stop != Nowhere)
    {
      hide RasterOK, DiskOK, Backed, Warm, NoDup, Handles, OnDisk, Lags, Canonical, IsWarm, Progress, Covers;
      now := since;
      ghost var (fz, fl, ex) := (frozen, failed, excluded);
      NothingLost(since);
      alive := CheckWall(AtCell);
      if !alive { return; }
      if cp in frozen {
        AlreadyFrozen(frozen, failed, excluded, cp);
        return;
      }
      LagsMore(e, identity, file, cache, rasterised, since, cp);
      var fast := Rasterise(cp);
      if batch > 0 && !Easy(e, cp) { LagsKept(e, identity, file, cache, file, cache, rasterised, since, batch); }
      match fast {
        case MissingImage =>
          FailKeeps(e, frozen, failed, excluded, state, cp);
          failed := failed + [cp];
        case FastFail =>
          FailKeeps(e, frozen, failed, excluded, state, cp);
          FailKeepsBacked(e, state, cp, cache);
          failed := failed + [cp];
          if cp !in state.failed { state := state.(failed := state.failed + [cp]); }
        case EasyPass(model, zeroInk) =>
          if zeroInk && cp != SPACE {
            ExcludeKeeps(e, frozen, failed, excluded, state, cp);
            excluded := excluded + [cp];
            return;
          }
          FreezeKeeps(e, frozen, failed, excluded, state, cp);
          alive, now := KeepGlyph(cp, model, since);
      }
    }

    lemma NothingLost(since: nat)
      requires Running() && Tracked(since)
      ensures Durable() && LosesAtMostABatch() && Progress(identity, file, cache, file, cache) && NoDup(e.keys)
      ensures state.identity == identity
    {
      hide Lags, DiskOK;
      if batch > 0 { LagsKept(e, identity, file, cache, file, cache, rasterised, since, batch); }
    }

    lemma FewToRefine()
      requires Running()
      ensures RasterOK(e, frozen, failed, excluded, state) && |failed| <= |e.keys|
    {
      hide RasterOK;
      FewFailed(e, frozen, failed, excluded, state);
    }

    lemma StartsRefining()
      requires Running()
      ensures FailedList(e, frozen, failed) && RefineOK(e, frozen, failed, 0, frozen, [], [], state)
      ensures Durable() && Progress(identity, file, cache, file, cache) && state.identity == identity
      ensures Backed(e, state.frozen, cache) && Covers(identity, file, cache, state.frozen)
      ensures forall cp :: cp in state.frozen <==> cp in frozen
    {
      hide DiskOK, Backed, Covers, RefineOK, FailedList;
      RefineStart(e, frozen, failed, excluded, state);
    }

    lemma LosesNoMore(file0: CheckpointFile)
      requires batch > 0 ==> Lags(e, identity, file0, cache, rasterised, batch)
      requires Progress(identity, file0, cache, file, cache)
      ensures LosesAtMostABatch()
    {
      hide Lags, Progress;
      if batch > 0 { LagsKept(e, identity, file0, cache, file, cache, rasterised, batch, batch); }
    }

    /** A completed page is counted and saved. */
    method SavePage(since: nat) returns (alive: bool)
      requires Running() && Tracked(since)
      modifies this`fuel, this`file, this`state
      ensures Durable() && (old(IsWarm()) ==> IsWarm()) && LosesAtMostABatch()
      ensures Progress(identity, old(file), cache, file, cache)
      ensures alive ==> Running() && Tracked(0) && InStep(file, state) && forall cp | cp in frozen :: IsStored(cp)
      ensures state == old(state).(pages := old(state).pages + 1)
      ensures old(fuel) - 1 <= fuel <= old(fuel) && (!alive ==> fuel == 0)
    {
      hide RasterOK, DiskOK, Backed, Warm, OnDisk, Lags, NoDup, Recorded, Canonical;
      RunningState(e, frozen, failed, excluded, state);
      NextPage(e, frozen, failed, excluded, state, cache);
      state := state.(pages := state.pages + 1);
      if batch > 0 { LagsKept(e, identity, file, cache, file, cache, rasterised, since, batch); }
      ghost var file0 := file;
      alive := SaveCheckpoint();
      if batch > 0 { LagsKept(e, identity, file0, cache, file, cache, rasterised, batch, batch); }
      if alive {
        RecordedIsStored(e, identity, file, cache, rasterised, frozen, failed, excluded, state);
        FrozenIsSaved(e, frozen, failed, excluded, state);
      }
    }

    /** One page: its cells, then a checkpoint. */
    method RasterPage(cells: seq<int>) returns (alive: bool)
      requires Running() && Tracked(0) && NoDup(cells) && stop == Nowhere
      requires forall cp | cp in cells :: cp in e.keys && !Handled(frozen, failed, excluded, cp)
      modifies this`fuel, this`checks, this`stop
      modifies this`file, this`cache, this`state, this`frozen, this`failed, this`excluded, this`rasterised
      ensures Durable() && (old(IsWarm()) ==> IsWarm()) && LosesAtMostABatch()
      ensures Progress(identity, old(file), old(cache), file, cache)
      ensures old(rasterised) <= rasterised <= old(rasterised) + cells
      ensures alive ==> rasterised == old(rasterised) + cells && Running() && Tracked(0)
      ensures alive ==> Handles(frozen, failed, excluded, old(frozen), old(failed), old(excluded), cells)
      ensures alive ==> InStep(file, state) && state.pages == old(state).pages + 1
      ensures alive ==> forall cp | cp in frozen :: IsStored(cp)
      // what a stop leaves
      ensures alive ==>
        stop == Nowhere && checks == old(checks) - 1 - |cells| && FrozenBy(e, frozen, old(frozen), cells)
      ensures stop != Nowhere ==> !alive && (stop == AtPage || stop == AtCell)
      ensures alive || stop != Nowhere ==> state.identity == identity
      ensures stop == AtPage ==>
        old(checks) == 0 && unchanged(this`file, this`state, this`frozen, this`rasterised)
      ensures stop == AtCell ==> var done := rasterised[|old(rasterised)|..];
        && done < cells && old(checks) == 1 + |done| && state.pages == old(state).pages
        && CellStop(e, batch, old(file), old(state), done, file, state) && FrozenBy(e, frozen, old(frozen), done)
      ensures old(fuel) - 3 * |cells| - 2 <= fuel <= old(fuel) && (!alive ==> fuel == 0 || stop != Nowhere)
    {
      hide RasterOK, DiskOK, Backed, Warm, Handles, OnDisk, Lags, NoDup, Recorded, Canonical;
      hide PageLedger, CellStop, Unsaved, AfterCell, FileAfter, SinceAfter, FrozenBy, InStep;
      hide Tracked, LosesAtMostABatch, IsWarm, IsStored, Progress, Durable;
      ghost var (fz, fl, ex, file0, cache0, state0) := (frozen, failed, excluded, file, cache, state);
      NothingLost(0);
      alive := CheckWall(AtPage);
      if !alive { return; }
      var since := 0;
      PageLedgerOpens(e, batch, file, state);
      FrozenByNone(e, frozen);
      NothingUnsaved(e, batch);
      HandlesNone(frozen, failed, excluded);
      assert cells[..0] == [];
      for j := 0 to |cells|
        invariant alive && Running() && Tracked(since) && (old(IsWarm()) ==> IsWarm()) && LosesAtMostABatch()
        invariant Handles(frozen, failed, excluded, fz, fl, ex, cells[..j])
                  && Progress(identity, file0, cache0, file, cache)
        invariant rasterised == old(rasterised) + cells[..j] && state.pages == old(state).pages
        invariant since == EasyCount(e, Unsaved(e, batch, cells[..j])) && FrozenBy(e, frozen, fz, cells[..j])
        invariant PageLedger(e, batch, file0, state0, cells[..j], file, state)
        invariant stop == Nowhere && checks == old(checks) - 1 - j
        invariant old(fuel) - 3 * j - 1 <= fuel <= old(fuel)
      {
        var cp := cells[j];
        assert cp in cells;
        NotYet(frozen, failed, excluded, fz, fl, ex, cells, j);
        ghost var (fz1, fl1, ex1, file1, cache1) := (frozen, failed, excluded, file, cache);
        assert cells[..j + 1] == cells[..j] + [cp];
        assert old(rasterised) + cells[..j + 1] == (old(rasterised) + cells[..j]) + [cp];
        assert cells[..j + 1] <= cells;
        NotNoted(e, frozen, failed, excluded, state, cp);
        PageLedgerNext(e, batch, file0, state0, cells[..j], file, state, since, cp);
        alive, since := RasterCell(cp, since);
        ProgressThen(identity, file0, cache0, file1, cache1, file, cache);
        if !alive {
          if stop == AtCell {
            assert rasterised[|old(rasterised)|..] == cells[..j];
            PageLedgerExact(e, batch, file0, state0, cells[..j], file, state);
          }
          return;
        }
        FrozenByCell(e, frozen, fz1, fz, cells[..j], cp);
        HandlesThen(frozen, failed, excluded, fz1, fl1, ex1, fz, fl, ex, cells[..j], [cp]);
      }
      assert cells[..|cells|] == cells;
      ghost var file1 := file;
      alive := SavePage(since);
      ProgressThen(identity, file0, cache0, file1, cache, file, cache);
    }

    /** The pages of the code points still to be rasterised, one after another. */
    method RasterPass(plan: seq<int> -> seq<seq<int>>)
      returns (alive: bool, ghost pending: seq<int>, ghost done: seq<int>)
      requires Running() && Tracked(0) && PlansAll(plan) && excluded == [] && rasterised == [] && stop == Nowhere
      requires forall cp | cp in frozen :: IsStored(cp)
      modifies this`fuel, this`checks, this`stop
      modifies this`file, this`cache, this`state, this`frozen, this`failed, this`excluded, this`rasterised
      ensures Durable() && (old(IsWarm()) ==> IsWarm()) && LosesAtMostABatch()
      ensures Progress(identity, old(file), old(cache), file, cache)
      ensures NoDup(rasterised) && forall cp | cp in rasterised ::
                cp in e.keys && cp !in old(frozen) && cp !in old(failed)
      ensures alive ==> forall cp | cp in e.keys && cp !in old(frozen) && cp !in old(failed) :: cp in rasterised
      ensures alive ==> Running() && Tracked(0) && forall cp | cp in e.keys :: Handled(frozen, failed, excluded, cp)
      ensures alive ==> forall cp | cp in frozen :: IsStored(cp)
      ensures |PagesOf(plan, pending)| <= |e.keys| && |rasterised| <= |e.keys|
      ensures alive || stop != Nowhere ==> state.identity == identity
      // what a stop leaves
      ensures NoDup(pending) && forall cp :: cp in pending <==> cp in e.keys && cp !in old(frozen) && cp !in old(failed)
      ensures alive ==> stop == Nowhere && PagesDone(PagesOf(plan, pending), old(checks) - checks,
                                                     old(file), old(state), rasterised, file, state)
      ensures stop != Nowhere ==>
        && !alive && (stop == AtPage || stop == AtCell) && FrozenBy(e, frozen, old(frozen), rasterised)
        && PageStop(stop, e, batch, PagesOf(plan, pending), old(checks), old(file), old(state), done, rasterised,
                    file, state)
      ensures old(fuel) - 5 * |e.keys| <= fuel <= old(fuel) && (!alive ==> fuel == 0 || stop != Nowhere)
    {
      hide RasterOK, DiskOK, Backed, Warm, Handles, PlansAll, OnDisk, Lags, Recorded;
      hide PagesDone, PageStop, CellStop, FrozenBy, Running, Tracked, LosesAtMostABatch, IsWarm, NoDup, Progress;
      hide IsStored, Durable, Handled, Cells, InStep, Easy;
      ghost var (file0, cache0) := (file, cache);
      NothingLost(0);
      alive, done := true, [];
      var rest := Pending();
      pending := rest;
      if rest == [] {
        NothingPending(e, frozen, failed, excluded);
        NoPages(file, state);
        return;
      }
      var pages := plan(rest);
      PlannedPages(plan, pending);
      ghost var (fz, fl, ex, state0) := (frozen, failed, excluded, state);
      NoPages(file, state);
      FrozenByNone(e, frozen);
      HandlesNone(frozen, failed, excluded);
      assert pages[..0] == [];
      for p := 0 to |pages|
        invariant alive && Running() && Tracked(0) && Durable() && (old(IsWarm()) ==> IsWarm()) && LosesAtMostABatch()
        invariant Handles(frozen, failed, excluded, fz, fl, ex, Cells(pages[..p]))
        invariant Progress(identity, file0, cache0, file, cache) && forall cp | cp in frozen :: IsStored(cp)
        invariant stop == Nowhere && state.identity == identity
        invariant rasterised == Cells(pages[..p]) && FrozenBy(e, frozen, fz, rasterised)
        invariant PagesDone(pages[..p], old(checks) - checks, file0, state0, rasterised, file, state)
        invariant old(fuel) - 3 * |Cells(pages[..p])| - 2 * p <= fuel <= old(fuel)
      {
        CellsNext(pages, p);
        CellsPrefix(pages, p + 1);
        PageIsNew(e, frozen, failed, excluded, fz, fl, ex, pending, pages, p);
        ghost var (fz1, fl1, ex1, file1, cache1) := (frozen, failed, excluded, file, cache);
        ghost var (state1, rasterised1, used1) := (state, rasterised, old(checks) - checks);
        alive := RasterPage(pages[p]);
        ProgressThen(identity, file0, cache0, file1, cache1, file, cache);
        if !alive {
          RasterisedPart(pending, pages, Cells(pages[..p + 1]), rasterised);
          done := rasterised[|rasterised1|..];
          assert rasterised == rasterised1 + done;
          if stop != Nowhere {
            if stop == AtPage { FrozenByNone(e, frozen); }
            FrozenByThen(e, frozen, fz1, fz, rasterised1, done);
            StopsOnPage(stop, e, batch, pages, p, used1, old(checks), file0, state0, rasterised1, file1, state1, done,
                        file, state);
          }
          return;
        }
        NextPageDone(pages, p, used1, file0, state0, rasterised1, file1, state1, file, state);
        FrozenByThen(e, frozen, fz1, fz, rasterised1, pages[p]);
        HandlesThen(frozen, failed, excluded, fz1, fl1, ex1, fz, fl, ex, Cells(pages[..p]), pages[p]);
      }
      assert pages[..|pages|] == pages;
      AllHandled(e, frozen, failed, excluded, fz, fl, ex, pending, pages);
      RasterisedPart(pending, pages, Cells(pages), rasterised);
    }

    /** After the last refined glyph the remaining failures and the doubtful glyphs are saved. */
    method SaveRefined(remaining: seq<int>, ghost frozen0: map<int, string>, ghost list: seq<int>,
                       ghost added: seq<int>, ghost low: seq<int>, ghost before: Checkpoint) returns (alive: bool)
      requires Durable() && FailedList(e, frozen0, list)
      requires RefineOK(e, frozen0, list, |list|, frozen, remaining, added, state)
      requires lowConfidence == low + added && forall cp | cp in low :: cp in e.keys && Low(e, cp)
      requires Backed(e, before.frozen, cache) && Covers(identity, file, cache, before.frozen)
      requires forall cp :: cp in before.frozen <==> cp in frozen0
      requires state == before.(frozen := state.frozen, failed := state.failed) && state.identity == identity
      modifies this`fuel, this`file, this`state, this`failed
      ensures Durable() && (old(IsWarm()) ==> IsWarm()) && (old(LosesAtMostABatch()) ==> LosesAtMostABatch())
      ensures Progress(identity, old(file), cache, file, cache)
      ensures RefineOK(e, frozen0, list, |list|, frozen, remaining, added, state) && failed == remaining
      ensures state == old(state).(failed := remaining, lowConfidence := lowConfidence)
      ensures alive ==> InStep(file, state)
      ensures old(fuel) - 1 <= fuel <= old(fuel) && (!alive ==> fuel == 0)
    {
      hide DiskOK, Backed, Warm, NoDup, RefineOK, FailedList, CheckpointOK, OnDisk, Canonical, Repaired, Lags, Low;
      failed := remaining;
      RefinedBacked(e, frozen0, list, |list|, frozen, remaining, added, state, before, cache);
      RefinedCovers(e, frozen0, list, frozen, remaining, added, state, before);
      CoversMore(identity, file, cache, before.frozen, state.frozen);
      RefineEnd(e, frozen0, list, frozen, remaining, added, state, low);
      state := state.(failed := failed, lowConfidence := lowConfidence);
      ghost var file0 := file;
      alive := SaveCheckpoint();
      if old(LosesAtMostABatch()) { LosesNoMore(file0); }
    }

    /** The single refinement of every failed glyph, then a checkpoint; nothing to do without one. */
    method Refinement() returns (alive: bool, ghost added: seq<int>, ghost done: seq<int>)
      requires Running() && stop == Nowhere
      requires forall cp | cp in lowConfidence :: cp in e.keys && Low(e, cp)
      modifies this`fuel, this`checks, this`stop, this`file, this`state, this`frozen, this`failed, this`lowConfidence
      ensures Durable() && (old(IsWarm()) ==> IsWarm())
      ensures Progress(identity, old(file), cache, file, cache)
      ensures old(LosesAtMostABatch()) ==> LosesAtMostABatch()
      ensures alive ==>
        && lowConfidence == old(lowConfidence) + added
        && RefineOK(e, old(frozen), old(failed), |old(failed)|, frozen, failed, added, state)
      ensures alive && old(failed) != [] ==>
        InStep(file, state) && state.failed == failed && state.lowConfidence == lowConfidence
      ensures alive && old(failed) == [] ==> file == old(file)
      ensures state.identity == identity
      // what a stop leaves
      ensures alive ==> stop == Nowhere && checks == old(checks) - |old(failed)|
      ensures stop != Nowhere ==>
        && !alive && stop == AtRefine && file == old(file) && state.pages == old(state).pages
        && failed == old(failed) && done < failed && old(checks) == |done|
        && (InStep(old(file), old(state)) ==> (InStep(file, state) <==> NoneRepaired(e, done)))
      ensures old(fuel) - |old(failed)| - 1 <= fuel <= old(fuel) && (!alive ==> fuel == 0 || stop != Nowhere)
    {
      hide RasterOK, DiskOK, Backed, Warm, NoDup, RefineOK, FailedList, CheckpointOK, OnDisk;
      hide Ledger, InStep, NoneRepaired, Canonical, Repaired, Running, IsWarm, LosesAtMostABatch, Progress, Durable;
      hide Covers, Low, Without, Loaded, ResumedLow, Needs;
      alive, added, done := true, [], [];
      StartsRefining();
      if failed == [] { return; }
      var list, remaining := failed, [];
      ghost var (fz, low, st) := (frozen, lowConfidence, state);
      ghost var (repairs: nat, fits) := (0, InStep(file, state));
      if fits { LedgerOpens(file, state); }
      NoneRepairedYet(e);
      for i := 0 to |list|
        invariant alive && Durable() && state.identity == identity && file == old(file) && failed == list
        invariant RefineOK(e, fz, list, i, frozen, remaining, added, state)
        invariant lowConfidence == low + added
        invariant state == st.(frozen := state.frozen, failed := state.failed)
        invariant done == list[..i] && (repairs == 0 <==> NoneRepaired(e, done))
        invariant fits ==> Ledger(file, state, repairs)
        invariant stop == Nowhere && checks == old(checks) - i
        invariant old(fuel) - i <= fuel <= old(fuel)
      {
        var cp := list[i];
        alive := CheckWall(AtRefine);
        if !alive {
          if fits { LedgerExact(file, state, repairs); }
          return;
        }
        MustRepairOrNot(e, fz, list, i);
        NoneRepairedNext(e, done, cp);
        assert list[..i + 1] == done + [cp];
        done := done + [cp];
        match e.refine(cp) {
          case NoBase | RefinedFail =>
            RemainKeeps(e, fz, list, i, frozen, remaining, added, state);
            remaining := remaining + [cp];
          case RefinedPass(model, low) =>
            MustRepair(e, fz, list, i);
            RepairKeeps(e, fz, list, i, frozen, remaining, added, state);
            if fits { RepairWeighs(file, state, repairs, cp); }
            repairs := repairs + 1;
            frozen := frozen[cp := model];
            if low {
              lowConfidence := lowConfidence + [cp];
              added := added + [cp];
            }
            state := state.(frozen := state.frozen + [cp]);
            if cp in state.failed { state := state.(failed := Without(state.failed, cp)); }
        }
      }
      alive := SaveRefined(remaining, fz, list, added, low, st);
    }

    /** A fresh process takes over what the disk holds and looks at the wall before either stage. */
    method Begin(steps: nat, looks: nat) returns (alive: bool)
      requires Durable()
      modifies this
      ensures unchanged(this`file, this`cache)
      ensures alive ==> fuel == steps - 2 && checks == looks - 2 && stop == Nowhere
      ensures steps - 2 <= fuel <= steps
      ensures !alive ==> if stop == Nowhere then steps < 2 else stop == AtStage && looks < 2
      ensures state.identity == identity
      ensures Running() && Tracked(0) && LosesAtMostABatch() && Progress(identity, file, cache, file, cache)
      ensures excluded == [] && rasterised == [] && lowConfidence == ResumedLow(file, identity)
      ensures forall cp | cp in lowConfidence :: cp in e.keys && Low(e, cp)
      ensures Resumes(identity, file, cache, state) && forall cp :: cp in frozen <==> IsStored(cp)
      ensures forall cp :: Settled(identity, file, cache, cp) <==> cp in frozen || cp in failed
      ensures NoDup(rasterised)
    {
      hide RasterOK, DiskOK, Backed, Warm, NoDup, OnDisk, Lags, Recorded, Covers;
      fuel, checks, stop := steps, looks, Nowhere;
      Resume();
      StartsTracked(e, identity, file, cache, frozen);
      RasterLow(e, identity, file, cache);
      SettledIs(identity, file, cache, frozen, failed);
      NothingLost(0);
      alive := CheckWall(AtStage);
      if alive { alive := CheckWall(AtStage); }
    }

    /** The resume, the raster pass and the checks of the wall up to the refinement. */
    method FirstStages(plan: seq<int> -> seq<seq<int>>, steps: nat, looks: nat)
      returns (alive: bool, ghost t: Trace, ghost used: int)
      requires Durable() && PlansAll(plan)
      modifies this
      ensures Durable() && (old(IsWarm()) ==> IsWarm()) && LosesAtMostABatch()
      ensures Progress(identity, old(file), old(cache), file, cache)
      ensures lowConfidence == ResumedLow(old(file), identity)
      ensures forall cp | cp in lowConfidence :: cp in e.keys && Low(e, cp)
      ensures NoDup(rasterised)
      ensures forall cp | cp in rasterised :: cp in e.keys && !Settled(identity, old(file), old(cache), cp)
      ensures alive ==>
        forall cp | cp in e.keys && !Settled(identity, old(file), old(cache), cp) :: cp in rasterised
      ensures alive ==> Running() && stop == Nowhere
      ensures alive ==> forall cp | cp in e.keys :: Handled(frozen, failed, excluded, cp)
      ensures alive ==> forall cp | cp in frozen :: IsStored(cp)
      ensures alive ==>
        && used == 2 + |PagesOf(plan, t.pending)| + |rasterised| && checks == looks - used - 1
        && PagesDone(PagesOf(plan, t.pending), used - 2, old(file), t.resumed, rasterised, file, state)
      ensures Resumes(identity, old(file), old(cache), t.resumed)
      ensures alive || (looks >= 2 && stop != Nowhere) ==> IsPending(e, identity, old(file), old(cache), t.pending)
      ensures StopsAt(stop, e, batch, PagesOf(plan, t.pending), looks, old(file), t, rasterised, failed, file, state)
      ensures stop == AtPage || stop == AtCell ==> forall cp :: cp in frozen <==>
        OnDisk(identity, old(file), old(cache), cp) || (cp in rasterised && Easy(e, cp))
      ensures |PagesOf(plan, t.pending)| <= |e.keys| && |rasterised| <= |e.keys|
      ensures !alive ==> steps <= 5 * |e.keys| + 3 || stop != Nowhere
      ensures stop != Nowhere ==> !alive && looks <= 3 * |e.keys| + 3 && state.identity == identity
      ensures steps - 5 * |e.keys| - 3 <= fuel <= steps
    {
      hide RasterOK, DiskOK, Backed, Warm, NoDup, PlansAll, OnDisk, Lags, Recorded, Covers, Resumes, StopsAt, PageStop;
      hide PagesDone, InStep, Running, Tracked, LosesAtMostABatch, IsWarm, Progress, Handled, Settled, Durable;
      hide FrozenBy, CellStop, Low;
      ghost var (file0, cache0) := (file, cache);
      alive := Begin(steps, looks);
      t, used := Trace(state, [], []), 0;
      ghost var (kept, saved) := (frozen, failed);
      StopsEarly(stop, e, batch, PagesOf(plan, []), looks, file0, t, rasterised, failed, file, state);
      if !alive { return; }
      ghost var pending, done;
      alive, pending, done := RasterPass(plan);
      t := Trace(t.resumed, pending, done);
      PendingIs(e, identity, file0, cache0, kept, saved, pending);
      ghost var pages := PagesOf(plan, pending);
      StopsInPass(stop, e, batch, pages, looks, file0, t, rasterised, failed, file, state);
      if stop != Nowhere {
        FrozenOfStored(e, identity, file0, cache0, kept, frozen, rasterised);
        StopIsBounded(stop, e, batch, pages, looks, file0, t, rasterised, failed, file, state, |e.keys|);
      }
      if !alive { return; }
      used := looks - checks;
      alive := CheckWall(AtStage);
      StopsAfterPass(stop, e, batch, pages, looks, used, file0, t, rasterised, failed, file, state);
      if !alive { return; }
    }

    /** One run of a fresh process that dies after the given number of steps, or is stopped by the
        deadline or a graceful shutdown after the given number of checks of the wall: a stop raises
        without saving. */
    method Run(plan: seq<int> -> seq<seq<int>>, steps: nat, looks: nat) returns (end: RunEnd, ghost t: Trace)
      requires Durable() && PlansAll(plan)
      modifies this
      ensures Durable() && (old(IsWarm()) ==> IsWarm())
      ensures steps > 6 * |e.keys| + 5 && looks > 3 * |e.keys| + 3 ==> end != Interrupted
      // what the run gives
      ensures end != Interrupted ==> FrozenIs(e, frozen) && FailedIs(e, failed) && ExcludedIs(e, excluded)
      ensures end != Interrupted ==> forall cp :: cp in excluded <==>
        cp in e.keys && e.fast(cp).EasyPass? && e.fast(cp).zeroInk && cp != 32
      ensures end != Interrupted ==> forall cp :: cp in frozen <==>
        cp in e.keys && if e.fast(cp).EasyPass? then !e.fast(cp).zeroInk || cp == 32 else e.refine(cp).RefinedPass?
      ensures end != Interrupted ==> forall cp | cp in frozen ::
        frozen[cp] == if e.fast(cp).EasyPass? then e.fast(cp).model else e.refine(cp).model
      ensures end != Interrupted ==> forall cp :: cp in failed <==>
        cp in e.keys && !e.fast(cp).EasyPass? && !e.refine(cp).RefinedPass?
      ensures end != Interrupted ==> LowAfter(e, ResumedLow(old(file), identity), lowConfidence)
      ensures end == NothingFrozen ==> frozen == map[]
      ensures end == Completed ==> frozen != map[]
      // what it takes over from the disk: no settled code point is rasterised again, any other once
      ensures NoDup(rasterised)
      ensures forall cp | cp in rasterised :: cp in e.keys && !Settled(identity, old(file), old(cache), cp)
      ensures end != Interrupted ==>
        forall cp | cp in e.keys && !Settled(identity, old(file), old(cache), cp) :: cp in rasterised
      // what it leaves on the disk, even when it dies
      ensures Progress(identity, old(file), old(cache), file, cache)
      ensures LosesAtMostABatch()
      ensures end != Interrupted ==> forall cp | cp in e.keys && Easy(e, cp) :: IsStored(cp)
      ensures end != Interrupted && AnyNeeds(e) ==>
        InStep(file, state) && state.identity == identity
        && (forall cp :: cp in state.frozen <==> cp in frozen)
        && state.failed == failed && state.lowConfidence == lowConfidence
      // where a stop may be, and what it leaves
      ensures end != Interrupted ==> stop == Nowhere && looks >= 3 + |rasterised|
      ensures end == Interrupted && stop == Nowhere ==> steps <= 6 * |e.keys| + 5
      ensures stop != Nowhere ==> end == Interrupted && state.identity == identity
      ensures Resumes(identity, old(file), old(cache), t.resumed)
      ensures looks >= 2 && stop != Nowhere ==> IsPending(e, identity, old(file), old(cache), t.pending)
      ensures StopsAt(stop, e, batch, PagesOf(plan, t.pending), looks, old(file), t, rasterised, failed, file, state)
      ensures stop == AtPage || stop == AtCell ==> forall cp :: cp in frozen <==>
        OnDisk(identity, old(file), old(cache), cp) || (cp in rasterised && Easy(e, cp))
    {
      hide RasterOK, DiskOK, Backed, Warm, NoDup, RefineOK, FailedList, PlansAll, LowAfter, FrozenIs, FailedIs,
          ExcludedIs;
      hide OnDisk, Lags, Recorded, Covers, AnyNeeds, Resumes, StopsAt, PageStop, PagesDone, InStep, NoneRepaired;
      hide Running, Tracked, LosesAtMostABatch, IsWarm, Progress, Handled, Settled, Durable, FrozenBy;
      ghost var (file0, cache0) := (file, cache);
      var alive;
      ghost var used;
      alive, t, used := FirstStages(plan, steps, looks);
      if !alive { return Interrupted, t; }
      ghost var (fz, fl, st, file1, pages) := (frozen, failed, state, file, PagesOf(plan, t.pending));
      FewToRefine();
      var rest;
      ghost var added;
      ghost var done;
      rest, added, done := Refinement();
      ProgressThen(identity, file0, cache0, file1, cache, file, cache);
      t := Trace(t.resumed, t.pending, done);
      StopsRefining(stop, e, batch, pages, looks, used, file0, t, rasterised, failed, file1, st, file, state);
      if !rest { return Interrupted, t; }
      RunEnds(e, identity, file1, file, cache, fz, fl, excluded, st, frozen, failed, added, state);
      FinalLow(e, ResumedLow(old(file), identity), added);
      EachGlyph(e, frozen, failed, excluded);
      end := if frozen == map[] then NothingFrozen else Completed;
    }
  }

  /** Glyph by glyph: a blank one is excluded unless it is U+0020, any other that passes is frozen with
      its own model, one that does not is refined and else fails. */
  lemma EachGlyph(e: Env, frozen: map<int, string>, failed: seq<int>, excluded: seq<int>)
    requires FrozenIs(e, frozen) && FailedIs(e, failed) && ExcludedIs(e, excluded)
    ensures forall cp :: cp in excluded <==> cp in e.keys && e.fast(cp).EasyPass? && e.fast(cp).zeroInk && cp != 32
    ensures forall cp :: cp in frozen <==>
      cp in e.keys && if e.fast(cp).EasyPass? then !e.fast(cp).zeroInk || cp == 32 else e.refine(cp).RefinedPass?
    ensures forall cp | cp in frozen ::
      frozen[cp] == if e.fast(cp).EasyPass? then e.fast(cp).model else e.refine(cp).model
    ensures forall cp :: cp in failed <==> cp in e.keys && !e.fast(cp).EasyPass? && !e.refine(cp).RefinedPass?
  {
    hide NoDup;
  }

  /** Every easy rasterised glyph is frozen. */
  ghost predicate Recorded(e: Env, done: seq<int>, frozen: map<int, string>) {
    forall i | 0 <= i < |done| && Easy(e, done[i]) :: done[i] in frozen
  }

  ghost predicate AnyNeeds(e: Env) { exists cp :: cp in e.keys && Needs(e, cp) }

  lemma RecordedIsStored(e: Env, identity: string, file: CheckpointFile, cache: Cache, done: seq<int>,
                         frozen: map<int, string>, failed: seq<int>, excluded: seq<int>, state: Checkpoint)
    requires RasterOK(e, frozen, failed, excluded, state) && Recorded(e, done, frozen)
    requires forall cp | cp in state.frozen && Easy(e, cp) :: OnDisk(identity, file, cache, cp)
    ensures Lags(e, identity, file, cache, done, 0)
  {
    hide OnDisk;
    LagsWhenStored(e, identity, file, cache, done);
  }

  lemma FrozenIsSaved(e: Env, frozen: map<int, string>, failed: seq<int>, excluded: seq<int>, state: Checkpoint)
    requires RasterOK(e, frozen, failed, excluded, state)
    ensures forall cp | cp in frozen :: cp in state.frozen && Easy(e, cp)
  {}

  lemma KeptIsStored(e: Env, identity: string, file: CheckpointFile, cache: Cache, list: seq<int>,
                     frozen: map<int, string>)
    requires forall cp :: cp in frozen <==> cp in list[..|list|] && cp in cache && cache[cp].Good?
    requires var c := Loaded(file, identity); list == if c.Some? then c.value.frozen else []
    ensures forall cp :: cp in frozen <==> OnDisk(identity, file, cache, cp)
  {
    assert list[..|list|] == list;
  }

  lemma StartsTracked(e: Env, identity: string, file: CheckpointFile, cache: Cache, frozen: map<int, string>)
    ensures Lags(e, identity, file, cache, [], 0) && Recorded(e, [], frozen) && NoDup([])
  {
    LagsWhenStored(e, identity, file, cache, []);
  }

  lemma SettledIs(identity: string, file: CheckpointFile, cache: Cache, frozen: map<int, string>, failed: seq<int>)
    requires forall cp :: cp in frozen <==> OnDisk(identity, file, cache, cp)
    requires var c := Loaded(file, identity); failed == if c.Some? then c.value.failed else []
    ensures forall cp :: Settled(identity, file, cache, cp) <==> cp in frozen || cp in failed
  {}

  /** A prefix of planned cells repeats nothing and holds pending code points only. */
  lemma RasterisedPart(pending: seq<int>, pages: seq<seq<int>>, part: seq<int>, done: seq<int>)
    requires PlanCovers(pending, pages) && NoDup(pending) && done <= part <= Cells(pages)
    ensures NoDup(done) && forall cp | cp in done :: cp in pending
    ensures done == Cells(pages) ==> forall cp | cp in pending :: cp in done
  {
    var all := Cells(pages);
    assert forall i | 0 <= i < |done| :: done[i] == all[i];
    forall cp | cp in done
      ensures cp in pending
    {
      assert cp in all;
    }
  }

  lemma RefinedCovers(e: Env, frozen0: map<int, string>, list: seq<int>, frozen: map<int, string>,
                      remaining: seq<int>, added: seq<int>, state: Checkpoint, before: Checkpoint)
    requires RefineOK(e, frozen0, list, |list|, frozen, remaining, added, state)
    requires forall cp :: cp in before.frozen <==> cp in frozen0
    ensures forall cp | cp in before.frozen :: cp in state.frozen
  {}

  lemma RefinedState(e: Env, frozen0: map<int, string>, list: seq<int>, frozen: map<int, string>,
                     remaining: seq<int>, added: seq<int>, state: Checkpoint)
    requires RefineOK(e, frozen0, list, |list|, frozen, remaining, added, state)
    ensures forall cp :: cp in state.frozen <==> cp in frozen
  {}

  lemma FinalStored(e: Env, identity: string, file1: CheckpointFile, file: CheckpointFile, cache: Cache,
                    frozen: map<int, string>, failed: seq<int>, excluded: seq<int>, state: Checkpoint)
    requires RasterOK(e, frozen, failed, excluded, state)
    requires forall cp | cp in e.keys :: Handled(frozen, failed, excluded, cp)
    requires forall cp | cp in frozen :: OnDisk(identity, file1, cache, cp)
    requires Progress(identity, file1, cache, file, cache)
    ensures forall cp | cp in e.keys && Easy(e, cp) :: OnDisk(identity, file, cache, cp)
  {
    hide OnDisk, CheckpointOK, NoDup;
    forall cp | cp in e.keys && Easy(e, cp)
      ensures OnDisk(identity, file, cache, cp)
    {
      assert Handled(frozen, failed, excluded, cp);
    }
  }

  lemma NeedsAreFailed(e: Env, frozen: map<int, string>, failed: seq<int>, excluded: seq<int>, state: Checkpoint)
    requires RasterOK(e, frozen, failed, excluded, state)
    requires forall cp | cp in e.keys :: Handled(frozen, failed, excluded, cp)
    ensures AnyNeeds(e) ==> failed != []
  {
    if AnyNeeds(e) {
      var cp :| cp in e.keys && Needs(e, cp);
      assert Handled(frozen, failed, excluded, cp);
    }
  }

  /** What an undisturbed run ends with: the expected sets, every easy glyph stored, and something to
      save when anything needed refinement. */
  lemma RunEnds(e: Env, identity: string, file1: CheckpointFile, file: CheckpointFile, cache: Cache,
                frozen0: map<int, string>, failed0: seq<int>, excluded: seq<int>, state0: Checkpoint,
                frozen: map<int, string>, failed: seq<int>, added: seq<int>, state: Checkpoint)
    requires RasterOK(e, frozen0, failed0, excluded, state0)
    requires forall cp | cp in e.keys :: Handled(frozen0, failed0, excluded, cp)
    requires forall cp | cp in frozen0 :: OnDisk(identity, file1, cache, cp)
    requires Progress(identity, file1, cache, file, cache)
    requires RefineOK(e, frozen0, failed0, |failed0|, frozen, failed, added, state)
    ensures FrozenIs(e, frozen) && FailedIs(e, failed) && ExcludedIs(e, excluded) && LowIs(e, added)
    ensures forall cp | cp in e.keys && Easy(e, cp) :: OnDisk(identity, file, cache, cp)
    ensures AnyNeeds(e) ==> failed0 != []
    ensures forall cp :: cp in state.frozen <==> cp in frozen
  {
    hide RasterOK, RefineOK, OnDisk, Progress, FrozenIs, FailedIs, ExcludedIs, LowIs, AnyNeeds, Handled;
    FinalSets(e, frozen0, failed0, excluded, state0, frozen, failed, added, state);
    FinalStored(e, identity, file1, file, cache, frozen0, failed0, excluded, state0);
    NeedsAreFailed(e, frozen0, failed0, excluded, state0);
    RefinedState(e, frozen0, failed0, frozen, failed, added, state);
  }

  lemma AlreadyFrozen(frozen: map<int, string>, failed: seq<int>, excluded: seq<int>, cp: int)
    requires cp in frozen
    ensures Handles(frozen, failed, excluded, frozen, failed, excluded, [cp])
  {}

  lemma FailKeepsBacked(e: Env, state: Checkpoint, cp: int, cache: Cache)
    requires Backed(e, state.frozen, cache)
    ensures Backed(e, Fail(state, cp).frozen, cache)
  {}

  lemma RunningState(e: Env, frozen: map<int, string>, failed: seq<int>, excluded: seq<int>, state: Checkpoint)
    requires RasterOK(e, frozen, failed, excluded, state)
    ensures CheckpointOK(e, state)
  {}

  lemma LoadedIsOK(e: Env, identity: string, file: CheckpointFile, cache: Cache)
    requires DiskOK(e, identity, file, cache)
    ensures CacheOK(e, cache)
    ensures var c := Loaded(file, identity); c.Some? ==> CheckpointOK(e, c.value) && c.value.identity == identity
  {}

  /** Halfway through the saved list: the checked part is kept exactly when its model is cached. */
  ghost predicate Kept(e: Env, list: seq<int>, i: nat, cache: Cache, frozen: map<int, string>, kept: seq<int>)
    requires i <= |list|
  {
    && NoDup(kept)
    && (forall cp :: cp in kept <==> cp in frozen || cp in list[i..])
    && (forall cp :: cp in frozen <==> cp in list[..i] && cp in cache && cache[cp].Good?)
    && forall cp | cp in frozen :: frozen[cp] == cache[cp].model
  }

  lemma KeepNext(e: Env, list: seq<int>, i: nat, cache: Cache, frozen: map<int, string>, kept: seq<int>)
    requires i < |list| && NoDup(list) && Kept(e, list, i, cache, frozen, kept)
    ensures var cp := list[i];
      if cp !in cache || cache[cp].Spoiled? then Kept(e, list, i + 1, cache, frozen, Without(kept, cp))
      else Kept(e, list, i + 1, cache, frozen[cp := cache[cp].model], kept)
  {
    hide NoDup;
    var cp := list[i];
    SnocIn(list, i);
    WithoutKeeps(kept, cp);
    assert list[i..] == [cp] + list[i + 1..];
    NoRepeatLater(list, i);
  }

  lemma NoRepeatLater(list: seq<int>, i: nat)
    requires i < |list| && NoDup(list)
    ensures list[i] !in list[i + 1..]
  {}

  lemma KeptAll(e: Env, list: seq<int>, cache: Cache, frozen: map<int, string>, start: Checkpoint, state: Checkpoint)
    requires CacheOK(e, cache) && CheckpointOK(e, start) && list == start.frozen
             && state == start.(frozen := state.frozen)
    requires Kept(e, list, |list|, cache, frozen, state.frozen)
    ensures RasterOK(e, frozen, state.failed, [], state)
    ensures Backed(e, state.frozen, cache)
  {
    assert list[..|list|] == list;
  }

  lemma SaveKeepsDisk(e: Env, identity: string, file: CheckpointFile, cache: Cache)
    requires DiskOK(e, identity, file, cache)
    ensures CacheOK(e, cache)
  {}

  lemma HandlesNone(frozen: map<int, string>, failed: seq<int>, excluded: seq<int>)
    ensures Handles(frozen, failed, excluded, frozen, failed, excluded, [])
  {}

  lemma HandlesThen(frozen: map<int, string>, failed: seq<int>, excluded: seq<int>,
                    frozen1: map<int, string>, failed1: seq<int>, excluded1: seq<int>,
                    frozen0: map<int, string>, failed0: seq<int>, excluded0: seq<int>, a: seq<int>, b: seq<int>)
    requires Handles(frozen1, failed1, excluded1, frozen0, failed0, excluded0, a)
    requires Handles(frozen, failed, excluded, frozen1, failed1, excluded1, b)
    ensures Handles(frozen, failed, excluded, frozen0, failed0, excluded0, a + b)
  {
    hide Handled;
  }

  lemma NotYet(frozen: map<int, string>, failed: seq<int>, excluded: seq<int>,
               frozen0: map<int, string>, failed0: seq<int>, excluded0: seq<int>, cells: seq<int>, j: nat)
    requires j < |cells| && NoDup(cells) && !Handled(frozen0, failed0, excluded0, cells[j])
    requires Handles(frozen, failed, excluded, frozen0, failed0, excluded0, cells[..j])
    ensures !Handled(frozen, failed, excluded, cells[j])
  {}

  lemma NextPage(e: Env, frozen: map<int, string>, failed: seq<int>, excluded: seq<int>, state: Checkpoint,
                 cache: Cache)
    requires RasterOK(e, frozen, failed, excluded, state) && Backed(e, state.frozen, cache)
    ensures var next := state.(pages := state.pages + 1);
      RasterOK(e, frozen, failed, excluded, next) && Backed(e, next.frozen, cache)
      && CheckpointOK(e, next)
  {}

  lemma PlannedPages(plan: seq<int> -> seq<seq<int>>, pending: seq<int>)
    requires PlansAll(plan)
    ensures PlanCovers(pending, plan(pending))
  {}

  /** What is on the first pages is a prefix of all cells. */
  lemma {:induction false} CellsPrefix(pages: seq<seq<int>>, p: nat)
    requires p <= |pages|
    ensures |Cells(pages[..p])| <= |Cells(pages)| && Cells(pages)[..|Cells(pages[..p])|] == Cells(pages[..p])
  {
    if p < |pages| {
      var n := |pages| - 1;
      CellsPrefix(pages[..n], p);
      assert pages[..n][..p] == pages[..p];
    } else {
      assert pages[..p] == pages;
    }
  }

  lemma NothingPending(e: Env, frozen: map<int, string>, failed: seq<int>, excluded: seq<int>)
    requires forall cp :: cp !in e.keys || cp in frozen || cp in failed
    ensures forall cp | cp in e.keys :: Handled(frozen, failed, excluded, cp)
  {}

  /** The next page holds new code points only. */
  lemma PageIsNew(e: Env, frozen: map<int, string>, failed: seq<int>, excluded: seq<int>,
                  frozen0: map<int, string>, failed0: seq<int>, excluded0: seq<int>,
                  pending: seq<int>, pages: seq<seq<int>>, p: nat)
    requires p < |pages| && PlanCovers(pending, pages) && NoDup(pending) && excluded0 == []
    requires forall cp :: cp in pending <==> cp in e.keys && cp !in frozen0 && cp !in failed0
    requires Handles(frozen, failed, excluded, frozen0, failed0, excluded0, Cells(pages[..p]))
    ensures NoDup(pages[p]) && forall cp | cp in pages[p] :: cp in e.keys && !Handled(frozen, failed, excluded, cp)
  {
    hide NoDup, Cells;
    CellsNext(pages, p);
    CellsPrefix(pages, p + 1);
    var all, before := Cells(pages), Cells(pages[..p]);
    SplitNoDup(all, before, pages[p]);
    forall cp | cp in pages[p]
      ensures cp in e.keys && !Handled(frozen, failed, excluded, cp)
    {
      assert cp in all;
      assert cp in pending;
    }
  }

  lemma SplitNoDup(all: seq<int>, a: seq<int>, b: seq<int>)
    requires NoDup(all) && |a| + |b| <= |all| && all[..|a| + |b|] == a + b
    ensures NoDup(b) && forall x | x in b :: x !in a && x in all
  {
    forall i | 0 <= i < |b|
      ensures b[i] !in a && b[i] in all
    {
      assert all[|a| + i] == (a + b)[|a| + i] == b[i];
      forall k | 0 <= k < |a|
        ensures a[k] != b[i]
      {
        assert all[k] == (a + b)[k] == a[k];
      }
    }
    forall i, j | 0 <= i < j < |b|
      ensures b[i] != b[j]
    {
      assert all[|a| + i] == (a + b)[|a| + i] == b[i];
      assert all[|a| + j] == (a + b)[|a| + j] == b[j];
    }
  }

  lemma AllHandled(e: Env, frozen: map<int, string>, failed: seq<int>, excluded: seq<int>,
                   frozen0: map<int, string>, failed0: seq<int>, excluded0: seq<int>,
                   pending: seq<int>, pages: seq<seq<int>>)
    requires PlanCovers(pending, pages)
    requires forall cp :: cp in pending <==> cp in e.keys && cp !in frozen0 && cp !in failed0
    requires Handles(frozen, failed, excluded, frozen0, failed0, excluded0, Cells(pages))
    ensures forall cp | cp in e.keys :: Handled(frozen, failed, excluded, cp)
  {
    hide Cells, NoDup;
    forall cp | cp in e.keys
      ensures Handled(frozen, failed, excluded, cp)
    {
      assert Handled(frozen0, failed0, excluded0, cp) || cp in pending;
    }
  }

  lemma RefineStart(e: Env, frozen: map<int, string>, failed: seq<int>, excluded: seq<int>, state: Checkpoint)
    requires RasterOK(e, frozen, failed, excluded, state)
    ensures FailedList(e, frozen, failed) && RefineOK(e, frozen, failed, 0, frozen, [], [], state)
  {}

  lemma MustRepair(e: Env, frozen0: map<int, string>, list: seq<int>, i: nat)
    requires i < |list| && FailedList(e, frozen0, list) && e.refine(list[i]).RefinedPass?
    ensures Repaired(e, list[i]) && (e.refine(list[i]).lowConfidence <==> Low(e, list[i]))
  {
    assert list[i] in list;
  }

  /** Refinement adds no easy glyph, so the frozen list stays backed by the cache. */
  lemma RefinedBacked(e: Env, frozen0: map<int, string>, list: seq<int>, i: nat, frozen: map<int, string>,
                      remaining: seq<int>, added: seq<int>, state: Checkpoint, before: Checkpoint, cache: Cache)
    requires i <= |list| && FailedList(e, frozen0, list)
             && RefineOK(e, frozen0, list, i, frozen, remaining, added, state)
    requires Backed(e, before.frozen, cache) && forall cp :: cp in before.frozen <==> cp in frozen0
    ensures Backed(e, state.frozen, cache)
  {}

  lemma RefineEnd(e: Env, frozen0: map<int, string>, list: seq<int>, frozen: map<int, string>,
                  remaining: seq<int>, added: seq<int>, state: Checkpoint, low: seq<int>)
    requires FailedList(e, frozen0, list) && RefineOK(e, frozen0, list, |list|, frozen, remaining, added, state)
    requires forall cp | cp in low :: cp in e.keys && Low(e, cp)
    ensures CheckpointOK(e, state.(failed := remaining, lowConfidence := low + added))
    ensures RefineOK(e, frozen0, list, |list|, frozen, remaining, added,
                     state.(failed := remaining, lowConfidence := low + added))
  {
    assert list[..|list|] == list;
  }

  lemma RasterLow(e: Env, identity: string, file: CheckpointFile, cache: Cache)
    requires DiskOK(e, identity, file, cache)
    ensures forall cp | cp in ResumedLow(file, identity) :: cp in e.keys && Low(e, cp)
  {}

  lemma {:induction false} FewerThan(s: seq<int>, t: seq<int>)
    requires NoDup(s) && forall x | x in s :: x in t
    ensures |s| <= |t|
  {
    if s != [] {
      var n := |s| - 1;
      assert s[n] in s && s[n] in t;
      var j :| 0 <= j < |t| && t[j] == s[n];
      var rest := t[..j] + t[j + 1..];
      forall x | x in s[..n]
        ensures x in rest
      {
        assert x in s && x in t;
        var k :| 0 <= k < |t| && t[k] == x;
        assert rest[if k < j then k else k - 1] == x;
      }
      FewerThan(s[..n], rest);
    }
  }

  lemma FewFailed(e: Env, frozen: map<int, string>, failed: seq<int>, excluded: seq<int>, state: Checkpoint)
    requires RasterOK(e, frozen, failed, excluded, state)
    ensures |failed| <= |e.keys|
  {
    FewerThan(failed, e.keys);
  }

  /** When all is handled and refined, the sets are the expected ones. */
  lemma FinalSets(e: Env, frozen0: map<int, string>, failed0: seq<int>, excluded: seq<int>, state0: Checkpoint,
                  frozen: map<int, string>, failed: seq<int>, added: seq<int>, state: Checkpoint)
    requires RasterOK(e, frozen0, failed0, excluded, state0)
    requires forall cp | cp in e.keys :: Handled(frozen0, failed0, excluded, cp)
    requires RefineOK(e, frozen0, failed0, |failed0|, frozen, failed, added, state)
    ensures FrozenIs(e, frozen) && FailedIs(e, failed) && ExcludedIs(e, excluded) && LowIs(e, added)
  {
    hide CheckpointOK, NoDup;
    assert failed0[..|failed0|] == failed0;
    forall cp | cp in e.keys
      ensures cp in frozen0 <==> Easy(e, cp)
      ensures cp in failed0 <==> Needs(e, cp)
      ensures cp in excluded <==> Excluded(e, cp)
    {
      assert Handled(frozen0, failed0, excluded, cp);
    }
  }

  lemma FinalLow(e: Env, resumed: seq<int>, added: seq<int>)
    requires LowIs(e, added) && forall cp | cp in resumed :: cp in e.keys && Low(e, cp)
    ensures LowAfter(e, resumed, resumed + added)
  {
    assert (resumed + added)[|resumed|..] == added;
  }

  /** The reported low-confidence list is free of repetitions exactly when none was resumed. */
  lemma LowRepeatsExactly(e: Env, resumed: seq<int>, low: seq<int>)
    requires LowAfter(e, resumed, low)
    ensures NoDup(low) <==> resumed == []
  {
    if resumed != [] {
      var cp := low[0];
      assert cp in low && cp in low[|resumed|..];
      var k :| 0 <= k < |low[|resumed|..]| && low[|resumed|..][k] == cp;
      assert low[|resumed| + k] == low[0];
    } else {
      assert low[0..] == low;
    }
  }

  // ---------------------------------------------------------------- graceful stops

  /** Any run from any disk that the wall stops: once something was saved or resumed in step, the file
      holds the present state exactly when nothing was added to it since; before that the file is
      untouched, and in step with no state when nothing was loaded from it. */
  method StoppedRun(p: AtlasUltraPipeline, plan: seq<int> -> seq<seq<int>>, steps: nat, looks: nat)
    returns (ghost t: Trace)
    requires p.Durable() && PlansAll(plan)
    modifies p
    ensures Resumes(p.identity, old(p.file), old(p.cache), t.resumed)
    ensures p.stop != Nowhere && SavedOnce(p.stop, p.e, p.batch, old(p.file), t, p.state) ==>
      (p.file == Saved(Canonical(p.state)) <==> AllSaved(p.stop, p.e, p.batch, t.done))
    ensures p.stop != Nowhere && !SavedOnce(p.stop, p.e, p.batch, old(p.file), t, p.state) ==>
      && p.file == old(p.file)
      && (Loaded(old(p.file), p.identity).None? ==> p.file != Saved(Canonical(p.state)))
  {
    hide DiskOK, NoDup, PlansAll, Warm, Lags, OnDisk, Settled, Progress, LowAfter, FrozenIs, FailedIs, ExcludedIs,
        AnyNeeds, StopsAt, Resumes, IsPending, SavedOnce, AllSaved, Canonical;
    ghost var file0 := p.file;
    var end;
    end, t := p.Run(plan, steps, looks);
    if p.stop != Nowhere {
      StopInStepExactly(p.stop, p.e, p.batch, PagesOf(plan, t.pending), looks, file0, t, p.rasterised, p.failed, p.file,
                        p.state);
    }
  }

  const TWO_EASY := Env([65, 66], cp => EasyPass("outline", false), cp => NoBase)

  /** One page of two easy glyphs, a batch of 32 and an empty disk; the shutdown comes before the
      second glyph. The first one is frozen, and the disk is as empty as before. */
  method ShutdownForgetsAGlyph() returns (p: AtlasUltraPipeline)
    ensures p.stop == AtCell && p.file == Missing
    ensures |p.rasterised| == 1 && p.frozen.Keys == {p.rasterised[0]} && Easy(p.e, p.rasterised[0])
  {
    hide DiskOK, NoDup, PlansAll, Warm, Lags, OnDisk, Settled, Progress, LowAfter, FrozenIs, FailedIs, ExcludedIs,
        AnyNeeds, StopsAt, Resumes, IsPending;
    p := new AtlasUltraPipeline(TWO_EASY, "identity", 32);
    OnePagePlans();
    TwoEasyStart();
    var end, t := p.Run(OnePage, 100, 4);
    TwoEasyAll(p.rasterised);
    TwoEasyPending(t.pending);
    TwoEasyStop(p.stop, t, p.rasterised, p.failed, p.file, p.state);
    assert p.rasterised == [p.rasterised[0]] && p.rasterised[0] in p.rasterised;
    assert forall cp :: cp in p.frozen.Keys <==> cp == p.rasterised[0];
  }

  lemma TwoEasyStart()
    ensures NoDup(TWO_EASY.keys) && DiskOK(TWO_EASY, "identity", Missing, map[])
    ensures forall cp :: !Settled("identity", Missing, map[], cp) && !OnDisk("identity", Missing, map[], cp)
    ensures forall cp | cp in TWO_EASY.keys :: Easy(TWO_EASY, cp)
  {}

  lemma TwoEasyAll(rasterised: seq<int>)
    ensures (forall cp | cp in TWO_EASY.keys :: cp in rasterised) ==> |rasterised| >= 2
  {
    if forall cp | cp in TWO_EASY.keys :: cp in rasterised { FewerThan(TWO_EASY.keys, rasterised); }
  }

  lemma TwoEasyPending(pending: seq<int>)
    ensures IsPending(TWO_EASY, "identity", Missing, map[], pending) ==> |pending| == 2
  {
    if IsPending(TWO_EASY, "identity", Missing, map[], pending) {
      FewerThan(TWO_EASY.keys, pending);
      FewerThan(pending, TWO_EASY.keys);
    }
  }

  lemma TwoEasyStop(stop: Stop, t: Trace, rasterised: seq<int>, failed: seq<int>,
                    file: CheckpointFile, state: Checkpoint)
    requires stop != Nowhere && |t.pending| == 2
    requires StopsAt(stop, TWO_EASY, 32, PagesOf(OnePage, t.pending), 4, Missing, t, rasterised, failed, file, state)
    ensures stop == AtCell && file == Missing && |rasterised| == 1
  {
    var pages := PagesOf(OnePage, t.pending);
    assert pages == [t.pending] && pages[..0] == [] && Cells([]) == [];
    assert Cells(pages) == [] + t.pending;
    EasyCountAtMost(TWO_EASY, t.done);
  }

  lemma {:induction false} EasyCountAtMost(e: Env, s: seq<int>)
    ensures EasyCount(e, s) <= |s|
  {
    if s != [] { EasyCountAtMost(e, s[..|s| - 1]); }
  }

  // ---------------------------------------------------------------- crashes and resumes

  /** The three final sets split the requested code points. */
  lemma FinalSetsPartition(e: Env, frozen: map<int, string>, failed: seq<int>, excluded: seq<int>, cp: int)
    requires FrozenIs(e, frozen) && FailedIs(e, failed) && ExcludedIs(e, excluded)
    ensures cp in e.keys <==> cp in frozen || cp in failed || cp in excluded
    ensures !(cp in frozen && cp in failed) && !(cp in frozen && cp in excluded) && !(cp in failed && cp in excluded)
  {}

  /** Two finished runs of the same glyphs agree, models included. */
  lemma FinishedRunsAgree(e: Env, frozen: map<int, string>, failed: seq<int>, excluded: seq<int>,
                          frozen1: map<int, string>, failed1: seq<int>, excluded1: seq<int>)
    requires FrozenIs(e, frozen) && FailedIs(e, failed) && ExcludedIs(e, excluded)
    requires FrozenIs(e, frozen1) && FailedIs(e, failed1) && ExcludedIs(e, excluded1)
    ensures frozen == frozen1 && multiset(failed) == multiset(failed1) && multiset(excluded) == multiset(excluded1)
  {
    forall cp
      ensures cp in frozen <==> cp in frozen1
    {}
    forall cp | cp in frozen
      ensures frozen[cp] == frozen1[cp]
    {}
    assert frozen.Keys == frozen1.Keys;
    assert frozen == frozen1;
    SameList(failed, failed1);
    SameList(excluded, excluded1);
  }

  lemma SameList(a: seq<int>, b: seq<int>)
    requires NoDup(a) && NoDup(b) && forall x :: x in a <==> x in b
    ensures multiset(a) == multiset(b)
  {
    NoDupMultiset(a);
    NoDupMultiset(b);
    forall x
      ensures multiset(a)[x] == multiset(b)[x]
    {
      assert x in a <==> x in multiset(a);
      assert x in b <==> x in multiset(b);
    }
  }

  /** On a warm disk every easy glyph of the saved checkpoint is taken over by a resume. */
  lemma WarmIsOnDisk(e: Env, identity: string, file: CheckpointFile, cache: Cache, cp: int)
    requires Warm(e, identity, file, cache) && Loaded(file, identity).Some?
    requires cp in Loaded(file, identity).value.frozen && Easy(e, cp)
    ensures OnDisk(identity, file, cache, cp) && Settled(identity, file, cache, cp)
  {}

  /** How many easy glyphs of the first list come again in the second. */
  function Repeated(e: Env, first: seq<int>, second: seq<int>): nat {
    if first == [] then 0 else
      var n := |first| - 1;
      Repeated(e, first[..n], second) + if Easy(e, first[n]) && first[n] in second then 1 else 0
  }

  lemma {:induction false} RepeatedAppend(e: Env, a: seq<int>, b: seq<int>, second: seq<int>)
    ensures Repeated(e, a + b, second) == Repeated(e, a, second) + Repeated(e, b, second)
  {
    if b == [] {
      assert a + b == a;
    } else {
      var n := |b| - 1;
      RepeatedAppend(e, a, b[..n], second);
      assert (a + b)[..|a + b| - 1] == a + b[..n];
    }
  }

  lemma {:induction false} RepeatedAtMost(e: Env, a: seq<int>, second: seq<int>)
    ensures Repeated(e, a, second) <= EasyCount(e, a)
    ensures (forall i | 0 <= i < |a| && Easy(e, a[i]) :: a[i] !in second) ==> Repeated(e, a, second) == 0
  {
    if a != [] {
      var n := |a| - 1;
      RepeatedAtMost(e, a[..n], second);
      assert forall i | 0 <= i < n :: a[..n][i] == a[i];
    }
  }

  lemma LagBoundsRepeats(e: Env, identity: string, file: CheckpointFile, cache: Cache, first: seq<int>,
                         second: seq<int>, n: nat)
    requires Lags(e, identity, file, cache, first, n)
    requires forall cp | cp in second :: !OnDisk(identity, file, cache, cp)
    ensures Repeated(e, first, second) <= n
  {
    hide OnDisk;
    var k: nat :| k <= |first| && OnDiskUpTo(e, identity, file, cache, first, k) && EasyCount(e, first[k..]) <= n;
    var a, b := first[..k], first[k..];
    assert first == a + b;
    RepeatedAppend(e, a, b, second);
    RepeatedAtMost(e, b, second);
    forall i | 0 <= i < |a| && Easy(e, a[i])
      ensures a[i] !in second
    {
      assert OnDisk(identity, file, cache, first[i]);
    }
    RepeatedAtMost(e, a, second);
  }

  /** A run that dies or is stopped anywhere and the run after it rasterise at most one batch of easy
      glyphs twice. */
  method DieAndResume(p: AtlasUltraPipeline, plan: seq<int> -> seq<seq<int>>, steps: nat, looks: nat,
                      more: nat, moreLooks: nat)
    returns (first: seq<int>, second: seq<int>)
    requires p.Durable() && PlansAll(plan)
    modifies p
    ensures p.batch > 0 ==> Repeated(p.e, first, second) <= p.batch
  {
    hide DiskOK, NoDup, PlansAll, Warm, Lags, OnDisk, StopsAt, Resumes;
    var _, _ := p.Run(plan, steps, looks);
    first := p.rasterised;
    ghost var (file, cache) := (p.file, p.cache);
    var _, _ := p.Run(plan, more, moreLooks);
    second := p.rasterised;
    if p.batch > 0 { LagBoundsRepeats(p.e, p.identity, file, cache, first, second, p.batch); }
  }

  // ---------------------------------------------------------------- a resumed list repeats

  const ONE_DOUBTFUL := Env([65], cp => FastFail, cp => RefinedPass("outline", true))

  function OnePage(pending: seq<int>): seq<seq<int>> { if pending == [] then [] else [pending] }

  lemma OnePagePlans()
    ensures PlansAll(OnePage)
  {
    forall pending
      ensures PlanCovers(pending, OnePage(pending))
    {
      if pending != [] { assert [pending][..0] == [] && Cells([pending]) == [] + pending; }
    }
  }

  /** One glyph that only refinement repairs, doubtfully: the second run reports it twice. */
  method DoubtIsReportedTwice() returns (first: seq<int>, second: seq<int>)
    ensures first == [65] && second == [65, 65]
  {
    hide DiskOK, NoDup, PlansAll, Warm, Lags, OnDisk, Settled, Progress, LowAfter, FrozenIs, FailedIs, ExcludedIs,
        AnyNeeds, StopsAt, Resumes;
    hide Canonical, Loaded, ResumedLow;
    var p := new AtlasUltraPipeline(ONE_DOUBTFUL, "identity", 32);
    OnePagePlans();
    DoubtfulStart();
    var end, t := p.Run(OnePage, 12, 7);
    first := p.lowConfidence;
    OneLow([], first);
    ResumedOne(p.state);
    end, t := p.Run(OnePage, 12, 7);
    second := p.lowConfidence;
    OneLow([65], second);
  }

  lemma DoubtfulStart()
    ensures NoDup(ONE_DOUBTFUL.keys) && DiskOK(ONE_DOUBTFUL, "identity", Missing, map[])
    ensures AnyNeeds(ONE_DOUBTFUL) && |ONE_DOUBTFUL.keys| == 1 && ResumedLow(Missing, "identity") == []
  {
    assert 65 in ONE_DOUBTFUL.keys && Needs(ONE_DOUBTFUL, 65);
  }

  lemma ResumedOne(state: Checkpoint)
    requires state.lowConfidence == [65] && state.identity == "identity"
    ensures ResumedLow(Saved(Canonical(state)), "identity") == [65]
  {
    var t := Sort([65], Ascending);
    SortPermutes([65], Ascending);
    assert |t| == 1 && multiset(t)[65] == 1;
    assert t == [t[0]];
  }

  lemma OneLow(resumed: seq<int>, low: seq<int>)
    requires LowAfter(ONE_DOUBTFUL, resumed, low)
    ensures low == resumed + [65]
  {
    var tail := low[|resumed|..];
    assert low == resumed + tail;
    assert 65 in ONE_DOUBTFUL.keys && Low(ONE_DOUBTFUL, 65);
    forall x
      ensures x in tail <==> x in [65]
    {
      assert x in tail <==> x in ONE_DOUBTFUL.keys && Low(ONE_DOUBTFUL, x);
    }
    SameList(tail, [65]);
    assert |tail| == |multiset(tail)| == |multiset([65])| == 1;
    assert tail[0] in tail;
    assert tail == [65];
  }

  /** Between runs entries of the cache may vanish or rot. */
  datatype Damage = Damage(lost: set<int>, spoiled: set<int>)

  function Damaged(cache: Cache, d: Damage): Cache {
    map cp | cp in cache && cp !in d.lost :: if cp in d.spoiled then Spoiled else cache[cp]
  }

  lemma DamageKeepsDisk(e: Env, identity: string, file: CheckpointFile, cache: Cache, d: Damage)
    requires DiskOK(e, identity, file, cache)
    ensures DiskOK(e, identity, file, Damaged(cache, d))
    ensures Damaged(cache, d).Keys == cache.Keys - d.lost
    ensures forall cp | cp in cache.Keys - d.lost ::
              Damaged(cache, d)[cp] == if cp in d.spoiled then Spoiled else cache[cp]
  {}

  /** Any number of runs that die or are stopped anywhere, with any damage between them, then one run left alone:
      it ends as a run on an empty disk does, with the same glyphs in each set. */
  method CrashAndResume(interrupted: AtlasUltraPipeline, untouched: AtlasUltraPipeline, plan: seq<int> -> seq<seq<int>>,
                        budgets: seq<(nat, nat)>, damages: seq<Damage>, enough: nat)
    returns (end: RunEnd, end0: RunEnd)
    requires interrupted != untouched && interrupted.e == untouched.e && |budgets| == |damages|
    requires interrupted.Durable() && untouched.Durable() && PlansAll(plan)
    requires enough > 6 * |interrupted.e.keys| + 5
    modifies interrupted, untouched
    ensures end == end0 != Interrupted && interrupted.frozen == untouched.frozen
    ensures multiset(interrupted.failed) == multiset(untouched.failed)
    ensures multiset(interrupted.excluded) == multiset(untouched.excluded)
    ensures forall cp :: cp in interrupted.lowConfidence <==> cp in untouched.lowConfidence
  {
    hide DiskOK, NoDup, FrozenIs, FailedIs, ExcludedIs, PlansAll, Warm, StopsAt, Resumes;
    for i := 0 to |budgets|
      invariant interrupted.Durable() && untouched.Durable()
    {
      DamageKeepsDisk(interrupted.e, interrupted.identity, interrupted.file, interrupted.cache, damages[i]);
      interrupted.cache := Damaged(interrupted.cache, damages[i]);
      var _, _ := interrupted.Run(plan, budgets[i].0, budgets[i].1);
    }
    ghost var t;
    end, t := interrupted.Run(plan, enough, enough);
    end0, t := untouched.Run(plan, enough, enough);
    FinishedRunsAgree(interrupted.e, interrupted.frozen, interrupted.failed, interrupted.excluded,
                      untouched.frozen, untouched.failed, untouched.excluded);
  }
}
