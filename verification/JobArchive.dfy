/** When a build succeeds and what it leaves in the archive, in terms of the answers from outside. */
module JobArchive {
  import opened JobBuild

  ghost predicate PairPasses(env: Env, pairs: seq<Pair>, i: nat, from: nat)
    requires i < |pairs|
  {
    env.guard(from + i).None? && env.resolve(pairs[i]).Got? && env.valid(pairs[i])
  }

  ghost predicate AllPass(env: Env, pairs: seq<Pair>, from: nat) {
    forall i: nat | i < |pairs| :: PairPasses(env, pairs, i, from)
  }

  predicate Archives(env: Env, p: Pair) { env.archiving && Archiveable(p.format) }

  /** The ungated step of a pair succeeds: its style has source data, the pair passes, and its write
      does, if it has one. */
  ghost predicate PairBuilds(env: Env, pairs: seq<Pair>, i: nat, from: nat)
    requires i < |pairs|
  {
    && Sourced(env, pairs[i].style) && PairPasses(env, pairs, i, from)
    && (Archives(env, pairs[i]) ==> env.put(|Plain(env, pairs[..i])|))
  }

  ghost predicate AllBuild(env: Env, pairs: seq<Pair>, from: nat) {
    forall i: nat | i < |pairs| :: PairBuilds(env, pairs, i, from)
  }

  ghost predicate AllPut(env: Env, m: nat) { forall k: nat | k < m :: env.put(k) }

  /** Both checks around the packager pass, and the packager does. */
  predicate Packs(env: Env, files: seq<string>, from: nat) {
    files != [] && env.guard(from).None? && env.package(files).Got? && env.guard(from + 1).None?
  }

  // ---------------------------------------------------------------- reading the loops

  lemma {:induction false} FirstStopExact(env: Env, pairs: seq<Pair>, from: nat)
    ensures FirstStop(env, pairs, from).None? <==> AllPass(env, pairs, from)
  {
    if pairs != [] {
      var n := |pairs| - 1;
      FirstStopExact(env, pairs[..n], from);
      assert forall i: nat | i < n :: PairPasses(env, pairs[..n], i, from) <==> PairPasses(env, pairs, i, from);
      assert PairStop(env, pairs[n], from + n).None? <==> PairPasses(env, pairs, n, from);
    }
  }

  lemma {:induction false} DirectStopExact(env: Env, pairs: seq<Pair>, from: nat)
    ensures DirectStop(env, pairs, from).None? <==> AllBuild(env, pairs, from)
  {
    if pairs != [] {
      var n := |pairs| - 1;
      DirectStopExact(env, pairs[..n], from);
      forall i: nat | i < n
        ensures PairBuilds(env, pairs[..n], i, from) <==> PairBuilds(env, pairs, i, from)
      {
        assert pairs[..n][..i] == pairs[..i];
      }
      assert StepStop(env, pairs[n], from + n, |Plain(env, pairs[..n])|).None? <==> PairBuilds(env, pairs, n, from);
    }
  }

  /** The ungated loop builds the longest run of pairs that build. */
  lemma {:induction false} BuiltPairsExact(env: Env, pairs: seq<Pair>, from: nat)
    ensures var built := BuiltPairs(env, pairs, from);
      && built <= pairs && AllBuild(env, built, from)
      && (|built| < |pairs| ==> !PairBuilds(env, pairs, |built|, from))
  {
    DirectStopExact(env, pairs, from);
    if pairs != [] && DirectStop(env, pairs, from).Some? {
      hide DirectStop, PairBuilds;
      var n := |pairs| - 1;
      BuiltPairsExact(env, pairs[..n], from);
      var built := BuiltPairs(env, pairs[..n], from);
      assert built <= pairs[..n] && built <= pairs;
      if |built| == n {
        assert built == pairs[..n];
        BuildsOnPrefix(env, pairs, n, from);
      } else {
        BuildsAlike(env, pairs, n, |built|, from);
      }
    }
  }

  lemma BuildsAlike(env: Env, pairs: seq<Pair>, n: nat, i: nat, from: nat)
    requires i < n <= |pairs|
    ensures PairBuilds(env, pairs[..n], i, from) <==> PairBuilds(env, pairs, i, from)
  {
    assert pairs[..n][..i] == pairs[..i];
  }

  lemma BuildsOnPrefix(env: Env, pairs: seq<Pair>, n: nat, from: nat)
    requires n == |pairs| - 1 && AllBuild(env, pairs[..n], from) && !AllBuild(env, pairs, from)
    ensures !PairBuilds(env, pairs, n, from)
  {
    forall i: nat | i < n
      ensures PairBuilds(env, pairs, i, from)
    {
      BuildsAlike(env, pairs, n, i, from);
      assert PairBuilds(env, pairs[..n], i, from);
    }
  }

  lemma {:induction false} WritesExact(env: Env, m: nat)
    ensures AllPut(env, Writes(env, m)) && (Writes(env, m) < m ==> !env.put(Writes(env, m)))
    ensures Writes(env, m) == m <==> AllPut(env, m)
    ensures Writes(env, m) > 0 <==> m > 0 && env.put(0)
  {
    if m > 0 { WritesExact(env, m - 1); }
  }

  lemma PackageExact(env: Env, files: seq<string>, from: nat)
    ensures PackageResult(env, files, from).Got? <==> Packs(env, files, from)
    ensures Packs(env, files, from) ==> PackageResult(env, files, from) == env.package(files)
  {}

  // ---------------------------------------------------------------- the gated path

  ghost predicate GatedBuilds(env: Env, job: Job, from: nat) {
    var pairs := Pairs(job.styles, job.formats);
    && AllPass(env, pairs, from) && AllPut(env, |Attested(env, pairs)|)
    && Packs(env, FilesOf(env, pairs), from + |pairs|)
  }

  /** A gated build succeeds exactly when every pair passes, every deferred write does, and packaging
      does; the package then holds one file per pair and the archive every attested one. */
  lemma GatedBuildsExactly(env: Env, job: Job, from: nat)
    ensures BuildResult(env, job, true, None, from).Got? <==> GatedBuilds(env, job, from)
    ensures GatedBuilds(env, job, from) ==> var pairs := Pairs(job.styles, job.formats);
      && BuildResult(env, job, true, None, from) == env.package(FilesOf(env, pairs))
      && ArchivedBy(env, job, true, None, from) == Attested(env, pairs)
  {
    hide FirstStop, AllPass, Writes, AllPut, Packs, PackageResult, Pairs, Attested, FilesOf;
    var pairs := Pairs(job.styles, job.formats);
    FirstStopExact(env, pairs, from);
    WritesExact(env, |Attested(env, pairs)|);
    PackageExact(env, FilesOf(env, pairs), from + |pairs|);
  }

  /** A failed gated job leaves fonts in the archive exactly when every pair passed and the first
      write did: the failure is then a later write, a check or the packager. */
  lemma FailedGatedJobArchives(env: Env, job: Job, from: nat)
    ensures BuildResult(env, job, true, None, from).Raised? && ArchivedBy(env, job, true, None, from) != [] <==>
      var pairs := Pairs(job.styles, job.formats);
      && AllPass(env, pairs, from) && Attested(env, pairs) != [] && env.put(0)
      && !(AllPut(env, |Attested(env, pairs)|) && Packs(env, FilesOf(env, pairs), from + |pairs|))
  {
    hide FirstStop, AllPass, Writes, AllPut, Packs, PackageResult, Pairs, Attested, FilesOf;
    var pairs := Pairs(job.styles, job.formats);
    GatedBuildsExactly(env, job, from);
    FirstStopExact(env, pairs, from);
    WritesExact(env, |Attested(env, pairs)|);
  }

  /** The archive gets all attested fonts or none, exactly unless a write fails after the first. */
  lemma AllOrNothingExactly(env: Env, job: Job, from: nat)
    ensures var pairs, archived := Pairs(job.styles, job.formats), ArchivedBy(env, job, true, None, from);
      && archived <= Attested(env, pairs)
      && (archived == [] || archived == Attested(env, pairs) <==>
            !(AllPass(env, pairs, from) && env.put(0) && !AllPut(env, |Attested(env, pairs)|)))
  {
    hide FirstStop, AllPass, Writes, AllPut, Pairs, Attested;
    var pairs := Pairs(job.styles, job.formats);
    var attested := Attested(env, pairs);
    FirstStopExact(env, pairs, from);
    WritesExact(env, |attested|);
    NoWrites(env);
    assert attested[..|attested|] == attested;
  }

  /** What a gated job archives is the font its pair resolved to, attested, of an archiveable format. */
  lemma {:induction false} AttestedIsResolved(env: Env, pairs: seq<Pair>, en: Entry)
    requires en in Attested(env, pairs)
    ensures env.archiving && en.pair in pairs && (en.pair.format == "TTF" || en.pair.format == "OTF")
    ensures en.attestation.Some? && env.resolve(en.pair) == Got(Artifact(en.file, en.attestation))
  {
    var n := |pairs| - 1;
    if en in Attested(env, pairs[..n]) {
      AttestedIsResolved(env, pairs[..n], en);
    } else {
      assert en in AttestedOne(env, pairs[n]);
    }
  }

  /** And every attested pair of such a format is archived when nothing fails. */
  lemma {:induction false} ResolvedIsAttested(env: Env, pairs: seq<Pair>, i: nat, file: string, attestation: string)
    requires i < |pairs| && env.archiving && (pairs[i].format == "TTF" || pairs[i].format == "OTF")
    requires env.resolve(pairs[i]) == Got(Artifact(file, Some(attestation)))
    ensures Entry(pairs[i], file, Some(attestation)) in Attested(env, pairs)
  {
    var n := |pairs| - 1;
    if i < n { ResolvedIsAttested(env, pairs[..n], i, file, attestation); }
  }

  /** Whatever the end of a gated job, each archived entry is an attested font of its own pair. */
  lemma GatedArchiveIsAttested(env: Env, job: Job, from: nat, en: Entry)
    requires en in ArchivedBy(env, job, true, None, from)
    ensures en.pair in Pairs(job.styles, job.formats) && (en.pair.format == "TTF" || en.pair.format == "OTF")
    ensures en.attestation.Some? && env.resolve(en.pair) == Got(Artifact(en.file, en.attestation))
  {
    AttestedIsResolved(env, Pairs(job.styles, job.formats), en);
  }

  /** An ungated job archives the file its pair resolved to, with no attestation. */
  lemma {:induction false} PlainIsResolved(env: Env, pairs: seq<Pair>, en: Entry)
    requires en in Plain(env, pairs)
    ensures env.archiving && en.pair in pairs && (en.pair.format == "TTF" || en.pair.format == "OTF")
    ensures en.attestation.None? && (env.resolve(en.pair).Got? ==> en.file == env.resolve(en.pair).value.file)
  {
    var n := |pairs| - 1;
    if en in Plain(env, pairs[..n]) {
      PlainIsResolved(env, pairs[..n], en);
    } else {
      assert en in PlainOne(env, pairs[n]);
    }
  }

  lemma NoWrites(env: Env)
    ensures AllPut(env, 0)
  {}

  // ---------------------------------------------------------------- the ungated and the cached path

  ghost predicate UngatedBuilds(env: Env, job: Job, from: nat) {
    var pairs := Pairs(job.styles, job.formats);
    AllBuild(env, pairs, from) && Packs(env, FilesOf(env, pairs), from + |pairs|)
  }

  lemma {:induction false} PairsNeedFormats(styles: seq<string>, formats: seq<string>)
    ensures Pairs(styles, formats) != [] ==> formats != []
    ensures forall i | 0 <= i < |Pairs(styles, formats)| :: Pairs(styles, formats)[i].style in styles
  {
    if styles != [] {
      var n := |styles| - 1;
      PairsNeedFormats(styles[..n], formats);
    }
  }

  /** An ungated build succeeds exactly when every pair builds and packaging does. */
  lemma UngatedBuildsExactly(env: Env, job: Job, from: nat)
    ensures BuildResult(env, job, false, None, from).Got? <==> UngatedBuilds(env, job, from)
    ensures UngatedBuilds(env, job, from) ==> var pairs := Pairs(job.styles, job.formats);
      && BuildResult(env, job, false, None, from) == env.package(FilesOf(env, pairs))
      && ArchivedBy(env, job, false, None, from) == Plain(env, pairs)
  {
    hide DirectStop, AllBuild, Packs, PackageResult, Pairs, FilesOf, Plain;
    var pairs := Pairs(job.styles, job.formats);
    PairsNeedFormats(job.styles, job.formats);
    DirectStopExact(env, pairs, from);
    PackageExact(env, FilesOf(env, pairs), from + |pairs|);
    NoFilesDoNotPack(env, pairs, from);
    SomePairIsSourced(env, pairs, from);
    if DirectStop(env, pairs, from).None? { BuiltAll(env, pairs, from); }
  }

  lemma NoFilesDoNotPack(env: Env, pairs: seq<Pair>, from: nat)
    ensures pairs == [] ==> !Packs(env, FilesOf(env, pairs), from + |pairs|)
  {}

  lemma SomePairIsSourced(env: Env, pairs: seq<Pair>, from: nat)
    ensures AllBuild(env, pairs, from) && pairs != [] ==> env.sources.Some?
  {
    if AllBuild(env, pairs, from) && pairs != [] { assert PairBuilds(env, pairs, 0, from); }
  }

  /** Some pair is written to the archive: it and all pairs before it build, and it is archiveable. */
  ghost predicate SomeWritten(env: Env, pairs: seq<Pair>, from: nat) {
    exists i: nat :: i < |pairs| && Archives(env, pairs[i]) && BuildUpTo(env, pairs, i, from)
  }

  ghost predicate BuildUpTo(env: Env, pairs: seq<Pair>, i: nat, from: nat)
    requires i < |pairs|
  {
    forall j: nat | j <= i :: PairBuilds(env, pairs, j, from)
  }

  lemma {:induction false} PlainIsEmpty(env: Env, pairs: seq<Pair>)
    ensures Plain(env, pairs) == [] <==> forall i | 0 <= i < |pairs| :: !Archives(env, pairs[i])
  {
    if pairs != [] {
      var n := |pairs| - 1;
      PlainIsEmpty(env, pairs[..n]);
      assert forall i | 0 <= i < n :: pairs[..n][i] == pairs[i];
    }
  }

  /** An ungated build archives exactly the pairs before the first that does not build, so a failed
      one leaves fonts exactly when an archiveable pair and all before it build. */
  lemma FailedUngatedJobArchives(env: Env, job: Job, from: nat)
    ensures BuildResult(env, job, false, None, from).Raised? && ArchivedBy(env, job, false, None, from) != [] <==>
      SomeWritten(env, Pairs(job.styles, job.formats), from) && !UngatedBuilds(env, job, from)
  {
    hide UngatedBuilds, BuildResult, Pairs, Plain, BuiltPairs;
    var pairs := Pairs(job.styles, job.formats);
    UngatedBuildsExactly(env, job, from);
    WrittenExactly(env, pairs, from);
  }

  lemma StopsLater(env: Env, pairs: seq<Pair>, stop: nat, i: nat, from: nat)
    requires i < |pairs| && BuildUpTo(env, pairs, i, from)
    requires stop < |pairs| ==> !PairBuilds(env, pairs, stop, from)
    ensures i < stop
  {}

  lemma WrittenExactly(env: Env, pairs: seq<Pair>, from: nat)
    ensures Plain(env, BuiltPairs(env, pairs, from)) != [] <==> SomeWritten(env, pairs, from)
  {
    hide PairBuilds, Plain, BuiltPairs;
    var built := BuiltPairs(env, pairs, from);
    BuiltPairsExact(env, pairs, from);
    PlainIsEmpty(env, built);
    forall i: nat | i < |built|
      ensures built[i] == pairs[i] && PairBuilds(env, pairs, i, from)
    {
      BuildsAlike(env, pairs, |built|, i, from);
      assert pairs[..|built|] == built;
    }
    if Plain(env, built) != [] {
      var i :| 0 <= i < |built| && Archives(env, built[i]);
      assert Archives(env, pairs[i]) && BuildUpTo(env, pairs, i, from);
    }
    if SomeWritten(env, pairs, from) {
      var i: nat :| i < |pairs| && Archives(env, pairs[i]) && BuildUpTo(env, pairs, i, from);
      StopsLater(env, pairs, |built|, i, from);
      assert Archives(env, built[i]);
    }
  }

  /** Cached files are packaged exactly when there are some and packaging succeeds; nothing is archived. */
  lemma CachedBuildsExactly(env: Env, job: Job, gated: bool, files: seq<string>, from: nat)
    ensures BuildResult(env, job, gated, Some(files), from).Got? <==> Packs(env, files, from)
    ensures Packs(env, files, from) ==> BuildResult(env, job, gated, Some(files), from) == env.package(files)
    ensures ArchivedBy(env, job, gated, Some(files), from) == []
  {}

  // ---------------------------------------------------------------- the wall after the archive loop

  function OneFont(p: Pair): Try<Artifact> { Got(Artifact("font.ttf", Some("attestation"))) }

  /** A world whose wall strikes at the second check. */
  function LateWall(): Env {
    Env(n => if n == 0 then None else Some(WallExceeded), None, OneFont, p => true, true, n => true,
        files => Raised(Failure("unused")), n => Got(UploadFailed), Got(Ambiguous), n => None, n => Got(true))
  }

  lemma OnePair(style: string, format: string)
    ensures Pairs([style], [format]) == [Pair(style, format)]
  {
    assert [style][..0] == [] && Pairs([], [format]) == [];
  }

  lemma OneAttested(env: Env, p: Pair)
    requires env.archiving && env.resolve == OneFont && Archiveable(p.format)
    ensures |Attested(env, [p])| == 1
  {
    assert [p][..0] == [] && Attested(env, []) == [];
  }

  /** The wall strikes after the pairs: the job fails at the wall, yet its font is in the archive. */
  lemma ArchivedPastTheWall()
    ensures var job := Job("job", "token", ["style"], ["TTF"]);
      && BuildResult(LateWall(), job, true, None, 0) == Raised(WallExceeded)
      && |ArchivedBy(LateWall(), job, true, None, 0)| == 1
  {
    var env, p := LateWall(), Pair("style", "TTF");
    OnePair("style", "TTF");
    OneAttested(env, p);
    assert PairPasses(env, [p], 0, 0);
    assert AllPass(env, [p], 0) && AllPut(env, 1);
    FirstStopExact(env, [p], 0);
    WritesExact(env, 1);
    hide FirstStop, Writes, Pairs, Attested, AllPass, AllPut;
  }
}
