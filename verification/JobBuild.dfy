/** From a claimed job to its package: resolve or build every style and format, archive, package.
    Every answer from outside, and every moment the fence or the wall strikes, is arbitrary. */
module JobBuild {

  datatype Option<+T> = None | Some(value: T)

  /** Why a step raised: the fence, the job wall (which any awaited call can also hit), or an error,
      under the code its text is mapped to. */
  datatype Stop = FencedOrExpired | WallExceeded | Failure(code: string)

  datatype Try<+T> = Raised(stop: Stop) | Got(value: T)

  datatype Pair = Pair(style: string, format: string)

  datatype Artifact = Artifact(file: string, attestation: Option<string>)

  datatype Entry = Entry(pair: Pair, file: string, attestation: Option<string>)

  datatype Part = Part(index: int, total: int, filename: string, sha256: string, size: int)

  /** The whole zip, and its parts when it was split. */
  datatype Manifest = Manifest(zip: Part, parts: seq<Part>)

  datatype Job = Job(id: string, token: string, styles: seq<string>, formats: seq<string>)

  datatype UploadAnswer = UploadFenced | UploadFailed | UploadOk(key: string)

  datatype CompleteAnswer = Completed | CompletionFenced | Ambiguous | Refused(ackIt: bool)

  /** Everything outside the runner. Guards, archive writes, uploads, queue and fail calls are numbered. */
  datatype Env = Env(
    guard: nat -> Option<Stop>,
    sources: Option<set<string>>,
    resolve: Pair -> Try<Artifact>,
    valid: Pair -> bool,
    archiving: bool,
    put: nat -> bool,
    package: seq<string> -> Try<Manifest>,
    upload: nat -> Try<UploadAnswer>,
    complete: Try<CompleteAnswer>,
    queue: nat -> Option<Stop>,
    fail: nat -> Try<bool>)

  const INVALID := Failure("GENERATED_FONT_INVALID")
  const NO_SOURCE := Failure("MISSING_SOURCE_PAYLOAD")
  const NO_STYLE := Failure("STYLE_MISSING_IN_SOURCE")
  const ARCHIVE_FAILED := Failure("FINAL_FONT_ARCHIVE_WRITE_FAILED")
  const NO_FILES := Failure("NO_FILES_GENERATED")

  // ---------------------------------------------------------------- style and format pairs

  function Row(style: string, formats: seq<string>): (r: seq<Pair>)
    ensures |r| == |formats|
  {
    seq(|formats|, j requires 0 <= j < |formats| => Pair(style, formats[j]))
  }

  /** All pairs of a job, style by style. */
  function Pairs(styles: seq<string>, formats: seq<string>): seq<Pair> {
    if styles == [] then [] else Pairs(styles[..|styles| - 1], formats) + Row(styles[|styles| - 1], formats)
  }

  function FileOf(env: Env, p: Pair): string {
    match env.resolve(p) case Got(artifact) => artifact.file case Raised(_) => ""
  }

  /** One file per pair, in job order. */
  function FilesOf(env: Env, pairs: seq<Pair>): (r: seq<string>)
    ensures |r| == |pairs|
  {
    seq(|pairs|, i requires 0 <= i < |pairs| => FileOf(env, pairs[i]))
  }

  predicate Archiveable(format: string) { format == "TTF" || format == "OTF" }

  function AttestedOne(env: Env, p: Pair): seq<Entry> {
    match env.resolve(p)
    case Got(artifact) =>
      if env.archiving && artifact.attestation.Some? && Archiveable(p.format)
      then [Entry(p, artifact.file, artifact.attestation)]
      else []
    case Raised(_) => []
  }

  /** The freshly attested pairs in job order. */
  function Attested(env: Env, pairs: seq<Pair>): seq<Entry> {
    if pairs == [] then [] else Attested(env, pairs[..|pairs| - 1]) + AttestedOne(env, pairs[|pairs| - 1])
  }

  function PlainOne(env: Env, p: Pair): seq<Entry> {
    if env.archiving && Archiveable(p.format) then [Entry(p, FileOf(env, p), None)] else []
  }

  /** The archive entries of the ungated path. */
  function Plain(env: Env, pairs: seq<Pair>): seq<Entry> {
    if pairs == [] then [] else Plain(env, pairs[..|pairs| - 1]) + PlainOne(env, pairs[|pairs| - 1])
  }

  // ---------------------------------------------------------------- how a build ends

  /** What stops a pair whose check has the given number. */
  function PairStop(env: Env, p: Pair, check: nat): Option<Stop> {
    match env.guard(check)
    case Some(stop) => Some(stop)
    case None =>
      match env.resolve(p)
      case Raised(stop) => Some(stop)
      case Got(_) => if env.valid(p) then None else Some(Failure("GENERATED_FONT_INVALID"))
  }

  /** What stops the gated loop. */
  function FirstStop(env: Env, pairs: seq<Pair>, from: nat): Option<Stop> {
    if pairs == [] then None else
      var n := |pairs| - 1;
      match FirstStop(env, pairs[..n], from)
      case Some(stop) => Some(stop)
      case None => PairStop(env, pairs[n], from + n)
  }

  predicate Sourced(env: Env, style: string) { env.sources.Some? && style in env.sources.value }

  /** What stops the ungated step of a pair after the given number of archive writes. */
  function StepStop(env: Env, p: Pair, check: nat, writes: nat): Option<Stop> {
    if !Sourced(env, p.style) then Some(Failure("STYLE_MISSING_IN_SOURCE"))
    else
      match PairStop(env, p, check)
      case Some(stop) => Some(stop)
      case None =>
        if env.archiving && Archiveable(p.format) && !env.put(writes)
          then Some(Failure("FINAL_FONT_ARCHIVE_WRITE_FAILED")) else None
  }

  /** What stops the ungated loop. */
  function DirectStop(env: Env, pairs: seq<Pair>, from: nat): Option<Stop> {
    if pairs == [] then None else
      var n := |pairs| - 1;
      match DirectStop(env, pairs[..n], from)
      case Some(stop) => Some(stop)
      case None => StepStop(env, pairs[n], from + n, |Plain(env, pairs[..n])|)
  }

  /** The pairs the ungated loop builds before it stops. */
  function BuiltPairs(env: Env, pairs: seq<Pair>, from: nat): seq<Pair> {
    if pairs == [] || DirectStop(env, pairs, from).None? then pairs
    else BuiltPairs(env, pairs[..|pairs| - 1], from)
  }

  /** How many of the first m archive writes succeed in a row. */
  function Writes(env: Env, m: nat): (r: nat)
    ensures r <= m
  {
    if m == 0 then 0 else
      var before := Writes(env, m - 1);
      if before == m - 1 && env.put(m - 1) then m else before
  }

  function UngatedStop(env: Env, job: Job, from: nat): Option<Stop> {
    if env.sources.None? then Some(Failure("MISSING_SOURCE_PAYLOAD"))
    else if job.formats == [] then
      if forall i | 0 <= i < |job.styles| :: Sourced(env, job.styles[i])
         then None else Some(Failure("STYLE_MISSING_IN_SOURCE"))
    else DirectStop(env, Pairs(job.styles, job.formats), from)
  }

  function GatedStop(env: Env, job: Job, from: nat): Option<Stop> {
    var pairs := Pairs(job.styles, job.formats);
    match FirstStop(env, pairs, from)
    case Some(stop) => Some(stop)
    case None =>
      var m := |Attested(env, pairs)|;
      if Writes(env, m) == m then None else Some(Failure("FINAL_FONT_ARCHIVE_WRITE_FAILED"))
  }

  /** Packaging, between two checks. */
  function PackageResult(env: Env, files: seq<string>, from: nat): Try<Manifest> {
    if files == [] then Raised(Failure("NO_FILES_GENERATED")) else
      match env.guard(from)
      case Some(stop) => Raised(stop)
      case None =>
        match env.package(files)
        case Raised(stop) => Raised(stop)
        case Got(manifest) => match env.guard(from + 1) case Some(stop) => Raised(stop) case None => Got(manifest)
  }

  /** The files that reach the packager. */
  function FilesToPack(env: Env, job: Job, cached: Option<seq<string>>): seq<string> {
    match cached case Some(files) => files case None => FilesOf(env, Pairs(job.styles, job.formats))
  }

  function ChecksToPack(job: Job, cached: Option<seq<string>>): nat {
    if cached.Some? then 0 else |Pairs(job.styles, job.formats)|
  }

  function BuildResult(env: Env, job: Job, gated: bool, cached: Option<seq<string>>, from: nat): Try<Manifest> {
    var stop := if cached.Some? then None else if gated then GatedStop(env, job, from) else UngatedStop(env, job, from);
    if stop.Some? then Raised(stop.value)
    else PackageResult(env, FilesToPack(env, job, cached), from + ChecksToPack(job, cached))
  }

  /** What a build adds to the archive, however it ends. */
  function ArchivedBy(env: Env, job: Job, gated: bool, cached: Option<seq<string>>, from: nat): seq<Entry> {
    var pairs := Pairs(job.styles, job.formats);
    if cached.Some? then []
    else if gated then
      var attested := Attested(env, pairs);
      if FirstStop(env, pairs, from).Some? then [] else attested[..Writes(env, |attested|)]
    else Plain(env, BuiltPairs(env, pairs, from))
  }

  // ---------------------------------------------------------------- the loops

  class JobBuilder {
    const env: Env
    var archive: seq<Entry>
    var checks: nat

    constructor (env: Env)
      ensures this.env == env && archive == [] && checks == 0
    {
      this.env, archive, checks := env, [], 0;
    }

    /** The liveness fence and the wall, as they stand at this check. */
    method Check() returns (stop: Option<Stop>)
      modifies this`checks
      ensures checks == old(checks) + 1 && stop == env.guard(old(checks))
    {
      stop := env.guard(checks);
      checks := checks + 1;
    }

    /** The checks of one pair: fence and wall, then the font, then its validation. */
    method ResolvePair(p: Pair) returns (r: Try<Artifact>)
      modifies this`checks
      ensures checks == old(checks) + 1
      ensures match PairStop(env, p, old(checks))
              case Some(stop) => r == Raised(stop)
              case None => r == env.resolve(p) && r.Got?
    {
      var stop := Check();
      if stop.Some? { return Raised(stop.value); }
      r := env.resolve(p);
      if r.Raised? { return; }
      if !env.valid(p) { return Raised(INVALID); }
    }

    /** Gated: every pair is resolved and validated; nothing is archived here. */
    method ResolveAll(job: Job) returns (r: Try<(seq<string>, seq<Entry>)>)
      modifies this`checks
      ensures var pairs := Pairs(job.styles, job.formats);
        match FirstStop(env, pairs, old(checks))
        case Some(stop) => r == Raised(stop)
        case None => r == Got((FilesOf(env, pairs), Attested(env, pairs))) && checks == old(checks) + |pairs|
    {
      hide Pairs, Row, FirstStop, Attested, FilesOf;
      var files: seq<string>, pending: seq<Entry> := [], [];
      ghost var done: seq<Pair> := [];
      Nothing(env, old(checks), job.formats);
      assert job.styles[..0] == [];
      for i := 0 to |job.styles|
        invariant done == Pairs(job.styles[..i], job.formats)
        invariant Taken(env, done, files, pending, old(checks)) && checks == old(checks) + |done|
      {
        var style := job.styles[i];
        ghost var row, before := Row(style, job.formats), done;
        assert row[..0] == [];
        for j := 0 to |job.formats|
          invariant done == before + row[..j]
          invariant Taken(env, done, files, pending, old(checks)) && checks == old(checks) + |done|
        {
          var p := Pair(style, job.formats[j]);
          RowNext(job.styles, job.formats, i, j);
          TakeNext(env, done, files, pending, p, old(checks));
          var artifact := ResolvePair(p);
          if artifact.Raised? {
            FirstStopStays(env, done + [p], Pairs(job.styles, job.formats), old(checks));
            return Raised(artifact.stop);
          }
          if artifact.value.attestation.Some? && env.archiving && Archiveable(p.format) {
            pending := pending + [Entry(p, artifact.value.file, artifact.value.attestation)];
          }
          files := files + [artifact.value.file];
          done := done + [p];
        }
        assert row[..|job.formats|] == row;
        PairsNext(job.styles, job.formats, i);
      }
      assert job.styles[..|job.styles|] == job.styles;
      r := Got((files, pending));
    }

    /** The deferred writes, up to the first that fails. */
    method ArchiveAll(pending: seq<Entry>) returns (ok: bool)
      modifies this`archive
      ensures archive == old(archive) + pending[..Writes(env, |pending|)]
      ensures ok <==> Writes(env, |pending|) == |pending|
    {
      for i := 0 to |pending|
        invariant archive == old(archive) + pending[..i] && Writes(env, i) == i
      {
        if !env.put(i) {
          WritesStay(env, i, |pending|);
          return false;
        }
        archive := archive + [pending[i]];
        assert pending[..i + 1] == pending[..i] + [pending[i]];
      }
      ok := true;
    }

    /** Ungated: one pair is built, validated and archived. */
    method BuildOne(p: Pair, writes: nat) returns (r: Try<string>)
      requires Sourced(env, p.style)
      modifies this`checks, this`archive
      ensures checks == old(checks) + 1
      ensures match StepStop(env, p, old(checks), writes)
        case Some(stop) => r == Raised(stop) && archive == old(archive)
        case None => r == Got(FileOf(env, p)) && archive == old(archive) + PlainOne(env, p)
    {
      var artifact := ResolvePair(p);
      if artifact.Raised? { return Raised(artifact.stop); }
      if env.archiving && Archiveable(p.format) {
        if !env.put(writes) { return Raised(ARCHIVE_FAILED); }
        archive := archive + [Entry(p, artifact.value.file, None)];
      }
      r := Got(artifact.value.file);
    }

    /** Ungated: all formats of one style. */
    method BuildRow(job: Job, i: nat, done: seq<string>, before: nat, ghost from: nat, ghost base: seq<Entry>)
      returns (r: Try<seq<string>>, writes: nat)
      requires i < |job.styles| && Sourced(env, job.styles[i])
      requires Stored(env, Pairs(job.styles[..i], job.formats), done, before, archive, base, from)
      requires checks == from + |Pairs(job.styles[..i], job.formats)|
      modifies this`checks, this`archive
      ensures r.Got? ==>
        && Stored(env, Pairs(job.styles[..i + 1], job.formats), r.value, writes, archive, base, from)
        && checks == from + |Pairs(job.styles[..i + 1], job.formats)|
      ensures r.Raised? ==> var pairs := Pairs(job.styles, job.formats);
        DirectStop(env, pairs, from) == Some(r.stop) && archive == base + Plain(env, BuiltPairs(env, pairs, from))
    {
      hide Plain, PlainOne, FilesOf, Pairs, Row, DirectStop, StepStop, BuiltPairs, Sourced;
      var style, files := job.styles[i], done;
      ghost var row, now := Row(style, job.formats), Pairs(job.styles[..i], job.formats);
      ghost var start := now;
      writes := before;
      assert row[..0] == [];
      for j := 0 to |job.formats|
        invariant now == start + row[..j]
        invariant Stored(env, now, files, writes, archive, base, from) && checks == from + |now|
      {
        var p := Pair(style, job.formats[j]);
        RowNext(job.styles, job.formats, i, j);
        StoreNext(env, now, files, writes, archive, base, from, p);
        var file := BuildOne(p, writes);
        if file.Raised? {
          DirectStopStays(env, now, p, Pairs(job.styles, job.formats), from);
          return Raised(file.stop), writes;
        }
        if env.archiving && Archiveable(p.format) { writes := writes + 1; }
        files := files + [file.value];
        now := now + [p];
      }
      assert row[..|job.formats|] == row;
      PairsNext(job.styles, job.formats, i);
      r := Got(files);
    }

    /** Ungated: each pair is archived as soon as it is built. */
    method BuildDirectly(job: Job) returns (r: Try<seq<string>>)
      modifies this`checks, this`archive
      ensures var pairs := Pairs(job.styles, job.formats);
        && archive == old(archive) + Plain(env, BuiltPairs(env, pairs, old(checks)))
        && match UngatedStop(env, job, old(checks))
           case Some(stop) => r == Raised(stop)
           case None => r == Got(FilesOf(env, pairs)) && checks == old(checks) + |pairs|
    {
      hide Plain, FilesOf, Pairs, DirectStop, BuiltPairs, Row;
      var files: seq<string>, writes: nat := [], 0;
      Nothing(env, old(checks), job.formats);
      assert job.styles[..0] == [];
      if env.sources.None? {
        NothingSourced(env, Pairs(job.styles, job.formats), old(checks));
        return Raised(NO_SOURCE);
      }
      for i := 0 to |job.styles|
        invariant Stored(env, Pairs(job.styles[..i], job.formats), files, writes, archive, old(archive), old(checks))
        invariant checks == old(checks) + |Pairs(job.styles[..i], job.formats)|
        invariant forall k | 0 <= k < i :: Sourced(env, job.styles[k])
      {
        if job.styles[i] !in env.sources.value {
          UnsourcedStyle(env, job, i, old(checks));
          return Raised(NO_STYLE);
        }
        var row;
        row, writes := BuildRow(job, i, files, writes, old(checks), old(archive));
        if row.Raised? {
          RowStopped(env, job, old(checks));
          return row;
        }
        files := row.value;
      }
      assert job.styles[..|job.styles|] == job.styles;
      BuiltAll(env, Pairs(job.styles, job.formats), old(checks));
      r := Got(files);
    }

    /** Build on a miss or take the cached files, archive, then package. */
    method BuildValidateAndPackage(job: Job, gated: bool, cached: Option<seq<string>>) returns (r: Try<Manifest>)
      modifies this`checks, this`archive
      ensures r == BuildResult(env, job, gated, cached, old(checks))
      ensures archive == old(archive) + ArchivedBy(env, job, gated, cached, old(checks))
      ensures r.Got? ==> checks == old(checks) + ChecksToPack(job, cached) + 2
    {
      hide Attested, FilesOf, Pairs, FirstStop, UngatedStop, Plain, BuiltPairs, Writes;
      var generated: seq<string>;
      if cached.Some? {
        generated := cached.value;
      } else if gated {
        var resolved := ResolveAll(job);
        if resolved.Raised? { return Raised(resolved.stop); }
        var ok := ArchiveAll(resolved.value.1);
        if !ok { return Raised(ARCHIVE_FAILED); }
        generated := resolved.value.0;
      } else {
        var direct := BuildDirectly(job);
        if direct.Raised? { return Raised(direct.stop); }
        generated := direct.value;
      }
      if generated == [] { return Raised(NO_FILES); }
      var stop := Check();
      if stop.Some? { return Raised(stop.value); }
      r := env.package(generated);
      if r.Raised? { return; }
      stop := Check();
      if stop.Some? { return Raised(stop.value); }
    }
  }

  // ---------------------------------------------------------------- steps of the loops

  ghost predicate Taken(env: Env, done: seq<Pair>, files: seq<string>, pending: seq<Entry>, from: nat) {
    files == FilesOf(env, done) && pending == Attested(env, done) && FirstStop(env, done, from).None?
  }

  ghost predicate Stored(env: Env, done: seq<Pair>, files: seq<string>, writes: nat, archive: seq<Entry>,
                         base: seq<Entry>, from: nat) {
    && files == FilesOf(env, done) && DirectStop(env, done, from).None?
    && archive == base + Plain(env, done) && writes == |Plain(env, done)|
  }

  lemma Nothing(env: Env, from: nat, formats: seq<string>)
    ensures Pairs([], formats) == [] && Taken(env, [], [], [], from)
    ensures forall archive: seq<Entry> :: Stored(env, [], [], 0, archive, archive, from)
  {}

  lemma TakeNext(env: Env, done: seq<Pair>, files: seq<string>, pending: seq<Entry>, p: Pair, from: nat)
    requires Taken(env, done, files, pending, from)
    ensures FirstStop(env, done + [p], from) == PairStop(env, p, from + |done|)
    ensures PairStop(env, p, from + |done|).None? ==>
      Taken(env, done + [p], files + [FileOf(env, p)], pending + AttestedOne(env, p), from)
  {
    assert (done + [p])[..|done|] == done;
  }

  lemma StoreNext(env: Env, done: seq<Pair>, files: seq<string>, writes: nat, archive: seq<Entry>, base: seq<Entry>,
                  from: nat, p: Pair)
    requires Stored(env, done, files, writes, archive, base, from)
    ensures DirectStop(env, done + [p], from) == StepStop(env, p, from + |done|, writes)
    ensures StepStop(env, p, from + |done|, writes).None? ==>
      Stored(env, done + [p], files + [FileOf(env, p)],
             if env.archiving && Archiveable(p.format) then writes + 1 else writes,
             archive + PlainOne(env, p), base, from)
  {
    assert (done + [p])[..|done|] == done;
  }

  /** A stop among the first pairs is the stop of all. */
  lemma {:induction false} FirstStopStays(env: Env, done: seq<Pair>, all: seq<Pair>, from: nat)
    requires done <= all && FirstStop(env, done, from).Some?
    ensures FirstStop(env, all, from) == FirstStop(env, done, from)
    decreases |all|
  {
    if |done| < |all| {
      FirstStopStays(env, done, all[..|all| - 1], from);
    } else {
      assert done == all;
    }
  }

  /** The first pair that does not build ends the ungated loop, with the pairs before it built. */
  lemma {:induction false} DirectStopStays(env: Env, done: seq<Pair>, p: Pair, all: seq<Pair>, from: nat)
    requires done + [p] <= all && DirectStop(env, done, from).None? && DirectStop(env, done + [p], from).Some?
    ensures DirectStop(env, all, from) == DirectStop(env, done + [p], from)
    ensures BuiltPairs(env, all, from) == done
    decreases |all|
  {
    var n := |all| - 1;
    if |done| < n {
      DirectStopStays(env, done, p, all[..n], from);
    } else {
      assert all == done + [p] && all[..n] == done;
      BuiltAll(env, done, from);
    }
  }

  lemma BuiltAll(env: Env, pairs: seq<Pair>, from: nat)
    requires DirectStop(env, pairs, from).None?
    ensures BuiltPairs(env, pairs, from) == pairs
  {}

  lemma {:induction false} WritesStay(env: Env, i: nat, m: nat)
    requires i < m && Writes(env, i) == i && !env.put(i)
    ensures Writes(env, m) == i
  {
    if i < m - 1 { WritesStay(env, i, m - 1); }
  }

  lemma {:induction false} NothingSourced(env: Env, pairs: seq<Pair>, from: nat)
    requires env.sources.None?
    ensures BuiltPairs(env, pairs, from) == [] && Plain(env, []) == []
    ensures pairs != [] ==> DirectStop(env, pairs, from).Some?
  {
    if pairs != [] {
      NothingSourced(env, pairs[..|pairs| - 1], from);
    }
  }

  lemma PairsNext(styles: seq<string>, formats: seq<string>, i: nat)
    requires i < |styles|
    ensures Pairs(styles[..i + 1], formats) == Pairs(styles[..i], formats) + Row(styles[i], formats)
  {
    assert styles[..i + 1][..i] == styles[..i];
  }

  lemma {:induction false} PairsPrefix(styles: seq<string>, formats: seq<string>, i: nat)
    requires i <= |styles|
    ensures Pairs(styles[..i], formats) <= Pairs(styles, formats)
  {
    if i < |styles| {
      var n := |styles| - 1;
      PairsPrefix(styles[..n], formats, i);
      assert styles[..n][..i] == styles[..i];
    } else {
      assert styles[..i] == styles;
    }
  }

  /** The next format of the current style. */
  lemma RowNext(styles: seq<string>, formats: seq<string>, i: nat, j: nat)
    requires i < |styles| && j < |formats|
    ensures var row, p, before := Row(styles[i], formats), Pair(styles[i], formats[j]), Pairs(styles[..i], formats);
      && row[..j + 1] == row[..j] + [p]
      && before + row[..j + 1] == (before + row[..j]) + [p]
      && (before + row[..j]) + [p] <= Pairs(styles, formats)
  {
    hide Pairs;
    var row, p, before := Row(styles[i], formats), Pair(styles[i], formats[j]), Pairs(styles[..i], formats);
    PairsNext(styles, formats, i);
    PairsPrefix(styles, formats, i + 1);
    assert row[..j + 1] == row[..j] + [p];
    assert row == row[..j + 1] + row[j + 1..];
    assert before + row == before + row[..j + 1] + row[j + 1..];
  }

  /** A style without source data stops the ungated loop before its first pair. */
  lemma UnsourcedStyle(env: Env, job: Job, i: nat, from: nat)
    requires i < |job.styles| && !Sourced(env, job.styles[i]) && env.sources.Some?
    requires DirectStop(env, Pairs(job.styles[..i], job.formats), from).None?
    ensures UngatedStop(env, job, from) == Some(NO_STYLE)
    ensures BuiltPairs(env, Pairs(job.styles, job.formats), from) == Pairs(job.styles[..i], job.formats)
  {
    hide Pairs, Row;
    var all, before := Pairs(job.styles, job.formats), Pairs(job.styles[..i], job.formats);
    if job.formats == [] {
      NoFormatsNoPairs(job.styles);
      NoFormatsNoPairs(job.styles[..i]);
    } else {
      var p := Pair(job.styles[i], job.formats[0]);
      RowNext(job.styles, job.formats, i, 0);
      assert Row(job.styles[i], job.formats)[..0] == [] && before + [] == before;
      assert (before + [p])[..|before|] == before;
      DirectStopStays(env, before, p, all, from);
    }
  }

  lemma {:induction false} NoFormatsNoPairs(styles: seq<string>)
    ensures Pairs(styles, []) == []
  {
    if styles != [] { NoFormatsNoPairs(styles[..|styles| - 1]); }
  }

  lemma RowStopped(env: Env, job: Job, from: nat)
    requires env.sources.Some? && DirectStop(env, Pairs(job.styles, job.formats), from).Some?
    ensures UngatedStop(env, job, from) == DirectStop(env, Pairs(job.styles, job.formats), from)
  {
    if job.formats == [] { NoFormatsNoPairs(job.styles); }
  }
}
