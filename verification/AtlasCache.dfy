/** The persistent cache and the checkpoint file, with a crash allowed at any step of a write. */
module AtlasCache {
  import opened Sorting

  datatype Option<+T> = None | Some(value: T)

  datatype Key = Key(namespace: string, id: string, suffix: string)

  /** The three files that can belong to a key. */
  datatype File = EntryFile(key: Key) | SidecarFile(key: Key) | TmpFile(key: Key)

  /** A file body: plain bytes, or the canonical JSON of a payload bound to an identity. */
  datatype Content = Bytes(data: string) | Document(identity: string, payload: string)

  datatype Data = Body(content: Content) | Text(text: string)

  type Disk = map<File, Data>

  /** Hex digest of a body. */
  type Hash = Content -> string

  ghost predicate HexDigests(hash: Hash) { forall c :: |hash(c)| == 64 }

  /** No two of these bodies share a digest. */
  ghost predicate CollisionFree(hash: Hash, bodies: set<Content>) {
    forall a, b | a in bodies && b in bodies :: hash(a) == hash(b) ==> a == b
  }

  /** Where the process dies during a write, if it does. */
  datatype Crash = Never | WritingTmp(torn: Content) | BeforeReplace | AfterReplace | WritingSidecar(chars: nat)

  datatype Outcome = Stored | Died | InvalidNamespace

  predicate KnownNamespace(ns: string) {
    ns in {"observations", "metrics", "glyph_models", "font_model", "fonts", "reports"}
  }

  // ---------------------------------------------------------------- what a disk means

  function BodyAt(disk: Disk, f: File): Option<Content> {
    if f in disk && disk[f].Body? then Some(disk[f].content) else None
  }

  predicate SidecarAgrees(disk: Disk, key: Key, raw: Content, hash: Hash) {
    SidecarFile(key) !in disk || disk[SidecarFile(key)] == Text(hash(raw))
  }

  /** What a read of the key returns: the stored body, unless a sidecar contradicts it. */
  function Read(disk: Disk, key: Key, hash: Hash): Option<Content> {
    match BodyAt(disk, EntryFile(key))
    case None => None
    case Some(raw) => if SidecarAgrees(disk, key, raw, hash) then Some(raw) else None
  }

  /** The disk after an unverified write that may have died. */
  function Put(disk: Disk, key: Key, raw: Content, crash: Crash): Disk {
    match crash
    case WritingTmp(torn) => disk[TmpFile(key) := Body(torn)]
    case BeforeReplace => disk[TmpFile(key) := Body(raw)]
    case _ => (disk - {TmpFile(key)})[EntryFile(key) := Body(raw)]
  }

  /** The disk after a verified write that may have died: a torn sidecar holds some prefix of the digest. */
  function PutVerified(disk: Disk, key: Key, raw: Content, crash: Crash, hash: Hash): Disk {
    var put := Put(disk, key, raw, crash);
    match crash
    case Never => put[SidecarFile(key) := Text(hash(raw))]
    case WritingSidecar(n) => put[SidecarFile(key) := Text(if n < |hash(raw)| then hash(raw)[..n] else hash(raw))]
    case _ => put
  }

  class AtlasCacheStore {
    var files: Disk
    const hash: Hash

    constructor (hash: Hash)
      ensures files == map[] && this.hash == hash
    {
      files := map[];
      this.hash := hash;
    }

    method PutBytes(key: Key, raw: Content, crash: Crash) returns (outcome: Outcome)
      modifies this
      ensures outcome == if !KnownNamespace(key.namespace) then InvalidNamespace
                         else if crash.WritingTmp? || crash.BeforeReplace? || crash.AfterReplace? then Died else Stored
      ensures files == if outcome == InvalidNamespace then old(files) else Put(old(files), key, raw, crash)
      ensures outcome == InvalidNamespace <==>
        && key.namespace != "observations" && key.namespace != "metrics" && key.namespace != "glyph_models"
        && key.namespace != "font_model" && key.namespace != "fonts" && key.namespace != "reports"
    {
      if !KnownNamespace(key.namespace) { return InvalidNamespace; }
      if crash.WritingTmp? {
        files := files[TmpFile(key) := Body(crash.torn)];
        return Died;
      }
      files := files[TmpFile(key) := Body(raw)];
      if crash.BeforeReplace? { return Died; }
      files := files[EntryFile(key) := files[TmpFile(key)]] - {TmpFile(key)};
      assert files == Put(old(files), key, raw, crash);
      if crash.AfterReplace? { return Died; }
      outcome := Stored;
    }

    method PutBytesVerified(key: Key, raw: Content, crash: Crash) returns (outcome: Outcome)
      modifies this
      ensures outcome == if !KnownNamespace(key.namespace) then InvalidNamespace
                         else if crash.Never? then Stored else Died
      ensures files == if outcome == InvalidNamespace then old(files)
                       else PutVerified(old(files), key, raw, crash, hash)
    {
      outcome := PutBytes(key, raw, crash);
      if outcome != Stored { return; }
      var digest := hash(raw);
      if crash.WritingSidecar? {
        files := files[SidecarFile(key) := Text(if crash.chars < |digest| then digest[..crash.chars] else digest)];
        return Died;
      }
      files := files[SidecarFile(key) := Text(digest)];
    }

    method GetBytes(key: Key) returns (r: Option<Content>)
      ensures r == Read(files, key, hash)
    {
      if EntryFile(key) !in files { return None; }
      if !files[EntryFile(key)].Body? { return None; }
      var raw := files[EntryFile(key)].content;
      if SidecarFile(key) in files {
        var expected := files[SidecarFile(key)];
        if expected != Text(hash(raw)) { return None; }
      }
      r := Some(raw);
    }

    method PutJson(key: Key, payload: string, crash: Crash) returns (outcome: Outcome)
      modifies this
      ensures outcome == if !KnownNamespace(key.namespace) then InvalidNamespace
                         else if crash.WritingTmp? || crash.BeforeReplace? || crash.AfterReplace? then Died else Stored
      ensures files == if outcome == InvalidNamespace then old(files)
                       else Put(old(files), key, Document(key.id, payload), crash)
    {
      outcome := PutBytes(key, Document(key.id, payload), crash);
    }

    method GetJson(key: Key) returns (r: Option<string>)
      ensures r == ReadJson(files, key, hash)
    {
      var raw := GetBytes(key);
      if raw.None? { return None; }
      if raw.value.Bytes? { return None; }
      if raw.value.identity != key.id { return None; }
      r := Some(raw.value.payload);
    }
  }

  function ReadJson(disk: Disk, key: Key, hash: Hash): Option<string> {
    match Read(disk, key, hash)
    case Some(Document(identity, payload)) => if identity == key.id then Some(payload) else None
    case _ => None
  }

  // ---------------------------------------------------------------- one write

  /** Other keys read as before. */
  lemma WriteKeepsOthers(disk: Disk, key: Key, raw: Content, crash: Crash, hash: Hash, other: Key)
    requires other != key
    ensures Read(PutVerified(disk, key, raw, crash, hash), other, hash) == Read(disk, other, hash)
    ensures Read(Put(disk, key, raw, crash), other, hash) == Read(disk, other, hash)
  {}

  /** Exactly what is read after a verified write that died or not, from any disk at all. */
  lemma WriteReads(disk: Disk, key: Key, raw: Content, crash: Crash, hash: Hash)
    requires HexDigests(hash)
    ensures Read(PutVerified(disk, key, raw, crash, hash), key, hash) ==
      match crash
      case Never => Some(raw)
      case WritingTmp(_) => Read(disk, key, hash)
      case BeforeReplace => Read(disk, key, hash)
      case AfterReplace => if SidecarAgrees(disk, key, raw, hash) then Some(raw) else None
      case WritingSidecar(n) => if n >= 64 then Some(raw) else None
  {
    assert |hash(raw)| == 64;
  }

  /** The write is never torn: old value, new value or a miss. */
  lemma WriteIsCrashConsistent(disk: Disk, key: Key, raw: Content, crash: Crash, hash: Hash)
    requires HexDigests(hash)
    ensures Read(PutVerified(disk, key, raw, crash, hash), key, hash) in {Read(disk, key, hash), Some(raw), None}
  {
    WriteReads(disk, key, raw, crash, hash);
  }

  /** Dying between the two files of an overwrite loses the entry, it does not mix old and new. */
  lemma OverwriteWindow(disk: Disk, key: Key, was: Content, raw: Content, hash: Hash)
    requires CollisionFree(hash, {was, raw})
    ensures var before := PutVerified(disk, key, was, Never, hash);
      Read(PutVerified(before, key, raw, AfterReplace, hash), key, hash) == if raw == was then Some(was) else None
  {}

  /** Under a completed verified write, a body damaged later in any way reads as the value or a miss. */
  lemma DamageIsAMiss(disk: Disk, key: Key, raw: Content, damaged: Content, hash: Hash)
    requires CollisionFree(hash, {raw, damaged})
    ensures var after := PutVerified(disk, key, raw, Never, hash)[EntryFile(key) := Body(damaged)];
      Read(after, key, hash) == if damaged == raw then Some(raw) else None
  {}

  /** An unverified write over any disk is read back exactly when no sidecar contradicts it. */
  lemma UnverifiedReads(disk: Disk, key: Key, raw: Content, hash: Hash)
    ensures Read(Put(disk, key, raw, Never), key, hash) == Some(raw) <==> SidecarAgrees(disk, key, raw, hash)
    ensures Read(Put(disk, key, raw, Never), key, hash) in {Some(raw), None}
  {}

  // ---------------------------------------------------------------- whole runs

  datatype Write = Write(key: Key, raw: Content, crash: Crash)

  function Run(disk: Disk, writes: seq<Write>, hash: Hash): Disk {
    if writes == [] then disk else
      var w := writes[|writes| - 1];
      PutVerified(Run(disk, writes[..|writes| - 1], hash), w.key, w.raw, w.crash, hash)
  }

  /** The plain map of the same writes. */
  function Plain(writes: seq<Write>): map<Key, Content> {
    if writes == [] then map[] else
      var w := writes[|writes| - 1];
      Plain(writes[..|writes| - 1])[w.key := w.raw]
  }

  /** Values a read may return: those written to the key since its last completed write. */
  function Recent(writes: seq<Write>, key: Key): set<Content> {
    if writes == [] then {} else
      var w, before := writes[|writes| - 1], Recent(writes[..|writes| - 1], key);
      if w.key != key then before else if w.crash.Never? then {w.raw} else before + {w.raw}
  }

  /** Whether some write of the key completed. */
  predicate Completed(writes: seq<Write>, key: Key) {
    writes != [] &&
    var w := writes[|writes| - 1];
    (w.key == key && w.crash.Never?) || Completed(writes[..|writes| - 1], key)
  }

  lemma {:induction false} CompletedExactly(writes: seq<Write>, key: Key)
    ensures Completed(writes, key) <==> exists i :: 0 <= i < |writes| && writes[i].key == key && writes[i].crash.Never?
  {
    if writes != [] {
      var n := |writes| - 1;
      CompletedExactly(writes[..n], key);
      if Completed(writes[..n], key) {
        var i :| 0 <= i < n && writes[..n][i].key == key && writes[..n][i].crash.Never?;
        assert writes[i].key == key && writes[i].crash.Never?;
      }
    }
  }

  /** A value a read may return was written to the key, and no later write of the key completed. */
  lemma RecentExactly(writes: seq<Write>, key: Key, raw: Content)
    ensures raw in Recent(writes, key) <==> exists i ::
      && 0 <= i < |writes| && writes[i].key == key && writes[i].raw == raw
      && forall j | i < j < |writes| :: writes[j].key == key ==> !writes[j].crash.Never?
  {
    if raw in Recent(writes, key) { var i := RecentIsWritten(writes, key, raw); }
    if i :| 0 <= i < |writes| && writes[i].key == key && writes[i].raw == raw
            && forall j | i < j < |writes| :: writes[j].key == key ==> !writes[j].crash.Never? {
      WrittenIsRecent(writes, key, raw, i);
    }
  }

  lemma {:induction false} RecentIsWritten(writes: seq<Write>, key: Key, raw: Content) returns (i: nat)
    requires raw in Recent(writes, key)
    ensures i < |writes| && writes[i].key == key && writes[i].raw == raw
    ensures forall j | i < j < |writes| :: writes[j].key == key ==> !writes[j].crash.Never?
  {
    var n := |writes| - 1;
    if writes[n].key == key && writes[n].raw == raw { return n; }
    i := RecentIsWritten(writes[..n], key, raw);
    assert forall j | i <= j < n :: writes[..n][j] == writes[j];
  }

  lemma {:induction false} WrittenIsRecent(writes: seq<Write>, key: Key, raw: Content, i: nat)
    requires i < |writes| && writes[i].key == key && writes[i].raw == raw
    requires forall j | i < j < |writes| :: writes[j].key == key ==> !writes[j].crash.Never?
    ensures raw in Recent(writes, key)
  {
    var n := |writes| - 1;
    if i < n {
      assert forall j | i <= j < n :: writes[..n][j] == writes[j];
      WrittenIsRecent(writes[..n], key, raw, i);
    }
  }

  /** From any disk, over a whole run of writes and crashes, a read is a miss or a value written
      since the last completed write of its key, or while none has completed what was there before:
      never stale, never torn, never another key's value. */
  lemma {:induction false} RunReadsRecent(disk: Disk, writes: seq<Write>, key: Key, hash: Hash)
    requires HexDigests(hash)
    ensures var r := Read(Run(disk, writes, hash), key, hash);
            r.Some? ==> r.value in Recent(writes, key)
                        || (!Completed(writes, key) && r == Read(disk, key, hash))
  {
    if writes != [] {
      hide HexDigests, Read, PutVerified;
      var n := |writes| - 1;
      var w := writes[n];
      RunReadsRecent(disk, writes[..n], key, hash);
      var before := Run(disk, writes[..n], hash);
      if w.key == key {
        WriteIsCrashConsistent(before, key, w.raw, w.crash, hash);
        WriteReads(before, key, w.raw, w.crash, hash);
      } else {
        WriteKeepsOthers(before, w.key, w.raw, w.crash, hash, key);
      }
    }
  }

  /** The last write of the key completed. */
  predicate LastCompleted(writes: seq<Write>, key: Key) {
    if writes == [] then false else
      var w := writes[|writes| - 1];
      if w.key == key then w.crash.Never? else LastCompleted(writes[..|writes| - 1], key)
  }

  /** A key whose last write completed reads exactly as the plain map, whatever crashed before it. */
  lemma {:induction false} CompletedReadsPlain(disk: Disk, writes: seq<Write>, key: Key, hash: Hash)
    requires HexDigests(hash) && LastCompleted(writes, key)
    ensures key in Plain(writes) && Read(Run(disk, writes, hash), key, hash) == Some(Plain(writes)[key])
  {
    hide HexDigests, Read, PutVerified;
    var n := |writes| - 1;
    var w := writes[n];
    var before := Run(disk, writes[..n], hash);
    if w.key == key {
      WriteReads(before, key, w.raw, w.crash, hash);
    } else {
      CompletedReadsPlain(disk, writes[..n], key, hash);
      WriteKeepsOthers(before, w.key, w.raw, w.crash, hash, key);
    }
  }

  // ---------------------------------------------------------------- JSON entries

  /** A JSON write is atomic and is read back only under its own identity. */
  lemma JsonIsAtomic(disk: Disk, key: Key, payload: string, crash: Crash, hash: Hash)
    requires SidecarFile(key) !in disk
    ensures ReadJson(Put(disk, key, Document(key.id, payload), crash), key, hash) ==
      if crash.WritingTmp? || crash.BeforeReplace? then ReadJson(disk, key, hash) else Some(payload)
  {}

  lemma ForeignDocumentIsAMiss(disk: Disk, key: Key, identity: string, payload: string, hash: Hash)
    requires identity != key.id
    ensures ReadJson(Put(disk, key, Document(identity, payload), Never), key, hash) == None
  {}

  // ---------------------------------------------------------------- the checkpoint

  datatype Checkpoint = Checkpoint(
    identity: string, pages: int, frozen: seq<int>, failed: seq<int>, lowConfidence: seq<int>)

  /** The checkpoint file: missing, unreadable, not UTF-8, or a saved checkpoint. */
  datatype CheckpointFile = Missing | Unreadable | Undecodable | Saved(checkpoint: Checkpoint)

  predicate Ascending(a: int, b: int) { a <= b }

  function Canonical(c: Checkpoint): Checkpoint {
    Checkpoint(c.identity, c.pages, Sort(c.frozen, Ascending), Sort(c.failed, Ascending),
               Sort(c.lowConfidence, Ascending))
  }

  function Loaded(file: CheckpointFile, identity: string): Option<Checkpoint> {
    if file.Saved? && file.checkpoint.identity == identity then Some(file.checkpoint) else None
  }

  class AtlasCheckpointStore {
    var tmp: CheckpointFile
    var final: CheckpointFile

    constructor ()
      ensures final == Missing
    {
      tmp, final := Missing, Missing;
    }

    /** The file changes in one step, after the new contents are durable. */
    method Save(c: Checkpoint, crash: Crash) returns (saved: bool)
      modifies this
      ensures final == if crash.WritingTmp? || crash.BeforeReplace? then old(final) else Saved(Canonical(c))
      ensures saved ==> final == Saved(Canonical(c))
    {
      var raw := Saved(Canonical(c));
      if crash.WritingTmp? {
        tmp := Unreadable;
        return false;
      }
      tmp := raw;
      if crash.BeforeReplace? { return false; }
      final, tmp := tmp, Missing;
      saved := crash.Never?;
    }

    /** Starts fresh without a usable file of this identity; bytes that are not UTF-8 raise. */
    method Load(identity: string) returns (r: Option<Checkpoint>, raised: bool)
      ensures raised <==> final.Undecodable?
      ensures !raised ==> r == Loaded(final, identity)
    {
      if final.Undecodable? { return None, true; }
      if !final.Saved? { return None, false; }
      if final.checkpoint.identity != identity { return None, false; }
      return Some(final.checkpoint), false;
    }
  }

  /** A saved checkpoint loads under its identity only, with the same code points and counts. */
  lemma CheckpointRoundTrip(c: Checkpoint, identity: string)
    ensures var r := Loaded(Saved(Canonical(c)), identity);
      && (r.Some? <==> identity == c.identity)
      && (r.Some? ==> && r.value.pages == c.pages && multiset(r.value.frozen) == multiset(c.frozen)
                      && multiset(r.value.failed) == multiset(c.failed)
                      && multiset(r.value.lowConfidence) == multiset(c.lowConfidence))
  {
    SortPermutes(c.frozen, Ascending);
    SortPermutes(c.failed, Ascending);
    SortPermutes(c.lowConfidence, Ascending);
  }

  /** The same code points saved in any order are the same file. */
  lemma CanonicalIgnoresOrder(c: Checkpoint, d: Checkpoint)
    requires c.identity == d.identity && c.pages == d.pages && multiset(c.frozen) == multiset(d.frozen)
    requires multiset(c.failed) == multiset(d.failed) && multiset(c.lowConfidence) == multiset(d.lowConfidence)
    ensures Canonical(c) == Canonical(d)
  {
    assert TotalPreorder(Ascending);
    SortIgnoresOrder(c.frozen, d.frozen, Ascending);
    SortIgnoresOrder(c.failed, d.failed, Ascending);
    SortIgnoresOrder(c.lowConfidence, d.lowConfidence, Ascending);
  }
}
