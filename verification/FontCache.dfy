/** The exact font cache: two verified fonts and a report written one after the other, and the
    probe that serves them together. */
module FontCache {
  import opened AtlasCache

  /** What one finished build leaves behind. */
  datatype Fonts = Fonts(ttf: Content, otf: Content, report: string)

  /** Where the process dies in each of the three writes; a write after a death does not happen. */
  datatype Deaths = Deaths(ttf: Crash, otf: Crash, report: Crash)

  function TtfKey(id: string): Key { Key("fonts", id + "_ttf", "ttf") }

  function OtfKey(id: string): Key { Key("fonts", id + "_otf", "otf") }

  function ReportKey(id: string): Key { Key("reports", id, "json") }

  /** The disk after remembering the fonts, as far as the process lived. */
  function Remembered(disk: Disk, id: string, fonts: Fonts, died: Deaths, hash: Hash): Disk {
    var d1 := PutVerified(disk, TtfKey(id), fonts.ttf, died.ttf, hash);
    if !died.ttf.Never? then d1 else
    var d2 := PutVerified(d1, OtfKey(id), fonts.otf, died.otf, hash);
    if !died.otf.Never? then d2 else Put(d2, ReportKey(id), Document(id, fonts.report), died.report)
  }

  /** What the probe serves: all three or nothing. */
  function Probed(disk: Disk, id: string, hash: Hash): Option<Fonts> {
    var (t, o, r) :=
      (Read(disk, TtfKey(id), hash), Read(disk, OtfKey(id), hash), ReadJson(disk, ReportKey(id), hash));
    if t.None? || o.None? || r.None? then None else Some(Fonts(t.value, o.value, r.value))
  }

  method Remember(store: AtlasCacheStore, id: string, fonts: Fonts, died: Deaths)
    modifies store
    ensures store.files == Remembered(old(store.files), id, fonts, died, store.hash)
  {
    hide PutVerified, Put;
    var outcome := store.PutBytesVerified(TtfKey(id), fonts.ttf, died.ttf);
    if outcome != Stored { return; }
    outcome := store.PutBytesVerified(OtfKey(id), fonts.otf, died.otf);
    if outcome != Stored { return; }
    outcome := store.PutJson(ReportKey(id), fonts.report, died.report);
  }

  method Probe(store: AtlasCacheStore, id: string) returns (r: Option<Fonts>)
    ensures r == Probed(store.files, id, store.hash)
  {
    hide Read;
    var ttf := store.GetBytes(TtfKey(id));
    var otf := store.GetBytes(OtfKey(id));
    var report := store.GetJson(ReportKey(id));
    if ttf.None? || otf.None? || report.None? { return None; }
    r := Some(Fonts(ttf.value, otf.value, report.value));
  }

  /** A build remembered to the end is in three entries of its identity, and is served. */
  lemma RememberedIsServed(disk: Disk, id: string, fonts: Fonts, hash: Hash)
    requires HexDigests(hash) && SidecarFile(Key("reports", id, "json")) !in disk
    ensures var after := Remembered(disk, id, fonts, Deaths(Never, Never, Never), hash);
      && Read(after, Key("fonts", id + "_ttf", "ttf"), hash) == Some(fonts.ttf)
      && Read(after, Key("fonts", id + "_otf", "otf"), hash) == Some(fonts.otf)
      && ReadJson(after, Key("reports", id, "json"), hash) == Some(fonts.report)
      && Probed(after, id, hash) == Some(fonts)
  {}

  // ---------------------------------------------------------------- what a probe can see

  /** Whether a death leaves the new body in place of the old one, and readable. */
  predicate Lands(disk: Disk, key: Key, raw: Content, died: Crash, hash: Hash) {
    match died
    case Never => true
    case WritingTmp(_) => false
    case BeforeReplace => false
    case AfterReplace => SidecarAgrees(disk, key, raw, hash)
    case WritingSidecar(n) => n >= 64
  }

  predicate Replaces(died: Crash) { !died.WritingTmp? && !died.BeforeReplace? }

  /** A verified write shows the new value, the old one, or nothing. */
  lemma VerifiedShows(disk: Disk, key: Key, raw: Content, died: Crash, hash: Hash)
    requires HexDigests(hash)
    ensures Read(PutVerified(disk, key, raw, died, hash), key, hash)
         == if Lands(disk, key, raw, died, hash) then Some(raw)
            else if Replaces(died) then None else Read(disk, key, hash)
  {
    hide Read, PutVerified, HexDigests;
    WriteReads(disk, key, raw, died, hash);
  }

  lemma ReportShows(disk: Disk, id: string, report: string, died: Crash, hash: Hash)
    ensures var key := ReportKey(id);
            ReadJson(Put(disk, key, Document(id, report), died), key, hash)
            == if !Replaces(died) then ReadJson(disk, key, hash)
               else if SidecarAgrees(disk, key, Document(id, report), hash) then Some(report) else None
  {}

  lemma JsonKeepsOthers(disk: Disk, key: Key, raw: Content, died: Crash, hash: Hash, other: Key)
    requires other != key
    ensures ReadJson(PutVerified(disk, key, raw, died, hash), other, hash) == ReadJson(disk, other, hash)
    ensures SidecarAgrees(PutVerified(disk, key, raw, died, hash), other, raw, hash)
         == SidecarAgrees(disk, other, raw, hash)
  {}

  /** The three parts of a probe after a build that may have died. */
  lemma RememberedShows(disk: Disk, id: string, fonts: Fonts, died: Deaths, hash: Hash)
    requires HexDigests(hash)
    ensures var after := Remembered(disk, id, fonts, died, hash);
            var d1 := PutVerified(disk, TtfKey(id), fonts.ttf, died.ttf, hash);
            var d2 := PutVerified(d1, OtfKey(id), fonts.otf, died.otf, hash);
            && Read(after, TtfKey(id), hash) == Read(d1, TtfKey(id), hash)
            && Read(after, OtfKey(id), hash)
               == (if died.ttf.Never? then Read(d2, OtfKey(id), hash) else Read(disk, OtfKey(id), hash))
            && ReadJson(after, ReportKey(id), hash)
               == if died.ttf.Never? && died.otf.Never?
                  then ReadJson(Put(d2, ReportKey(id), Document(id, fonts.report), died.report), ReportKey(id), hash)
                  else ReadJson(disk, ReportKey(id), hash)
  {
    hide Read, PutVerified, Put, ReadJson, HexDigests, SidecarAgrees;
    var d1 := PutVerified(disk, TtfKey(id), fonts.ttf, died.ttf, hash);
    var d2 := PutVerified(d1, OtfKey(id), fonts.otf, died.otf, hash);
    var doc := Document(id, fonts.report);
    WriteKeepsOthers(disk, TtfKey(id), fonts.ttf, died.ttf, hash, OtfKey(id));
    JsonKeepsOthers(disk, TtfKey(id), fonts.ttf, died.ttf, hash, ReportKey(id));
    WriteKeepsOthers(d1, OtfKey(id), fonts.otf, died.otf, hash, TtfKey(id));
    JsonKeepsOthers(d1, OtfKey(id), fonts.otf, died.otf, hash, ReportKey(id));
    WriteKeepsOthers(d2, ReportKey(id), doc, died.report, hash, TtfKey(id));
    WriteKeepsOthers(d2, ReportKey(id), doc, died.report, hash, OtfKey(id));
  }

  /** Where no report is readable before, a build that died or not is served as a whole or not at
      all, and a build that lived is served unless a foreign sidecar lies beside its report. */
  lemma FirstBuildIsWhole(disk: Disk, id: string, fonts: Fonts, died: Deaths, hash: Hash)
    requires HexDigests(hash) && ReadJson(disk, ReportKey(id), hash).None?
    ensures Probed(Remembered(disk, id, fonts, died, hash), id, hash) in {None, Some(fonts)}
    ensures died == Deaths(Never, Never, Never) && SidecarFile(ReportKey(id)) !in disk
            ==> Probed(Remembered(disk, id, fonts, died, hash), id, hash) == Some(fonts)
  {
    hide Read, PutVerified, Put, ReadJson, HexDigests, SidecarAgrees, Remembered;
    var d1 := PutVerified(disk, TtfKey(id), fonts.ttf, died.ttf, hash);
    var d2 := PutVerified(d1, OtfKey(id), fonts.otf, died.otf, hash);
    RememberedShows(disk, id, fonts, died, hash);
    VerifiedShows(disk, TtfKey(id), fonts.ttf, died.ttf, hash);
    VerifiedShows(d1, OtfKey(id), fonts.otf, died.otf, hash);
    JsonKeepsOthers(disk, TtfKey(id), fonts.ttf, died.ttf, hash, ReportKey(id));
    JsonKeepsOthers(d1, OtfKey(id), fonts.otf, died.otf, hash, ReportKey(id));
    ReportShows(d2, id, fonts.report, died.report, hash);
    NoSidecar(disk, id, fonts, died, hash);
  }

  lemma NoSidecar(disk: Disk, id: string, fonts: Fonts, died: Deaths, hash: Hash)
    ensures var d1 := PutVerified(disk, TtfKey(id), fonts.ttf, died.ttf, hash);
            var d2 := PutVerified(d1, OtfKey(id), fonts.otf, died.otf, hash);
            SidecarFile(ReportKey(id)) !in disk ==> SidecarAgrees(d2, ReportKey(id), Document(id, fonts.report), hash)
  {}

  /** The probe never serves parts of two builds. */
  ghost predicate NeverMixes(disk: Disk, id: string, was: Fonts, fonts: Fonts, hash: Hash) {
    forall died :: Probed(Remembered(disk, id, fonts, died, hash), id, hash) in {None, Some(was), Some(fonts)}
  }

  predicate TwoKept(a: Fonts, b: Fonts) {
    (a.ttf == b.ttf && a.otf == b.otf) || (a.ttf == b.ttf && a.report == b.report)
    || (a.otf == b.otf && a.report == b.report)
  }

  /** A build remembered over another is never mixed with it, wherever it dies, exactly when at
      least two of the three parts are the same in both. */
  lemma NeverMixesExactly(disk: Disk, id: string, was: Fonts, fonts: Fonts, hash: Hash)
    requires HexDigests(hash) && Probed(disk, id, hash) == Some(was)
    ensures NeverMixes(disk, id, was, fonts, hash) <==> TwoKept(was, fonts)
  {
    hide Remembered, HexDigests;
    if TwoKept(was, fonts) {
      forall died
        ensures Probed(Remembered(disk, id, fonts, died, hash), id, hash) in {None, Some(was), Some(fonts)}
      {
        MixOfTwo(disk, id, was, fonts, died, hash);
      }
    } else {
      var died := if fonts.ttf != was.ttf && (fonts.otf != was.otf || fonts.report != was.report)
                  then Deaths(Never, BeforeReplace, Never) else Deaths(Never, Never, BeforeReplace);
      DiedEarly(disk, id, was, fonts, died, hash);
    }
  }

  /** Wherever it dies, the parts served are new up to some point and old after it. */
  lemma MixOfTwo(disk: Disk, id: string, was: Fonts, fonts: Fonts, died: Deaths, hash: Hash)
    requires HexDigests(hash) && Probed(disk, id, hash) == Some(was)
    ensures Probed(Remembered(disk, id, fonts, died, hash), id, hash)
         in {None, Some(was), Some(Fonts(fonts.ttf, was.otf, was.report)),
             Some(Fonts(fonts.ttf, fonts.otf, was.report)), Some(fonts)}
  {
    hide Read, PutVerified, Put, ReadJson, HexDigests, SidecarAgrees, Remembered;
    var d1 := PutVerified(disk, TtfKey(id), fonts.ttf, died.ttf, hash);
    var d2 := PutVerified(d1, OtfKey(id), fonts.otf, died.otf, hash);
    RememberedShows(disk, id, fonts, died, hash);
    VerifiedShows(disk, TtfKey(id), fonts.ttf, died.ttf, hash);
    VerifiedShows(d1, OtfKey(id), fonts.otf, died.otf, hash);
    WriteKeepsOthers(disk, TtfKey(id), fonts.ttf, died.ttf, hash, OtfKey(id));
    JsonKeepsOthers(disk, TtfKey(id), fonts.ttf, died.ttf, hash, ReportKey(id));
    JsonKeepsOthers(d1, OtfKey(id), fonts.otf, died.otf, hash, ReportKey(id));
    ReportShows(d2, id, fonts.report, died.report, hash);
  }

  /** Dying in the second or third write serves the new parts written so far with the old rest. */
  lemma DiedEarly(disk: Disk, id: string, was: Fonts, fonts: Fonts, died: Deaths, hash: Hash)
    requires HexDigests(hash) && Probed(disk, id, hash) == Some(was) && died.ttf.Never?
    requires died.otf.BeforeReplace? || (died.otf.Never? && died.report.BeforeReplace?)
    ensures Probed(Remembered(disk, id, fonts, died, hash), id, hash)
         == Some(Fonts(fonts.ttf, if died.otf.Never? then fonts.otf else was.otf, was.report))
  {
    hide Read, PutVerified, Put, ReadJson, HexDigests, SidecarAgrees, Remembered;
    var d1 := PutVerified(disk, TtfKey(id), fonts.ttf, died.ttf, hash);
    var d2 := PutVerified(d1, OtfKey(id), fonts.otf, died.otf, hash);
    RememberedShows(disk, id, fonts, died, hash);
    VerifiedShows(disk, TtfKey(id), fonts.ttf, died.ttf, hash);
    VerifiedShows(d1, OtfKey(id), fonts.otf, died.otf, hash);
    WriteKeepsOthers(disk, TtfKey(id), fonts.ttf, died.ttf, hash, OtfKey(id));
    JsonKeepsOthers(disk, TtfKey(id), fonts.ttf, died.ttf, hash, ReportKey(id));
    JsonKeepsOthers(d1, OtfKey(id), fonts.otf, died.otf, hash, ReportKey(id));
    ReportShows(d2, id, fonts.report, died.report, hash);
  }
}
