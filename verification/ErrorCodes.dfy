/** The texts of known errors and the bounded codes that a failure report may carry. */
module ErrorCodes {
  import opened JobBuild
  import opened JobPublication
  import opened JobSafety

  const UNEXPECTED := "UNEXPECTED_RUNTIME_ERROR"

  const KNOWN_CODES: set<string> := TERMINAL_CODES + {
    FENCED_CODE, "MISSING_SOURCE_PAYLOAD", "FINAL_FONT_ARCHIVE_WRITE_FAILED", "NO_OBSERVABLE_BROWSER_FONT_FACES"}

  /** Texts that carry a detail after a known prefix, with the code they are reported under. */
  const KNOWN_PREFIXES: seq<(string, string)> := [
    ("STYLE_MISSING_IN_SOURCE_", "STYLE_MISSING_IN_SOURCE"),
    ("GENERATED_FONT_INVALID_", "GENERATED_FONT_INVALID"),
    ("SOURCE_HTTP_ERROR_", "SOURCE_HTTP_ERROR"),
    ("MALFORMED_SOURCE_INPUT_", "MALFORMED_SOURCE_INPUT"),
    ("MALFORMED_GLYPH_DATA:", "MALFORMED_GLYPH_DATA"),
    ("NO_OBSERVABLE_GLYPHS_FOR_", "NO_OBSERVABLE_GLYPHS"),
    ("NO_MAX_RECONSTRUCTION_FOR_", "NO_MAX_RECONSTRUCTION"),
    ("NO_MAX_STYLES_COMPILED_FOR_", "NO_MAX_STYLES_COMPILED"),
    ("NO_MAX_OBSERVATIONS_FOUND_FOR_", "NO_MAX_OBSERVATIONS_FOUND"),
    ("NO_MAX_RECONSTRUCTED_GLYPHS_AVAILABLE_FOR_", "NO_MAX_RECONSTRUCTED_GLYPHS_AVAILABLE"),
    ("COMPLETED_MAX_COLLECTION_HAS_NO_COVERAGE_", "COMPLETED_MAX_COLLECTION_HAS_NO_COVERAGE"),
    ("FAILED_BUILDING_FORMAT_", "FAILED_BUILDING_FORMAT"),
    ("UNSUPPORTED_ARCHIVE_FORMAT:", "UNSUPPORTED_ARCHIVE_FORMAT"),
    ("UNSUPPORTED_ARCHIVE_MODE:", "UNSUPPORTED_ARCHIVE_MODE"),
    ("UNSUPPORTED_FORMAT:", "UNSUPPORTED_FORMAT"),
    ("EMPTY_ARCHIVE_IDENTITY_", "EMPTY_ARCHIVE_IDENTITY"),
    ("ARTIFACT_PART_EXCEEDS_CAP:", "ARTIFACT_PART_EXCEEDS_CAP"),
    ("STAGE9D_GATE_FAILED_", "STAGE9D_GATE_FAILED"),
    ("ACQUISITION_BINARY_INTEGRITY_FAILED:", "ACQUISITION_BINARY_INTEGRITY_FAILED"),
    ("VI_", "VIETNAMESE_EXTENSION_FAILED")]

  method SafeErrorCode(raw: string) returns (code: string)
    ensures code == SafeCode(raw)
  {
    if raw in KNOWN_CODES { return raw; }
    for i := 0 to |KNOWN_PREFIXES|
      invariant Matched(raw, KNOWN_PREFIXES) == Matched(raw, KNOWN_PREFIXES[i..])
    {
      MatchedFrom(raw, KNOWN_PREFIXES, i);
      if KNOWN_PREFIXES[i].0 <= raw { return KNOWN_PREFIXES[i].1; }
    }
    code := UNEXPECTED;
  }

  /** The code of the first prefix that matches. */
  function Matched(raw: string, prefixes: seq<(string, string)>): string {
    if prefixes == [] then "UNEXPECTED_RUNTIME_ERROR"
    else if prefixes[0].0 <= raw then prefixes[0].1
    else Matched(raw, prefixes[1..])
  }

  lemma MatchedFrom(raw: string, prefixes: seq<(string, string)>, i: nat)
    requires i < |prefixes|
    ensures Matched(raw, prefixes[i..])
         == if prefixes[i].0 <= raw then prefixes[i].1 else Matched(raw, prefixes[i + 1..])
  {
    assert prefixes[i..][0] == prefixes[i] && prefixes[i..][1..] == prefixes[i + 1..];
  }

  function SafeCode(raw: string): string { if raw in KNOWN_CODES then raw else Matched(raw, KNOWN_PREFIXES) }

  // ---------------------------------------------------------------- what may be reported

  lemma {:induction false} MatchedIsListed(raw: string, prefixes: seq<(string, string)>)
    ensures Matched(raw, prefixes) == "UNEXPECTED_RUNTIME_ERROR"
            || exists i :: 0 <= i < |prefixes| && prefixes[i].0 <= raw && prefixes[i].1 == Matched(raw, prefixes)
  {
    if prefixes != [] && !(prefixes[0].0 <= raw) { MatchedIsListed(raw, prefixes[1..]); }
  }

  /** No text of an error reaches a report: the code is a known one, whatever was raised. */
  lemma CodeIsBounded(raw: string)
    ensures var code := SafeCode(raw);
      || code == "UNEXPECTED_RUNTIME_ERROR" || code in KNOWN_CODES
      || exists i :: 0 <= i < |KNOWN_PREFIXES| && code == KNOWN_PREFIXES[i].1
  {
    MatchedIsListed(raw, KNOWN_PREFIXES);
  }

  lemma {:induction false} MatchedFirst(raw: string, prefixes: seq<(string, string)>, i: nat)
    requires i < |prefixes| && prefixes[i].0 <= raw && forall j | 0 <= j < i :: !(prefixes[j].0 <= raw)
    ensures Matched(raw, prefixes) == prefixes[i].1
  {
    if i > 0 { MatchedFirst(raw, prefixes[1..], i - 1); }
  }

  /** The texts the runner raises are reported under the codes the build is stopped with. */
  lemma RunnerTexts(detail: string)
    ensures SafeCode("STYLE_MISSING_IN_SOURCE_" + detail) == CodeOf(NO_STYLE)
    ensures SafeCode("GENERATED_FONT_INVALID_" + detail) == CodeOf(INVALID)
    ensures SafeCode("MISSING_SOURCE_PAYLOAD") == CodeOf(NO_SOURCE)
    ensures SafeCode("FINAL_FONT_ARCHIVE_WRITE_FAILED") == CodeOf(ARCHIVE_FAILED)
    ensures SafeCode("NO_FILES_GENERATED") == CodeOf(NO_FILES)
    ensures SafeCode("LEASE_FENCED_OR_EXPIRED") == CodeOf(FencedOrExpired)
    ensures SafeCode("FAST30_FAILED") == CodeOf(WallExceeded)
  {
    StyleText(detail);
    FontText(detail);
  }

  lemma StyleText(detail: string)
    ensures SafeCode("STYLE_MISSING_IN_SOURCE_" + detail) == "STYLE_MISSING_IN_SOURCE"
  {
    var raw := "STYLE_MISSING_IN_SOURCE_" + detail;
    assert raw !in KNOWN_CODES by { LongText("STYLE_MISSING_IN_SOURCE_", detail); }
    MatchedFirst(raw, KNOWN_PREFIXES, 0);
  }

  lemma FontText(detail: string)
    ensures SafeCode("GENERATED_FONT_INVALID_" + detail) == "GENERATED_FONT_INVALID"
  {
    var raw := "GENERATED_FONT_INVALID_" + detail;
    assert raw !in KNOWN_CODES by { LongText("GENERATED_FONT_INVALID_", detail); }
    assert raw[0] == 'G';
    MatchedFirst(raw, KNOWN_PREFIXES, 1);
  }

  /** No known code starts like these texts. */
  lemma LongText(prefix: string, detail: string)
    requires prefix == "STYLE_MISSING_IN_SOURCE_" || prefix == "GENERATED_FONT_INVALID_"
    ensures prefix + detail !in KNOWN_CODES
  {
    NotTerminal(prefix, detail);
    var raw := prefix + detail;
    assert raw[0] == prefix[0] && raw[1] == prefix[1] && raw[2] == prefix[2];
  }

  lemma NotTerminal(prefix: string, detail: string)
    requires prefix == "STYLE_MISSING_IN_SOURCE_" || prefix == "GENERATED_FONT_INVALID_"
    ensures prefix + detail !in TERMINAL_CODES
  {
    var raw := prefix + detail;
    assert raw[0] == prefix[0] && raw[1] == prefix[1] && raw[2] == prefix[2];
  }

  /** The report of an error is retryable exactly when its code is none of the eighteen. */
  lemma RaisedTextIsReported(env: Env, job: Job, gated: bool, cached: Option<seq<string>>, from: nat, raw: string)
    requires Work(env, job, gated, cached, from).result == Raised(Failure(SafeCode(raw)))
    requires raw != "LEASE_FENCED_OR_EXPIRED"
    ensures FailSent(job.token, !Hopeless(SafeCode(raw)), SafeCode(raw))
            in JobOutcome(env, job, gated, cached, from).sent
  {
    OnlyFenceIsFence(raw);
    FailureIsReported(env, job, gated, cached, from, SafeCode(raw));
  }

  lemma OnlyFenceIsFence(raw: string)
    ensures SafeCode(raw) == "LEASE_FENCED_OR_EXPIRED" <==> raw == "LEASE_FENCED_OR_EXPIRED"
  {
    PrefixesKeepFence();
    MatchedIsListed(raw, KNOWN_PREFIXES);
    assert "UNEXPECTED_RUNTIME_ERROR"[0] == 'U';
  }

  lemma PrefixesKeepFence()
    ensures forall i | 0 <= i < |KNOWN_PREFIXES| :: KNOWN_PREFIXES[i].1 != "LEASE_FENCED_OR_EXPIRED"
  {
    assert forall i | 0 <= i < |KNOWN_PREFIXES| :: KNOWN_PREFIXES[i].1[0] != 'L';
  }
}
