/** What a whole job sends: when it completes, when its message is acknowledged, and what is reported. */
module JobSafety {
  import opened JobBuild
  import opened JobArchive
  import opened JobPublication

  ghost predicate Completing(sent: seq<Event>) { exists i :: 0 <= i < |sent| && sent[i].CompleteSent? }

  ghost predicate Acking(sent: seq<Event>) { exists i :: 0 <= i < |sent| && sent[i].AckSent? }

  ghost predicate Failing(sent: seq<Event>) { exists i :: 0 <= i < |sent| && sent[i].FailSent? }

  /** Every check up to the completion passes and every part is uploaded. */
  ghost predicate AllUpload(env: Env, n: nat, from: nat) {
    && env.guard(from).None? && env.guard(from + 1 + n).None?
    && forall i: nat | i < n :: PartUploads(env, i, from)
  }

  /** The parts before this one upload, and this one is answered with a plain failure. */
  ghost predicate RefusedAt(env: Env, i: nat, from: nat) {
    && env.guard(from).None? && (forall k: nat | k < i :: PartUploads(env, k, from))
    && env.guard(from + 1 + i).None? && env.upload(i) == Got(UploadFailed)
  }

  ghost predicate UploadRefused(env: Env, n: nat, from: nat) { exists i: nat :: i < n && RefusedAt(env, i, from) }

  /** The only failure reports are about a refused upload. */
  ghost predicate OnlyUploadReports(sent: seq<Event>, token: string) {
    forall i | 0 <= i < |sent| && sent[i].FailSent? :: sent[i] == FailSent(token, true, UPLOAD_FAILED)
  }

  predicate EndsWith(sent: seq<Event>, e: Event) { sent != [] && sent[|sent| - 1] == e }

  /** The Worker's answer to the completion lets the message go. */
  predicate SettledByAnswer(env: Env) { env.complete == Got(Completed) || env.complete == Got(Refused(true)) }

  // ---------------------------------------------------------------- sequences of events

  lemma JoinSent(a: seq<Event>, b: seq<Event>)
    ensures Completing(a + b) <==> Completing(a) || Completing(b)
    ensures Acking(a + b) <==> Acking(a) || Acking(b)
    ensures Failing(a + b) <==> Failing(a) || Failing(b)
  {
    assert forall i | 0 <= i < |a| :: (a + b)[i] == a[i];
    assert forall i | 0 <= i < |b| :: (a + b)[|a| + i] == b[i];
  }

  lemma OneSent(e: Event)
    ensures Completing([e]) <==> e.CompleteSent?
    ensures Acking([e]) <==> e.AckSent?
    ensures Failing([e]) <==> e.FailSent?
    ensures !Completing([]) && !Acking([]) && !Failing([])
  {
    assert [e][0] == e;
  }

  lemma UploadsOnly(records: seq<Record>, token: string)
    ensures var s := UploadsOf(records, token); !Completing(s) && !Acking(s) && !Failing(s)
  {}

  lemma {:induction false} UploadCountExact(env: Env, n: nat, from: nat)
    ensures var m := UploadCount(env, n, from);
      (forall i: nat | i < m :: PartUploads(env, i, from)) && (m < n ==> !PartUploads(env, m, from))
  {
    if n > 0 { UploadCountExact(env, n - 1, from); }
  }

  // ---------------------------------------------------------------- publication

  lemma AfterCompletionSends(env: Env)
    ensures var s := AfterCompletion(env).sent;
      !Completing(s) && !Failing(s) && (Acking(s) <==> SettledByAnswer(env))
  {
    OneSent(AckSent);
    OneSent(RetrySent);
  }

  lemma StoppedUploadSends(env: Env, token: string, m: nat, from: nat)
    requires !PartUploads(env, m, from)
    ensures var s := StoppedUpload(env, token, m, from).sent;
      && !Completing(s) && !Acking(s)
      && (Failing(s) <==> env.guard(from + 1 + m).None? && env.upload(m) == Got(UploadFailed))
      && OnlyUploadReports(s, token)
      && FailCount(s) == if Failing(s) then 1 else 0
  {
    var report := FailSent(token, true, UPLOAD_FAILED);
    OneSent(report);
    OneSent(RetrySent);
    JoinSent([report], [RetrySent]);
    assert [report] + [RetrySent] == [report, RetrySent] && [report, RetrySent][..1] == [report] && [report][..0] == [];
    assert FailCount([]) == 0 && FailCount([report]) == 1 && FailCount([report, RetrySent]) == 1;
  }

  /** The uploads, the completion, the settlement. */
  function Published(env: Env, token: string, parts: seq<Part>): Outcome
    requires parts != []
  {
    var records := RecordsUpTo(env, parts, |parts|);
    Then(UploadsOf(records, token), Then([Completion(records, token)], AfterCompletion(env)))
  }

  lemma PublishedWhole(env: Env, token: string, parts: seq<Part>, from: nat)
    requires parts != [] && AllUpload(env, |parts|, from)
    ensures PublishOutcome(env, token, parts, from) == Published(env, token, parts)
  {
    hide PartUploads, AfterCompletion;
    UploadCountExact(env, |parts|, from);
  }

  lemma PublishedSends(env: Env, token: string, parts: seq<Part>)
    requires parts != []
    ensures var s := Published(env, token, parts).sent;
      && Completing(s) && (Acking(s) <==> SettledByAnswer(env)) && !Failing(s)
      && FailCount(s) == 0 && OnlyUploadReports(s, token)
  {
    hide Completing, Acking, FailCount, AfterCompletion, RecordsUpTo, UploadsOf;
    var records := RecordsUpTo(env, parts, |parts|);
    var uploads, tail := UploadsOf(records, token), AfterCompletion(env).sent;
    UploadsOnly(records, token);
    OneSent(Completion(records, token));
    AfterCompletionSends(env);
    JoinSent([Completion(records, token)], tail);
    JoinSent(uploads, [Completion(records, token)] + tail);
    NoFailNoCount(uploads + ([Completion(records, token)] + tail));
  }

  lemma AllUploadIsNoRefusal(env: Env, n: nat, from: nat)
    requires AllUpload(env, n, from)
    ensures !UploadRefused(env, n, from)
  {
    forall i: nat | i < n
      ensures !RefusedAt(env, i, from)
    {
      assert PartUploads(env, i, from);
    }
  }

  lemma RefusedIsFirst(env: Env, n: nat, from: nat)
    ensures var m := UploadCount(env, n, from);
      env.guard(from).None? ==>
        (UploadRefused(env, n, from) <==> m < n && env.guard(from + 1 + m).None? && env.upload(m) == Got(UploadFailed))
  {
    var m := UploadCount(env, n, from);
    UploadCountExact(env, n, from);
    forall i: nat | i < n && RefusedAt(env, i, from)
      ensures i == m
    {
      assert !PartUploads(env, i, from);
    }
    if env.guard(from).None? && m < n && env.guard(from + 1 + m).None? && env.upload(m) == Got(UploadFailed) {
      assert RefusedAt(env, m, from);
    }
  }

  lemma PublishedPartly(env: Env, token: string, parts: seq<Part>, from: nat)
    requires parts != [] && !AllUpload(env, |parts|, from)
    ensures var s := PublishOutcome(env, token, parts, from).sent;
      && !Completing(s) && !Acking(s)
      && (Failing(s) <==> UploadRefused(env, |parts|, from))
      && OnlyUploadReports(s, token) && FailCount(s) == if Failing(s) then 1 else 0
  {
    hide Completing, Acking, FailCount, UploadRefused, StoppedUpload, OnlyUploadReports, RecordsUpTo, UploadsOf;
    var n, m := |parts|, UploadCount(env, |parts|, from);
    OneSent(AckSent);
    NothingReported(token);
    UploadCountExact(env, n, from);
    RefusedIsFirst(env, n, from);
    if env.guard(from).Some? {
      NoRefusal(env, n, from);
    } else {
      var records := RecordsUpTo(env, parts, m);
      var uploads := UploadsOf(records, token);
      UploadsOnly(records, token);
      NoFailNoCount(uploads);
      if m < n {
        StoppedUploadSends(env, token, m, from);
        var tail := StoppedUpload(env, token, m, from).sent;
        JoinSent(uploads, tail);
        CountJoined(uploads, tail);
        JoinedReports(uploads, tail, token);
      } else {
        assert env.guard(from + 1 + n).Some?;
        JoinedReports(uploads, [], token);
        assert uploads + [] == uploads;
      }
    }
  }

  lemma NothingReported(token: string)
    ensures FailCount([]) == 0 && OnlyUploadReports([], token)
  {}

  lemma NoRefusal(env: Env, n: nat, from: nat)
    requires env.guard(from).Some?
    ensures !UploadRefused(env, n, from)
  {}

  lemma JoinedReports(a: seq<Event>, b: seq<Event>, token: string)
    requires !Failing(a) && OnlyUploadReports(b, token)
    ensures OnlyUploadReports(a + b, token)
  {
    assert forall i | 0 <= i < |a| :: !a[i].FailSent?;
  }

  lemma {:induction false} CountJoined(a: seq<Event>, b: seq<Event>)
    ensures FailCount(a + b) == FailCount(a) + FailCount(b)
  {
    if b == [] {
      assert a + b == a;
    } else {
      CountJoined(a, b[..|b| - 1]);
      assert (a + b)[..|a + b| - 1] == a + b[..|b| - 1];
    }
  }

  lemma {:induction false} NoFailNoCount(s: seq<Event>)
    requires !Failing(s)
    ensures FailCount(s) == 0
  {
    if s != [] {
      var n := |s| - 1;
      assert s == s[..n] + [s[n]] && !s[n].FailSent?;
      JoinSent(s[..n], [s[n]]);
      NoFailNoCount(s[..n]);
    }
  }

  // ---------------------------------------------------------------- the whole job

  ghost predicate Publishes(env: Env, job: Job, gated: bool, cached: Option<seq<string>>, from: nat) {
    var built := BuildResult(env, job, gated, cached, from);
    built.Got? && AllUpload(env, |PartsOf(built.value)|, from + ChecksToPack(job, cached) + 2)
  }

  ghost predicate Refuses(env: Env, job: Job, gated: bool, cached: Option<seq<string>>, from: nat) {
    var built := BuildResult(env, job, gated, cached, from);
    built.Got? && UploadRefused(env, |PartsOf(built.value)|, from + ChecksToPack(job, cached) + 2)
  }

  /** The stop that is reported: whatever raised, other than the fence. */
  predicate Reports(work: Outcome) { work.result.Raised? && CodeOf(work.result.stop) != FENCED_CODE }

  function BuiltParts(env: Env, job: Job, gated: bool, cached: Option<seq<string>>, from: nat): (r: seq<Part>)
    requires BuildResult(env, job, gated, cached, from).Got?
    ensures r != []
  {
    PartsOf(BuildResult(env, job, gated, cached, from).value)
  }

  /** Work that publishes is the published form; other work sends no completion. */
  lemma WorkPublishes(env: Env, job: Job, gated: bool, cached: Option<seq<string>>, from: nat)
    requires Publishes(env, job, gated, cached, from)
    ensures BuildResult(env, job, gated, cached, from).Got?
    ensures Work(env, job, gated, cached, from) == Published(env, job.token, BuiltParts(env, job, gated, cached, from))
    ensures !Refuses(env, job, gated, cached, from)
  {
    hide BuildResult, PublishOutcome, Published, AllUpload, UploadRefused;
    var parts, at := BuiltParts(env, job, gated, cached, from), from + ChecksToPack(job, cached) + 2;
    PublishedWhole(env, job.token, parts, at);
    AllUploadIsNoRefusal(env, |parts|, at);
  }

  lemma WorkSends(env: Env, job: Job, gated: bool, cached: Option<seq<string>>, from: nat)
    ensures var s := Work(env, job, gated, cached, from).sent;
      && (Completing(s) <==> Publishes(env, job, gated, cached, from))
      && (Acking(s) <==> Publishes(env, job, gated, cached, from) && SettledByAnswer(env))
      && (Failing(s) <==> Refuses(env, job, gated, cached, from))
      && OnlyUploadReports(s, job.token) && FailCount(s) == if Failing(s) then 1 else 0
  {
    hide BuildResult, PublishOutcome, Completing, Acking, Failing, AllUpload, UploadRefused, FailCount, SettledByAnswer;
    hide OnlyUploadReports, Published;
    OneSent(AckSent);
    NothingReported(job.token);
    if Publishes(env, job, gated, cached, from) {
      WorkPublishes(env, job, gated, cached, from);
      PublishedSends(env, job.token, BuiltParts(env, job, gated, cached, from));
    } else if BuildResult(env, job, gated, cached, from).Got? {
      PublishedPartly(env, job.token, BuiltParts(env, job, gated, cached, from), from + ChecksToPack(job, cached) + 2);
    }
  }

  /** A completion is sent exactly when the build succeeds, every check after it passes and every
      part uploads; a failure report never sends one. */
  lemma CompletesExactly(env: Env, job: Job, gated: bool, cached: Option<seq<string>>, from: nat)
    ensures Completing(JobOutcome(env, job, gated, cached, from).sent) <==> Publishes(env, job, gated, cached, from)
  {
    var work := Work(env, job, gated, cached, from);
    WorkSends(env, job, gated, cached, from);
    ReportedSends(env, job.token, work);
    hide Work, Reported, Publishes, Refuses, Completing, Acking, Failing, FailCount, OnlyUploadReports;
  }

  /** On the gated path: exactly when every pair passes, every deferred write and packaging succeed,
      and everything uploads; then all attested fonts are archived. */
  lemma GatedCompletesExactly(env: Env, job: Job, from: nat)
    ensures var pairs := Pairs(job.styles, job.formats);
      Completing(JobOutcome(env, job, true, None, from).sent) <==>
        && GatedBuilds(env, job, from)
        && AllUpload(env, |PartsOf(env.package(FilesOf(env, pairs)).value)|, from + |pairs| + 2)
    ensures Completing(JobOutcome(env, job, true, None, from).sent) ==>
      ArchivedBy(env, job, true, None, from) == Attested(env, Pairs(job.styles, job.formats))
  {
    CompletesExactly(env, job, true, None, from);
    GatedBuildsExactly(env, job, from);
    hide BuildResult, AllUpload, JobOutcome, ArchivedBy;
  }

  /** On the ungated path: exactly when every pair builds, packaging succeeds and everything uploads. */
  lemma UngatedCompletesExactly(env: Env, job: Job, from: nat)
    ensures var pairs := Pairs(job.styles, job.formats);
      Completing(JobOutcome(env, job, false, None, from).sent) <==>
        && UngatedBuilds(env, job, from)
        && AllUpload(env, |PartsOf(env.package(FilesOf(env, pairs)).value)|, from + |pairs| + 2)
  {
    CompletesExactly(env, job, false, None, from);
    UngatedBuildsExactly(env, job, from);
    hide BuildResult, AllUpload, JobOutcome, ArchivedBy;
  }

  lemma ReportedSends(env: Env, token: string, work: Outcome)
    ensures var s := Reported(env, token, work).sent;
      && (Completing(s) <==> Completing(work.sent))
      && (Acking(s) <==> Acking(work.sent) || (Reports(work) && env.fail(FailCount(work.sent)) == Got(true)))
      && (Failing(s) <==> Failing(work.sent) || Reports(work))
  {
    if Reports(work) {
      var report := ReportOf(token, work.result.stop);
      OneSent(report);
      OneSent(AckSent);
      OneSent(RetrySent);
      JoinSent(work.sent, [report]);
      JoinSent(work.sent + [report], [AckSent]);
      JoinSent(work.sent + [report], [RetrySent]);
    }
  }

  /** The queue message is acknowledged exactly when the Worker confirmed or finally refused the
      completion, or answered the failure report of the job with an acknowledgement. */
  lemma AcknowledgedExactly(env: Env, job: Job, gated: bool, cached: Option<seq<string>>, from: nat)
    ensures var work := Work(env, job, gated, cached, from);
      Acking(JobOutcome(env, job, gated, cached, from).sent) <==>
        || (Publishes(env, job, gated, cached, from) && SettledByAnswer(env))
        || (Reports(work) && env.fail(if Refuses(env, job, gated, cached, from) then 1 else 0) == Got(true))
  {
    var work := Work(env, job, gated, cached, from);
    WorkSends(env, job, gated, cached, from);
    ReportedSends(env, job.token, work);
    hide Work, Reported, Publishes, Refuses, Completing, Acking, Failing, FailCount, OnlyUploadReports;
  }

  /** An unclear completion is retried and not acknowledged, unless the retry call itself raises. */
  lemma AmbiguousIsRetried(env: Env, job: Job, gated: bool, cached: Option<seq<string>>, from: nat)
    requires Publishes(env, job, gated, cached, from) && env.complete == Got(Ambiguous) && env.queue(0).None?
    ensures var o := JobOutcome(env, job, gated, cached, from);
      o.result == Got(Retried) && !Acking(o.sent) && !Failing(o.sent) && EndsWith(o.sent, RetrySent)
  {
    hide Work, BuildResult, Publishes, Published, Acking, Failing, Completing;
    var parts := WorkParts(env, job, gated, cached, from);
    AmbiguousPublished(env, job.token, parts);
    PublishedSends(env, job.token, parts);
  }

  lemma WorkParts(env: Env, job: Job, gated: bool, cached: Option<seq<string>>, from: nat) returns (parts: seq<Part>)
    requires Publishes(env, job, gated, cached, from)
    ensures parts != [] && Work(env, job, gated, cached, from) == Published(env, job.token, parts)
    ensures BuildResult(env, job, gated, cached, from).Got?
            && parts == PartsOf(BuildResult(env, job, gated, cached, from).value)
  {
    WorkPublishes(env, job, gated, cached, from);
    parts := BuiltParts(env, job, gated, cached, from);
  }

  lemma AmbiguousPublished(env: Env, token: string, parts: seq<Part>)
    requires parts != [] && env.complete == Got(Ambiguous) && env.queue(0).None?
    ensures Published(env, token, parts).result == Got(Retried)
            && EndsWith(Published(env, token, parts).sent, RetrySent)
  {
    hide RecordsUpTo, UploadsOf;
  }

  // ---------------------------------------------------------------- failure reports

  /** What is reported failed: a plainly refused upload, retryable; and the stop that raised, under its
      own code, retryable exactly when the code is not terminal. Nothing else. */
  lemma ReportsExactly(env: Env, job: Job, gated: bool, cached: Option<seq<string>>, from: nat, e: Event)
    requires e.FailSent?
    ensures var work := Work(env, job, gated, cached, from);
      e in JobOutcome(env, job, gated, cached, from).sent <==>
        || (Refuses(env, job, gated, cached, from) && e == FailSent(job.token, true, UPLOAD_FAILED))
        || (Reports(work) && e == ReportOf(job.token, work.result.stop))
  {
    var work := Work(env, job, gated, cached, from);
    WorkSends(env, job, gated, cached, from);
    hide Work;
    var s, t := work.sent, JobOutcome(env, job, gated, cached, from).sent;
    ReportedMembers(env, job.token, work, e);
    if Failing(s) {
      var i :| 0 <= i < |s| && s[i].FailSent?;
      assert FailSent(job.token, true, UPLOAD_FAILED) in s;
    }
    assert e in s ==> Failing(s);
  }

  lemma ReportedMembers(env: Env, token: string, work: Outcome, e: Event)
    requires e.FailSent?
    ensures e in Reported(env, token, work).sent
            <==> e in work.sent || (Reports(work) && e == ReportOf(token, work.result.stop))
  {}

  /** The codes of failures that no retry can mend. */
  predicate Hopeless(code: string) {
    || code == "INVALID_SOURCE_URL" || code == "NO_PUBLIC_PREVIEW_FOUND" || code == "SOURCE_ACQUISITION_BLOCKED_403"
    || code == "SOURCE_ACQUISITION_BLOCKED_429" || code == "SOURCE_PREVIEW_PARSE_FAILED"
    || code == "MALFORMED_SOURCE_INPUT" || code == "CORRUPT_SOURCE_IMAGE" || code == "UNSUPPORTED_FORMAT"
    || code == "MISSING_MODE" || code == "UNSUPPORTED_MODE" || code == "NO_FILES_GENERATED"
    || code == "STAGE9D_GATE_FAILED" || code == "ACQUISITION_BINARY_INTEGRITY_FAILED"
    || code == "ACQUISITION_INSUFFICIENT" || code == "VIETNAMESE_EXTENSION_FAILED" || code == "FAST30_FAILED"
    || code == "ATLAS_RASTER_SOURCE_UNAVAILABLE" || code == "EXHAUSTIVE_REGIME_RETIRED"
  }

  /** How many failure reports carry the code. */
  function ReportCount(sent: seq<Event>, code: string): nat {
    if sent == [] then 0 else
      var e := sent[|sent| - 1];
      ReportCount(sent[..|sent| - 1], code) + if e.FailSent? && e.code == code then 1 else 0
  }

  lemma {:induction false} ReportsOfUploads(sent: seq<Event>, token: string, code: string)
    requires OnlyUploadReports(sent, token)
    ensures ReportCount(sent, code) == if code == "UPLOAD_FAILED" then FailCount(sent) else 0
  {
    if sent != [] {
      var n := |sent| - 1;
      assert forall i | 0 <= i < n :: sent[..n][i] == sent[i];
      ReportsOfUploads(sent[..n], token, code);
    }
  }

  lemma {:induction false} ReportsJoined(a: seq<Event>, b: seq<Event>, code: string)
    ensures ReportCount(a + b, code) == ReportCount(a, code) + ReportCount(b, code)
  {
    if b == [] {
      assert a + b == a;
    } else {
      ReportsJoined(a, b[..|b| - 1], code);
      assert (a + b)[..|a + b| - 1] == a + b[..|b| - 1];
    }
  }

  lemma OneReport(e: Event, code: string)
    ensures ReportCount([e], code) == if e.FailSent? && e.code == code then 1 else 0
    ensures ReportCount([], code) == 0
  {
    assert [e][..0] == [];
  }

  lemma ReportIs(token: string, code: string)
    ensures ReportOf(token, Failure(code)) == FailSent(token, !Hopeless(code), code)
  {}

  lemma ReportsAdded(env: Env, token: string, work: Outcome, code: string)
    requires work.result == Raised(Failure(code)) && code != "LEASE_FENCED_OR_EXPIRED"
    ensures ReportCount(Reported(env, token, work).sent, code) == ReportCount(work.sent, code) + 1
  {
    var report := ReportOf(token, Failure(code));
    assert report.FailSent? && report.code == code;
    hide ReportOf, ReportCount;
    ReportsJoined(work.sent, [report], code);
    OneReport(report, code);
    OneReport(AckSent, code);
    OneReport(RetrySent, code);
    ReportsJoined(work.sent + [report], [AckSent], code);
    ReportsJoined(work.sent + [report], [RetrySent], code);
  }

  /** Work that raised an error is reported once, under the code of the error, besides a refused
      upload; the report is retryable exactly when the code is none of the eighteen. */
  lemma FailureIsReported(env: Env, job: Job, gated: bool, cached: Option<seq<string>>, from: nat, code: string)
    requires Work(env, job, gated, cached, from).result == Raised(Failure(code))
    requires code != "LEASE_FENCED_OR_EXPIRED"
    ensures var sent := JobOutcome(env, job, gated, cached, from).sent;
      ReportCount(sent, code) == if Refuses(env, job, gated, cached, from) && code == "UPLOAD_FAILED" then 2 else 1
    ensures var sent := JobOutcome(env, job, gated, cached, from).sent;
      && FailSent(job.token, !Hopeless(code), code) in sent
      && forall e | e in sent && e.FailSent? ::
           e == FailSent(job.token, !Hopeless(code), code) || e == FailSent(job.token, true, "UPLOAD_FAILED")
  {
    var work := Work(env, job, gated, cached, from);
    WorkSends(env, job, gated, cached, from);
    ReportsAdded(env, job.token, work, code);
    ReportsOfUploads(work.sent, job.token, code);
    ReportIs(job.token, code);
    hide Work, Refuses, Publishes, Hopeless, ReportOf, ReportCount, OnlyUploadReports;
    forall e: Event | e.FailSent?
      ensures e in JobOutcome(env, job, gated, cached, from).sent ==>
        e == FailSent(job.token, !Hopeless(code), code) || e == FailSent(job.token, true, "UPLOAD_FAILED")
    {
      ReportsExactly(env, job, gated, cached, from, e);
      hide JobOutcome;
    }
    ReportsExactly(env, job, gated, cached, from, FailSent(job.token, !Hopeless(code), code));
    hide JobOutcome;
  }

  /** A fenced job is dropped: nothing is sent after the fence was noticed, and no failure reported. */
  lemma FenceIsNotReported(env: Env, job: Job, gated: bool, cached: Option<seq<string>>, from: nat)
    requires var r := Work(env, job, gated, cached, from).result;
      r == Raised(FencedOrExpired) || r == Raised(Failure("LEASE_FENCED_OR_EXPIRED"))
    ensures JobOutcome(env, job, gated, cached, from)
         == Outcome(Work(env, job, gated, cached, from).sent, Got(FencedAbort))
  {
    hide Work;
  }

  /** A report is retryable exactly when its code is not terminal, so a wall breach never is. */
  lemma WallIsTerminal(env: Env, job: Job, gated: bool, cached: Option<seq<string>>, from: nat, e: Event)
    requires e.FailSent? && e in JobOutcome(env, job, gated, cached, from).sent
    ensures e.token == job.token && (e.retryable <==> e.code !in TERMINAL_CODES)
    ensures e.code == CodeOf(WallExceeded) ==> !e.retryable
  {
    ReportsExactly(env, job, gated, cached, from, e);
    hide Work;
    assert CodeOf(WallExceeded) in TERMINAL_CODES && UPLOAD_FAILED !in TERMINAL_CODES;
  }

  /** The files to package are all there: cached, or every pair built and every write made. */
  ghost predicate Gathers(env: Env, job: Job, gated: bool, cached: Option<seq<string>>, from: nat) {
    var pairs := Pairs(job.styles, job.formats);
    && FilesToPack(env, job, cached) != []
    && (cached.Some? || (if gated then AllPass(env, pairs, from) && AllPut(env, |Attested(env, pairs)|)
                         else AllBuild(env, pairs, from)))
  }

  /** The pairs before this one succeed, and this one is looked at. */
  ghost predicate ReachesPair(env: Env, pairs: seq<Pair>, gated: bool, from: nat, k: nat)
    requires k < |pairs|
  {
    if gated then forall i: nat | i < k :: PairPasses(env, pairs, i, from)
    else Sourced(env, pairs[k].style) && forall i: nat | i < k :: PairBuilds(env, pairs, i, from)
  }

  /** A job gets as far as its check number k: one check before each pair, one before and one after
      packaging, one before publication, one before each upload and one after the last. */
  ghost predicate ReachesCheck(env: Env, job: Job, gated: bool, cached: Option<seq<string>>, from: nat, k: nat) {
    var n := ChecksToPack(job, cached);
    var files := FilesToPack(env, job, cached);
    if k < n then ReachesPair(env, Pairs(job.styles, job.formats), gated, from, k)
    else if k < n + 2 then
      && Gathers(env, job, gated, cached, from)
      && (k == n + 1 ==> env.guard(from + n).None? && env.package(files).Got?)
    else
      && Gathers(env, job, gated, cached, from) && Packs(env, files, from + n)
      && k <= n + 3 + |PartsOf(env.package(files).value)|
      && (k > n + 2 ==> env.guard(from + n + 2).None? && UploadsBefore(env, k - n - 3, from + n + 2))
  }

  ghost predicate UploadsBefore(env: Env, m: nat, from: nat) { forall i: nat | i < m :: PartUploads(env, i, from) }

  lemma {:induction false} FirstStopAt(env: Env, pairs: seq<Pair>, from: nat, k: nat)
    requires k < |pairs| && env.guard(from + k).Some? && ReachesPair(env, pairs, true, from, k)
    ensures FirstStop(env, pairs, from) == env.guard(from + k)
  {
    var n := |pairs| - 1;
    assert forall i: nat | i < n :: PairPasses(env, pairs[..n], i, from) <==> PairPasses(env, pairs, i, from);
    if k < n {
      FirstStopAt(env, pairs[..n], from, k);
    } else {
      FirstStopExact(env, pairs[..n], from);
    }
  }

  lemma {:induction false} DirectStopAt(env: Env, pairs: seq<Pair>, from: nat, k: nat)
    requires k < |pairs| && env.guard(from + k).Some? && ReachesPair(env, pairs, false, from, k)
    ensures DirectStop(env, pairs, from) == env.guard(from + k)
  {
    var n := |pairs| - 1;
    forall i: nat | i < n
      ensures PairBuilds(env, pairs[..n], i, from) <==> PairBuilds(env, pairs, i, from)
    {
      assert pairs[..n][..i] == pairs[..i];
    }
    if k < n {
      DirectStopAt(env, pairs[..n], from, k);
    } else {
      DirectStopExact(env, pairs[..n], from);
    }
  }

  lemma GathersIsNoStop(env: Env, job: Job, gated: bool, cached: Option<seq<string>>, from: nat)
    requires Gathers(env, job, gated, cached, from)
    ensures BuildResult(env, job, gated, cached, from)
         == PackageResult(env, FilesToPack(env, job, cached), from + ChecksToPack(job, cached))
    ensures FilesToPack(env, job, cached) != []
  {
    var pairs := Pairs(job.styles, job.formats);
    hide PackageResult, FirstStop, DirectStop, Writes, Attested, AllBuild, AllPass, AllPut;
    if cached.None? {
      if gated {
        FirstStopExact(env, pairs, from);
        WritesExact(env, |Attested(env, pairs)|);
      } else {
        DirectStopExact(env, pairs, from);
        SomeSource(env, job, from);
      }
    }
  }

  lemma SomeSource(env: Env, job: Job, from: nat)
    requires Pairs(job.styles, job.formats) != [] && AllBuild(env, Pairs(job.styles, job.formats), from)
    ensures env.sources.Some? && job.formats != []
  {
    var pairs := Pairs(job.styles, job.formats);
    assert PairBuilds(env, pairs, 0, from);
    PairsNeedFormats(job.styles, job.formats);
  }

  lemma BuildStopsAt(env: Env, job: Job, gated: bool, cached: Option<seq<string>>, from: nat, k: nat)
    requires k < ChecksToPack(job, cached) + 2
    requires ReachesCheck(env, job, gated, cached, from, k) && env.guard(from + k).Some?
    ensures BuildResult(env, job, gated, cached, from) == Raised(env.guard(from + k).value)
  {
    hide Pairs, FirstStop, DirectStop, Attested, Writes, ReachesPair, Gathers;
    var pairs := Pairs(job.styles, job.formats);
    if k >= ChecksToPack(job, cached) {
      GathersIsNoStop(env, job, gated, cached, from);
    } else if gated {
      FirstStopAt(env, pairs, from, k);
    } else {
      DirectStopAt(env, pairs, from, k);
      PairsNeedFormats(job.styles, job.formats);
      PairIsSourced(env, pairs, from, k);
    }
  }

  lemma PairIsSourced(env: Env, pairs: seq<Pair>, from: nat, k: nat)
    requires k < |pairs| && ReachesPair(env, pairs, false, from, k)
    ensures env.sources.Some?
  {}

  lemma PublicationStopsAt(env: Env, token: string, parts: seq<Part>, from: nat, u: nat)
    requires parts != [] && u <= |parts| + 1 && env.guard(from + u).Some?
    requires u > 0 ==> env.guard(from).None? && UploadsBefore(env, u - 1, from)
    ensures PublishOutcome(env, token, parts, from).result == Raised(env.guard(from + u).value)
    ensures !AllUpload(env, |parts|, from)
  {
    UploadCountExact(env, |parts|, from);
    hide UploadCount, RecordsUpTo, UploadsOf;
    var m := UploadCount(env, |parts|, from);
    if 0 < u <= |parts| { assert !PartUploads(env, u - 1, from); }
    if u > 0 { assert m == u - 1; }
  }

  lemma WorkStopsAt(env: Env, job: Job, gated: bool, cached: Option<seq<string>>, from: nat, k: nat)
    requires ReachesCheck(env, job, gated, cached, from, k) && env.guard(from + k).Some?
    ensures Work(env, job, gated, cached, from).result == Raised(env.guard(from + k).value)
    ensures !Publishes(env, job, gated, cached, from)
  {
    hide BuildResult, PublishOutcome, AllUpload, UploadsBefore, Gathers, ReachesPair, ChecksToPack, FilesToPack;
    var n := ChecksToPack(job, cached);
    if k < n + 2 {
      BuildStopsAt(env, job, gated, cached, from, k);
    } else {
      GathersIsNoStop(env, job, gated, cached, from);
      PublicationStopsAt(env, job.token, BuiltParts(env, job, gated, cached, from), from + n + 2, k - n - 2);
    }
  }

  /** A wall that work raised, at a check or inside a call, is reported as a terminal failure. */
  lemma RaisedWallIsReported(env: Env, job: Job, gated: bool, cached: Option<seq<string>>, from: nat)
    requires Work(env, job, gated, cached, from).result == Raised(WallExceeded)
    ensures FailSent(job.token, false, "FAST30_FAILED") in JobOutcome(env, job, gated, cached, from).sent
  {
    ReportsExactly(env, job, gated, cached, from, FailSent(job.token, false, "FAST30_FAILED"));
    hide Work;
    assert CodeOf(WallExceeded) in TERMINAL_CODES && CodeOf(WallExceeded) != FENCED_CODE;
  }

  /** A job that is at a check when the wall is met, whichever check it is, is reported as terminally
      failed, and completes nothing. */
  lemma WallIsReported(env: Env, job: Job, gated: bool, cached: Option<seq<string>>, from: nat, k: nat)
    requires ReachesCheck(env, job, gated, cached, from, k) && env.guard(from + k) == Some(WallExceeded)
    ensures FailSent(job.token, false, "FAST30_FAILED") in JobOutcome(env, job, gated, cached, from).sent
    ensures !Completing(JobOutcome(env, job, gated, cached, from).sent)
  {
    hide Work, JobOutcome, Completing, ReachesCheck, Publishes;
    WorkStopsAt(env, job, gated, cached, from, k);
    CompletesExactly(env, job, gated, cached, from);
    RaisedWallIsReported(env, job, gated, cached, from);
  }

  /** After a completion the Worker confirmed, the job is reported failed exactly when acknowledging
      the message raised something other than the fence. */
  lemma FailsAfterCompletionExactly(env: Env, job: Job, gated: bool, cached: Option<seq<string>>, from: nat)
    requires Publishes(env, job, gated, cached, from) && env.complete == Got(Completed)
    ensures Failing(JobOutcome(env, job, gated, cached, from).sent)
       <==> env.queue(0).Some? && CodeOf(env.queue(0).value) != FENCED_CODE
  {
    hide BuildResult, Publishes, Failing, Completing, Acking;
    var parts := WorkParts(env, job, gated, cached, from);
    var work := Work(env, job, gated, cached, from);
    PublishedSends(env, job.token, parts);
    ReportedSends(env, job.token, work);
    ConfirmedPublished(env, job.token, parts);
    hide Work, Published, Reported;
  }

  lemma ConfirmedPublished(env: Env, token: string, parts: seq<Part>)
    requires parts != [] && env.complete == Got(Completed)
    ensures Published(env, token, parts).result
            == match env.queue(0) case None => Got(Acked) case Some(stop) => Raised(stop)
  {
    hide RecordsUpTo, UploadsOf;
  }

  /** Right after the uploads of all parts comes the one completion, with exactly these parts in
      manifest order under the token, and no other. */
  ghost predicate CompletesOnce(sent: seq<Event>, parts: seq<Part>, token: string) {
    var n := |parts|;
    && 0 < n < |sent| && sent[n].CompleteSent? && (forall i | 0 <= i < |sent| && sent[i].CompleteSent? :: i == n)
    && sent[n].token == token && |sent[n].parts| == n
    && (forall k | 0 <= k < n ::
          sent[n].parts[k].part == parts[k] && sent[k] == Uploaded(parts[k], token, sent[n].parts[k].key))
    && sent[n].key == sent[n].parts[0].key && sent[n].sha256 == parts[0].sha256 && sent[n].size == parts[0].size
  }

  lemma PublishedOnce(env: Env, token: string, parts: seq<Part>, tail: seq<Event>)
    requires parts != [] && !Completing(tail)
    ensures CompletesOnce(Published(env, token, parts).sent + tail, parts, token)
  {
    var records := RecordsUpTo(env, parts, |parts|);
    var uploads, after := UploadsOf(records, token), AfterCompletion(env).sent;
    AfterCompletionSends(env);
    JoinSent(after, tail);
    hide AfterCompletion;
    var sent := Published(env, token, parts).sent + tail;
    assert sent == uploads + [Completion(records, token)] + (after + tail);
    hide Published, RecordsUpTo, UploadsOf;
    OnlyInTheMiddle(uploads, Completion(records, token), after + tail);
  }

  lemma OnlyInTheMiddle(before: seq<Event>, e: Event, after: seq<Event>)
    requires (forall i | 0 <= i < |before| :: !before[i].CompleteSent?) && !Completing(after)
    ensures var s := before + [e] + after;
      s[|before|] == e && (forall i | 0 <= i < |before| :: s[i] == before[i])
      && forall i | 0 <= i < |s| && s[i].CompleteSent? :: i == |before|
  {
    assert forall i | 0 <= i < |after| :: !after[i].CompleteSent?;
  }

  /** Completion is sent at most once, with precisely the manifest's parts, all uploaded before under
      the lease token of the job. */
  lemma CompletionIsExact(env: Env, job: Job, gated: bool, cached: Option<seq<string>>, from: nat)
    requires Publishes(env, job, gated, cached, from)
    ensures var built := BuildResult(env, job, gated, cached, from);
      built.Got? && CompletesOnce(JobOutcome(env, job, gated, cached, from).sent, PartsOf(built.value), job.token)
  {
    hide BuildResult, Publishes, Published, CompletesOnce, Completing;
    var parts := WorkParts(env, job, gated, cached, from);
    var tail := ReportTail(env, job.token, Work(env, job, gated, cached, from));
    hide Work, Reported;
    PublishedOnce(env, job.token, parts, tail);
  }

  /** The report adds events after the work's own, and no completion. */
  lemma ReportTail(env: Env, token: string, work: Outcome) returns (tail: seq<Event>)
    ensures Reported(env, token, work).sent == work.sent + tail && !Completing(tail)
  {
    if Reports(work) {
      var report := ReportOf(token, work.result.stop);
      OneSent(report);
      OneSent(AckSent);
      OneSent(RetrySent);
      JoinSent([report], [AckSent]);
      JoinSent([report], [RetrySent]);
      match env.fail(FailCount(work.sent))
      case Raised(_) => tail := [report];
      case Got(ackIt) => tail := [report] + [if ackIt then AckSent else RetrySent];
    } else {
      tail := [];
      OneSent(AckSent);
    }
  }

  /** A world in which everything succeeds and only the acknowledgement raises. */
  function LostAck(): Env {
    Env(n => None, None, OneFont, p => true, true, n => true,
        files => Got(Manifest(Part(1, 1, "fonts.zip", "digest", 1), [])),
        n => Got(UploadOk("key")), Got(Completed), n => Some(WallExceeded), n => Got(true))
  }

  /** The acknowledgement raises after a confirmed completion: the job is reported failed. */
  lemma FailedAfterCompletion()
    ensures var job := Job("job", "token", ["style"], ["TTF"]);
      var sent := JobOutcome(LostAck(), job, false, Some(["font.ttf"]), 0).sent;
      Completing(sent) && Failing(sent)
  {
    var env, job := LostAck(), Job("job", "token", ["style"], ["TTF"]);
    assert Packs(env, ["font.ttf"], 0);
    CachedBuildsExactly(env, job, false, ["font.ttf"], 0);
    assert AllUpload(env, 1, 2);
    CompletesExactly(env, job, false, Some(["font.ttf"]), 0);
    FailsAfterCompletionExactly(env, job, false, Some(["font.ttf"]), 0);
    hide JobOutcome, BuildResult;
  }
}
