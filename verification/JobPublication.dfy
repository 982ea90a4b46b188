/** From the package to the settled queue message: upload every part, complete once, acknowledge, or
    report the failure. */
module JobPublication {
  import opened JobBuild
  import opened JobArchive

  datatype Record = Record(part: Part, key: string)

  /** What the runner sends to the Worker and the queue. */
  datatype Event =
    | Uploaded(part: Part, token: string, key: string)
    | CompleteSent(token: string, key: string, sha256: string, size: int, parts: seq<Record>)
    | FailSent(token: string, retryable: bool, code: string)
    | AckSent
    | RetrySent

  datatype Action = Acked | Retried | FailedTerminal | FencedAbort

  /** What was sent, and how the work returned or raised. */
  datatype Outcome = Outcome(sent: seq<Event>, result: Try<Action>)

  const TERMINAL_CODES: set<string> := {
    "INVALID_SOURCE_URL", "NO_PUBLIC_PREVIEW_FOUND", "SOURCE_ACQUISITION_BLOCKED_403", "SOURCE_ACQUISITION_BLOCKED_429",
    "SOURCE_PREVIEW_PARSE_FAILED", "MALFORMED_SOURCE_INPUT", "CORRUPT_SOURCE_IMAGE", "UNSUPPORTED_FORMAT",
    "MISSING_MODE", "UNSUPPORTED_MODE", "NO_FILES_GENERATED", "STAGE9D_GATE_FAILED",
    "ACQUISITION_BINARY_INTEGRITY_FAILED", "ACQUISITION_INSUFFICIENT", "VIETNAMESE_EXTENSION_FAILED",
    "FAST30_FAILED", "ATLAS_RASTER_SOURCE_UNAVAILABLE", "EXHAUSTIVE_REGIME_RETIRED"}

  const UPLOAD_FAILED := "UPLOAD_FAILED"
  const FENCED_CODE := "LEASE_FENCED_OR_EXPIRED"

  /** The code an error is reported under. */
  function CodeOf(stop: Stop): string {
    match stop
    case FencedOrExpired => FENCED_CODE
    case WallExceeded => "FAST30_FAILED"
    case Failure(code) => code
  }

  function PartsOf(m: Manifest): (r: seq<Part>)
    ensures r != []
  {
    if m.parts != [] then m.parts else [m.zip]
  }

  // ---------------------------------------------------------------- what publication sends

  predicate UploadedOk(env: Env, i: nat) { env.upload(i).Got? && env.upload(i).value.UploadOk? }

  /** The check before a part and its upload both succeed, counting checks from the given one. */
  predicate PartUploads(env: Env, i: nat, from: nat) { env.guard(from + 1 + i).None? && UploadedOk(env, i) }

  /** How many of the first n parts upload in a row. */
  function UploadCount(env: Env, n: nat, from: nat): (r: nat)
    ensures r <= n
  {
    if n == 0 then 0 else
      var before := UploadCount(env, n - 1, from);
      if before == n - 1 && PartUploads(env, n - 1, from) then n else before
  }

  /** The first m parts in manifest order, each with the key its upload was given. */
  function RecordsUpTo(env: Env, parts: seq<Part>, m: nat): (r: seq<Record>)
    requires m <= |parts|
    ensures |r| == m
    ensures forall i | 0 <= i < m ::
              r[i] == Record(parts[i], if UploadedOk(env, i) then env.upload(i).value.key else "")
  {
    seq(m, i requires 0 <= i < m => Record(parts[i], if UploadedOk(env, i) then env.upload(i).value.key else ""))
  }

  function UploadsOf(records: seq<Record>, token: string): (r: seq<Event>)
    ensures |r| == |records| && forall i | 0 <= i < |r| :: r[i] == Uploaded(records[i].part, token, records[i].key)
  {
    seq(|records|, i requires 0 <= i < |records| => Uploaded(records[i].part, token, records[i].key))
  }

  function Completion(records: seq<Record>, token: string): Event
    requires records != []
  {
    CompleteSent(token, records[0].key, records[0].part.sha256, records[0].part.size, records)
  }

  function Then(first: seq<Event>, rest: Outcome): Outcome { Outcome(first + rest.sent, rest.result) }

  function QueueCall(env: Env, e: Event, number: nat, action: Action): Outcome {
    Outcome([e], match env.queue(number) case None => Got(action) case Some(stop) => Raised(stop))
  }

  /** How the message is settled once the completion was sent. */
  function AfterCompletion(env: Env): Outcome {
    match env.complete
    case Raised(stop) => Outcome([], Raised(stop))
    case Got(answer) =>
      match answer
      case Completed => QueueCall(env, AckSent, 0, Acked)
      case CompletionFenced => Outcome([], Got(FencedAbort))
      case Ambiguous => QueueCall(env, RetrySent, 0, Retried)
      case Refused(ackIt) => if ackIt then QueueCall(env, AckSent, 0, Acked) else QueueCall(env, RetrySent, 0, Retried)
  }

  /** The upload that does not succeed ends the job. */
  function StoppedUpload(env: Env, token: string, m: nat, from: nat): Outcome {
    match env.guard(from + 1 + m)
    case Some(stop) => Outcome([], Raised(stop))
    case None =>
      match env.upload(m)
      case Raised(stop) => Outcome([], Raised(stop))
      case Got(answer) =>
        if answer.UploadFailed? then RefusedUpload(env, token) else Outcome([], Got(FencedAbort))
  }

  function RefusedUpload(env: Env, token: string): Outcome {
    var report := [FailSent(token, true, UPLOAD_FAILED)];
    match env.fail(0)
    case Raised(stop) => Outcome(report, Raised(stop))
    case Got(_) => Then(report, QueueCall(env, RetrySent, 0, Retried))
  }

  function PublishOutcome(env: Env, token: string, parts: seq<Part>, from: nat): Outcome
    requires parts != []
  {
    match env.guard(from)
    case Some(stop) => Outcome([], Raised(stop))
    case None =>
      var n := |parts|;
      var m := UploadCount(env, n, from);
      var records := RecordsUpTo(env, parts, m);
      Then(UploadsOf(records, token),
           if m < n then StoppedUpload(env, token, m, from) else
           match env.guard(from + 1 + n)
           case Some(stop) => Outcome([], Raised(stop))
           case None => Then([Completion(records, token)], AfterCompletion(env)))
  }

  /** Build and publication before any failure is reported. */
  function Work(env: Env, job: Job, gated: bool, cached: Option<seq<string>>, from: nat): Outcome {
    match BuildResult(env, job, gated, cached, from)
    case Raised(stop) => Outcome([], Raised(stop))
    case Got(manifest) => PublishOutcome(env, job.token, PartsOf(manifest), from + ChecksToPack(job, cached) + 2)
  }

  function FailCount(sent: seq<Event>): nat {
    if sent == [] then 0 else FailCount(sent[..|sent| - 1]) + if sent[|sent| - 1].FailSent? then 1 else 0
  }

  function QueueCount(sent: seq<Event>): nat {
    if sent == [] then 0
    else QueueCount(sent[..|sent| - 1]) + if sent[|sent| - 1].AckSent? || sent[|sent| - 1].RetrySent? then 1 else 0
  }

  function ReportOf(token: string, stop: Stop): Event {
    FailSent(token, CodeOf(stop) !in TERMINAL_CODES, CodeOf(stop))
  }

  /** The failure report for work that raised; a fenced job is dropped without one. */
  function Reported(env: Env, token: string, work: Outcome): Outcome {
    match work.result
    case Got(_) => work
    case Raised(stop) =>
      if CodeOf(stop) == FENCED_CODE then Outcome(work.sent, Got(FencedAbort)) else
      var sent := work.sent + [ReportOf(token, stop)];
      match env.fail(FailCount(work.sent))
      case Raised(again) => Outcome(sent, Raised(again))
      case Got(ackIt) =>
        Then(sent, QueueCall(env, if ackIt then AckSent else RetrySent, QueueCount(work.sent),
                             if ackIt then FailedTerminal else Retried))
  }

  function JobOutcome(env: Env, job: Job, gated: bool, cached: Option<seq<string>>, from: nat): Outcome {
    Reported(env, job.token, Work(env, job, gated, cached, from))
  }

  // ---------------------------------------------------------------- the runner

  class JobRunner {
    const env: Env
    const builder: JobBuilder
    var sent: seq<Event>
    var queueCalls: nat
    var failCalls: nat

    constructor (env: Env)
      ensures this.env == env && builder.env == env && fresh(builder) && builder.archive == [] && builder.checks == 0
      ensures sent == [] && Counted()
    {
      this.env := env;
      builder := new JobBuilder(env);
      sent, queueCalls, failCalls := [], 0, 0;
    }

    ghost predicate Counted()
      reads this
    {
      queueCalls == QueueCount(sent) && failCalls == FailCount(sent)
    }

    method Queue(e: Event, action: Action) returns (r: Try<Action>)
      requires (e.AckSent? || e.RetrySent?) && Counted()
      modifies this`sent, this`queueCalls
      ensures sent == old(sent) + [e] && r == QueueCall(env, e, old(queueCalls), action).result && Counted()
    {
      CountNext(sent, e);
      sent := sent + [e];
      var stop := env.queue(queueCalls);
      queueCalls := queueCalls + 1;
      r := if stop.Some? then Raised(stop.value) else Got(action);
    }

    method Fail(token: string, retryable: bool, code: string) returns (r: Try<bool>)
      requires Counted()
      modifies this`sent, this`failCalls
      ensures sent == old(sent) + [FailSent(token, retryable, code)] && r == env.fail(old(failCalls)) && Counted()
    {
      CountNext(sent, FailSent(token, retryable, code));
      sent := sent + [FailSent(token, retryable, code)];
      r := env.fail(failCalls);
      failCalls := failCalls + 1;
    }

    /** Uploads the parts in order; the first that does not upload ends the job. */
    method UploadAll(job: Job, parts: seq<Part>) returns (stopped: bool, r: Try<Action>, records: seq<Record>)
      requires sent == [] && Counted() && builder.env == env && builder.checks > 0
      modifies this, builder`checks
      ensures Counted()
      ensures var from, n := old(builder.checks) - 1, |parts|;
        var m := UploadCount(env, n, from);
        && records == RecordsUpTo(env, parts, m) && (stopped <==> m < n)
        && (stopped ==> Outcome(sent, r) == Then(UploadsOf(records, job.token), StoppedUpload(env, job.token, m, from)))
        && (!stopped ==> sent == UploadsOf(records, job.token) && queueCalls == 0 && builder.checks == from + 1 + n)
    {
      hide QueueCount, FailCount, UploadCount;
      records, r, stopped := [], Got(Retried), true;
      ghost var from := builder.checks - 1;
      CountsOfNone(env, from);
      for i := 0 to |parts|
        invariant records == RecordsUpTo(env, parts, i) && sent == UploadsOf(records, job.token)
        invariant UploadCount(env, i, from) == i && builder.checks == from + 1 + i
        invariant queueCalls == 0 == QueueCount(sent) && failCalls == 0 == FailCount(sent) && stopped
      {
        UploadStops(env, i, |parts|, from);
        var stop := builder.Check();
        if stop.Some? { return true, Raised(stop.value), records; }
        var answer := env.upload(i);
        if answer.Raised? { return true, Raised(answer.stop), records; }
        if answer.value.UploadFenced? { return true, Got(FencedAbort), records; }
        if answer.value.UploadFailed? {
          r := FailUpload(job);
          return;
        }
        CountNext(sent, Uploaded(parts[i], job.token, answer.value.key));
        records := records + [Record(parts[i], answer.value.key)];
        sent := sent + [Uploaded(parts[i], job.token, answer.value.key)];
      }
      stopped := false;
    }

    /** Reports a plainly refused upload and has the message retried. */
    method FailUpload(job: Job) returns (r: Try<Action>)
      requires Counted() && queueCalls == 0 && failCalls == 0
      modifies this`sent, this`queueCalls, this`failCalls
      ensures Counted()
      ensures Outcome(sent, r) == Then(old(sent), RefusedUpload(env, job.token))
    {
      var failed := Fail(job.token, true, UPLOAD_FAILED);
      if failed.Raised? { return Raised(failed.stop); }
      r := Queue(RetrySent, Retried);
    }

    /** Settles the message by the answer to the completion. */
    method Settle() returns (r: Try<Action>)
      requires Counted() && queueCalls == 0
      modifies this`sent, this`queueCalls
      ensures Counted() && Outcome(sent, r) == Then(old(sent), AfterCompletion(env))
    {
      if env.complete.Raised? { return Raised(env.complete.stop); }
      match env.complete.value {
        case Completed => r := Queue(AckSent, Acked);
        case CompletionFenced => r := Got(FencedAbort);
        case Ambiguous => r := Queue(RetrySent, Retried);
        case Refused(ackIt) =>
          if ackIt { r := Queue(AckSent, Acked); } else { r := Queue(RetrySent, Retried); }
      }
    }

    /** Upload every part, complete once, settle the queue message. */
    method Publish(job: Job, manifest: Manifest) returns (r: Try<Action>)
      requires sent == [] && Counted() && builder.env == env
      modifies this, builder`checks
      ensures Outcome(sent, r) == PublishOutcome(env, job.token, PartsOf(manifest), old(builder.checks)) && Counted()
    {
      hide QueueCount, FailCount, UploadCount, AfterCompletion, StoppedUpload;
      var parts := PartsOf(manifest);
      var stop := builder.Check();
      if stop.Some? { return Raised(stop.value); }
      var stopped, early, records := UploadAll(job, parts);
      if stopped { return early; }
      stop := builder.Check();
      if stop.Some? { return Raised(stop.value); }
      CountNext(sent, Completion(records, job.token));
      sent := sent + [CompleteSent(job.token, records[0].key, records[0].part.sha256, records[0].part.size, records)];
      r := Settle();
    }

    /** A claimed job from build to queue settlement. */
    method ProcessClaimed(job: Job, gated: bool, cached: Option<seq<string>>) returns (r: Try<Action>)
      requires sent == [] && Counted() && builder.env == env
      modifies this, builder
      ensures Outcome(sent, r) == JobOutcome(env, job, gated, cached, old(builder.checks))
      ensures builder.archive == old(builder.archive) + ArchivedBy(env, job, gated, cached, old(builder.checks))
    {
      hide BuildResult, ArchivedBy, PublishOutcome, QueueCount, FailCount;
      var built := builder.BuildValidateAndPackage(job, gated, cached);
      if built.Raised? {
        r := Raised(built.stop);
      } else {
        r := Publish(job, built.value);
      }
      if r.Got? { return; }
      var code := CodeOf(r.stop);
      if code == FENCED_CODE { return Got(FencedAbort); }
      var answer := Fail(job.token, code !in TERMINAL_CODES, code);
      if answer.Raised? { return Raised(answer.stop); }
      if answer.value { r := Queue(AckSent, FailedTerminal); } else { r := Queue(RetrySent, Retried); }
    }
  }

  lemma CountNext(sent: seq<Event>, e: Event)
    ensures FailCount(sent + [e]) == FailCount(sent) + if e.FailSent? then 1 else 0
    ensures QueueCount(sent + [e]) == QueueCount(sent) + if e.AckSent? || e.RetrySent? then 1 else 0
  {
    assert (sent + [e])[..|sent|] == sent;
  }

  lemma CountsOfNone(env: Env, from: nat)
    ensures FailCount([]) == 0 && QueueCount([]) == 0 && UploadCount(env, 0, from) == 0
  {}

  /** The first part that does not upload ends the count. */
  lemma {:induction false} UploadStops(env: Env, i: nat, n: nat, from: nat)
    requires i < n && UploadCount(env, i, from) == i
    ensures PartUploads(env, i, from) ==> UploadCount(env, i + 1, from) == i + 1
    ensures !PartUploads(env, i, from) ==> UploadCount(env, n, from) == i
  {
    if i < n - 1 { UploadStops(env, i, n - 1, from); }
  }
}
