/**
The read-only operations of the service: diagnosing a run, normalising it, and comparing
two periods. What the provider answers is given.
*/
module Service {
  import opened Regex
  import opened Text
  import opened Int64
  import opened Performance
  import PerformanceLaws
  import Transport
  import Redaction
  import RedactionLaws
  import Gates
  import opened Diagnosis
  import DiagnosisLaws

  datatype Fetched<+T> = Got(value: T) | Failed(error: Transport.Error)

  // ----- Diagnosing a run -----

  /** What the provider answers about a run: whether the run itself can be fetched, its jobs,
      its annotations, and its logs within a limit. */
  datatype Remote = Remote(
    runError: Option<Transport.Error>, jobs: Fetched<seq<Job>>, gates: Gates.Provider, logs: int -> Fetched<string>)

  datatype Outcome =
    | Refused(error: Transport.ToolError)
    | Held(gate: Gates.GateDiagnosis)
    | Diagnosed(diagnostic: Diagnostic, recommendations: seq<Recommendation>)

  /** The number of log bytes to ask for: what the caller wants within the configured maximum. */
  function LogBytes(wanted: int, most: int): int {
    if 0 < wanted <= most then wanted else most
  }

  /** The logs are redacted once. */
  ghost function OutcomeOf(find: Finder, most: int, remote: Remote, wanted: int): Outcome {
    if remote.runError.Some? then Refused(Transport.MapError(remote.runError.value))
    else if remote.jobs.Failed? then Refused(Transport.MapError(remote.jobs.error))
    else
      match Gates.FirstDiagnosis(remote.gates, remote.jobs.value)
      case Some(gate) => Held(gate)
      case None =>
        match remote.logs(LogBytes(wanted, most))
        case Failed(error) => Refused(Transport.MapError(error))
        case Got(logs) =>
          var redacted := Redaction.Redact(logs);
          Diagnosed(DiagnosisOf(find, redacted, remote.jobs.value), Ranking(find, redacted, remote.jobs.value)[0].recommendations)
  }

  method DiagnoseRun(find: Finder, most: int, remote: Remote, wanted: int) returns (outcome: Outcome)
    requires most > 0
    ensures outcome == OutcomeOf(find, most, remote, wanted)
  {
    hide Redaction.Redact, DiagnosisOf, Ranking, Gates.FirstDiagnosis;
    var maxLogBytes := wanted;
    if maxLogBytes <= 0 { maxLogBytes := most; }
    if maxLogBytes > most { maxLogBytes := most; }
    if remote.runError.Some? { return Refused(Transport.MapError(remote.runError.value)); }
    if remote.jobs.Failed? { return Refused(Transport.MapError(remote.jobs.error)); }
    var jobs := remote.jobs.value;
    var gate := Gates.DiagnoseMetadataFailure(remote.gates, jobs);
    if gate.Some? { return Held(gate.value); }
    var logs := remote.logs(maxLogBytes);
    if logs.Failed? {
      if Transport.Is(logs.error, Transport.LogsUnavailable) {
        return Refused(Transport.ToolError(Transport.LOG_UNAVAILABLE, true));
      }
      return Refused(Transport.MapError(logs.error));
    }
    var redacted := Redaction.RedactSecrets(logs.value);
    var diagnostic, recommendations := DiagnoseFailure(find, redacted, jobs);
    RedactionLaws.RedactIdempotent(logs.value);
    DiagnosisLaws.DiagnosisIsBest(find, redacted, jobs);
    if diagnostic.rootCause == "" {
      diagnostic := diagnostic.(rootCause := "Run failed but logs did not include a clear signature.");
    }
    outcome := Diagnosed(diagnostic, recommendations);
  }

  function CategoryOf(outcome: Outcome): string {
    match outcome
    case Refused(_) => ""
    case Held(gate) => gate.category
    case Diagnosed(diagnostic, _) => diagnostic.category
  }

  /** The bytes asked for are those wanted if that is a positive number within the maximum,
      and otherwise the maximum; they never exceed it. */
  lemma LogBytesWithin(wanted: int, most: int)
    requires most > 0
    ensures 0 < LogBytes(wanted, most) <= most
    ensures LogBytes(wanted, most) == wanted <==> 0 < wanted <= most
    ensures wanted <= 0 || wanted > most ==> LogBytes(wanted, most) == most
  {
  }

  /** When a run is diagnosed from its logs, what it is diagnosed from, and which error is
      reported otherwise. */
  lemma OutcomeMeans(find: Finder, most: int, remote: Remote, wanted: int)
    requires most > 0
    ensures var o := OutcomeOf(find, most, remote, wanted);
            var bytes := if wanted <= 0 || wanted > most then most else wanted;
            && (o.Diagnosed? <==>
                  && remote.runError.None? && remote.jobs.Got? && remote.logs(bytes).Got?
                  && forall i :: 0 <= i < |remote.jobs.value| ==> !Gates.Gated(remote.gates, remote.jobs.value[i]))
            && (o.Diagnosed? ==>
                  && o.diagnostic == DiagnosisOf(find, Redaction.Redact(remote.logs(bytes).value), remote.jobs.value)
                  && ReportsJobs(remote.jobs.value, o.diagnostic.impactedJobs))
            && (remote.runError.Some? ==> o == Refused(Transport.MapError(remote.runError.value)))
            && (remote.runError.None? && remote.jobs.Failed? ==> o == Refused(Transport.MapError(remote.jobs.error)))
            && (o.Refused? && remote.runError.None? && remote.jobs.Got? ==>
                  remote.logs(bytes).Failed? && o == Refused(Transport.MapError(remote.logs(bytes).error)))
  {
    hide Gates.FirstDiagnosis, Gates.Gated, DiagnosisOf, Ranking, Redaction.Redact, ReportsJobs, Transport.MapError;
    if remote.jobs.Got? {
      Gates.EarliestIsDiagnosed(remote.gates, remote.jobs.value);
      var bytes := if wanted <= 0 || wanted > most then most else wanted;
      if remote.logs(bytes).Got? {
        DiagnosisLaws.DiagnosisReportsJobs(find, Redaction.Redact(remote.logs(bytes).value), remote.jobs.value);
      }
    }
  }

  /** A held-back job decides the outcome whatever the logs say or how many bytes are wanted. */
  lemma GateOutranksLogs(find: Finder, most: int, remote: Remote, logs: int -> Fetched<string>, wanted: int, wanted': int)
    requires remote.runError.None? && remote.jobs.Got?
    requires exists i :: 0 <= i < |remote.jobs.value| && Gates.Gated(remote.gates, remote.jobs.value[i])
    ensures OutcomeOf(find, most, remote, wanted) == OutcomeOf(find, most, remote.(logs := logs), wanted')
    ensures CategoryOf(OutcomeOf(find, most, remote, wanted)) == "config_error"
  {
    hide Gates.FirstDiagnosis, Gates.Gated, Gates.DiagnosisFor;
    Gates.EarliestIsDiagnosed(remote.gates, remote.jobs.value);
    DiagnosedIsConfig(remote.gates, remote.jobs.value);
  }

  lemma {:induction false} DiagnosedIsConfig(provider: Gates.Provider, jobs: seq<Job>)
    ensures match Gates.FirstDiagnosis(provider, jobs)
            case None => true
            case Some(d) => d.category == "config_error" && d.confidence == (if d.kind == Gates.Protection then 94 else 92)
  {
    hide Gates.Gated, Gates.EnvironmentFor, Gates.PoliciesFor, Gates.References, Gates.LastGate, Gates.AnnotationsOf, Gates.Shows;
    if jobs != [] { DiagnosedIsConfig(provider, jobs[1..]); }
  }

  // ----- Normalising a run -----

  datatype PipelineRun = PipelineRun(
    workflow: string, status: string, startedAt: Option<int>, completedAt: Option<int>,
    durationMs: int, queueTimeMs: int, failureReason: string)

  method NormalizeRun(run: Run, jobs: seq<Job>) returns (r: PipelineRun)
    // with a start time the times are those of the window metrics
    ensures run.startedAt.Some? && run.startedAt.value != 0 ==>
              r.durationMs == RunDurationMs(run) && r.queueTimeMs == QueueTimeMs(run)
    ensures run.startedAt.Some? && run.startedAt.value != 0 ==>
              && PerformanceLaws.IsSpan(r.durationMs, run.startedAt.value, run.updatedAt)
              && PerformanceLaws.IsSpan(r.queueTimeMs, run.createdAt, run.startedAt.value)
    ensures run.startedAt.None? ==> r.durationMs == 0 && r.queueTimeMs == 0
    // a start at the zero time is taken as it is
    ensures run.startedAt == Some(0) ==>
              && r.durationMs == (if run.updatedAt > 0 then Milliseconds(Sub(run.updatedAt, 0)) else 0)
              && r.queueTimeMs == (if run.createdAt < 0 then Milliseconds(Sub(0, run.createdAt)) else 0)
    ensures r.startedAt == run.startedAt
    ensures r.completedAt == if run.updatedAt > run.createdAt then Some(run.updatedAt) else None
    ensures r.status == if Blank(run.conclusion) then run.status else run.conclusion
    ensures r.workflow == if Blank(run.name) then run.displayTitle else run.name
    // the reason names the first failed job
    ensures (forall i :: 0 <= i < |jobs| ==> !EqualFold(jobs[i].conclusion, "failure")) ==> r.failureReason == ""
    ensures forall i :: 0 <= i < |jobs| && EqualFold(jobs[i].conclusion, "failure") &&
                        (forall j :: 0 <= j < i ==> !EqualFold(jobs[j].conclusion, "failure")) ==>
                          r.failureReason == "job failed: " + jobs[i].name
  {
    hide EqualFold, TrimSpace;
    PerformanceLaws.TimesAreSpans(run);
    var workflow := run.name;
    if TrimSpace(workflow) == "" { workflow := run.displayTitle; }
    var startedAt, completedAt, durationMs, queueTimeMs := None, None, 0, 0;
    if run.startedAt.Some? {
      startedAt := Some(run.startedAt.value);
      if run.updatedAt > run.startedAt.value {
        durationMs := Milliseconds(Sub(run.updatedAt, run.startedAt.value));
      }
      if run.startedAt.value > run.createdAt {
        queueTimeMs := Milliseconds(Sub(run.startedAt.value, run.createdAt));
      }
    }
    if run.updatedAt > run.createdAt { completedAt := Some(run.updatedAt); }
    var status := run.status;
    if TrimSpace(run.conclusion) != "" { status := run.conclusion; }
    var failureReason := "";
    for i := 0 to |jobs|
      invariant failureReason == "" && forall j :: 0 <= j < i ==> !EqualFold(jobs[j].conclusion, "failure")
    {
      if EqualFold(jobs[i].conclusion, "failure") {
        failureReason := "job failed: " + jobs[i].name;
        break;
      }
    }
    r := PipelineRun(workflow, status, startedAt, completedAt, durationMs, queueTimeMs, failureReason);
  }

  /** Without a start time the two durations agree exactly when less than a millisecond
      passed between creation and the last update. */
  lemma UnstartedAgreesIff(run: Run)
    requires run.startedAt.None?
    ensures RunDurationMs(run) == 0 <==> run.updatedAt < run.createdAt + 1_000_000
    ensures QueueTimeMs(run) == 0
  {
  }

  /** A start at the zero time counts as none in the window metrics and as it is here. The
      durations then agree exactly when creation and last update are as close to each other
      as the last update is to the zero time, up to the truncation to milliseconds. */
  lemma ZeroStartAgreesIff(run: Run, r: PipelineRun)
    requires run.startedAt == Some(0)
    requires r.durationMs == if run.updatedAt > 0 then Milliseconds(Sub(run.updatedAt, 0)) else 0
    requires r.queueTimeMs == if run.createdAt < 0 then Milliseconds(Sub(0, run.createdAt)) else 0
    ensures r.durationMs == RunDurationMs(run) <==>
            var u, c := run.updatedAt, run.createdAt;
            if u < 1_000_000 then u < c + 1_000_000
            else if u < LONGEST * 1_000_000 then u % 1_000_000 - 1_000_000 < c <= u % 1_000_000
            else c <= u - LONGEST * 1_000_000
    ensures r.queueTimeMs == QueueTimeMs(run) <==> run.createdAt > -1_000_000
  {
    ZeroStartDurations(run.updatedAt, run.createdAt);
  }

  lemma ZeroStartDurations(u: int, c: int)
    ensures (if u > 0 then Milliseconds(Sub(u, 0)) else 0) == (if u < c then 0 else Milliseconds(Sub(u, c))) <==>
            if u < 1_000_000 then u < c + 1_000_000
            else if u < LONGEST * 1_000_000 then u % 1_000_000 - 1_000_000 < c <= u % 1_000_000
            else c <= u - LONGEST * 1_000_000
  {
  }

  /** Queue time and duration split the elapsed time, up to one millisecond lost to truncation. */
  lemma ElapsedSplits(run: Run)
    requires run.startedAt.Some? && run.startedAt.value != 0
    requires run.createdAt <= run.startedAt.value <= run.updatedAt <= run.createdAt + MAX
    ensures var elapsed := Milliseconds(Sub(run.updatedAt, run.createdAt));
            QueueTimeMs(run) + RunDurationMs(run) <= elapsed <= QueueTimeMs(run) + RunDurationMs(run) + 1
  {
  }

  // ----- Comparing two periods -----

  datatype Period = Period(from: int, to: int)

  datatype Comparison = Rejected(error: Transport.ToolError) | Compared(snapshot: Snapshot)

  /** Simple case folding: the representative of each character. */
  type Folding = char -> char

  /** `strings.EqualFold` for names in any script. */
  predicate SameName(fold: Folding, a: string, b: string) {
    |a| == |b| && forall i :: 0 <= i < |a| ==> fold(a[i]) == fold(b[i])
  }

  predicate InWorkflow(fold: Folding, run: Run, workflow: string) {
    SameName(fold, run.name, workflow) || SameName(fold, run.displayTitle, workflow)
  }

  function Filtered(fold: Folding, runs: seq<Run>, workflow: string): seq<Run> {
    if runs == [] then []
    else
      var last := runs[|runs| - 1];
      Filtered(fold, runs[..|runs| - 1], workflow) +
      (if Blank(workflow) || InWorkflow(fold, last, TrimSpace(workflow)) then [last] else [])
  }

  method FilterByWorkflow(fold: Folding, runs: seq<Run>, workflow: string) returns (filtered: seq<Run>)
    ensures filtered == Filtered(fold, runs, workflow)
  {
    hide TrimSpace, SameName;
    var name := TrimSpace(workflow);
    if name == "" {
      FilterBlank(fold, runs, workflow);
      return runs;
    }
    filtered := [];
    for i := 0 to |runs|
      invariant filtered == Filtered(fold, runs[..i], workflow)
    {
      assert runs[..i + 1][..i] == runs[..i];
      if SameName(fold, runs[i].name, name) || SameName(fold, runs[i].displayTitle, name) {
        filtered := filtered + [runs[i]];
      }
    }
    assert runs[..|runs|] == runs;
  }

  /** A blank workflow name keeps every run. */
  lemma {:induction false} FilterBlank(fold: Folding, runs: seq<Run>, workflow: string)
    requires Blank(workflow)
    ensures Filtered(fold, runs, workflow) == runs
  {
    hide InWorkflow, Blank;
    if runs != [] { FilterBlank(fold, runs[..|runs| - 1], workflow); }
  }

  lemma {:induction false} FilterAppend(fold: Folding, a: seq<Run>, b: seq<Run>, workflow: string)
    ensures Filtered(fold, a + b, workflow) == Filtered(fold, a, workflow) + Filtered(fold, b, workflow)
  {
    hide InWorkflow, Blank;
    if b == [] {
      assert a + b == a;
    } else {
      var n := |b| - 1;
      assert (a + b)[..|a| + n] == a + b[..n];
      FilterAppend(fold, a, b[..n], workflow);
    }
  }

  /** The filter keeps exactly the runs whose name or title is the workflow's. */
  lemma {:induction false} FilterExact(fold: Folding, runs: seq<Run>, workflow: string, run: Run)
    ensures run in Filtered(fold, runs, workflow) <==>
            run in runs && (Blank(workflow) || SameName(fold, run.name, TrimSpace(workflow)) ||
                            SameName(fold, run.displayTitle, TrimSpace(workflow)))
  {
    hide SameName, Blank, TrimSpace;
    if runs != [] {
      var n := |runs| - 1;
      FilterExact(fold, runs[..n], workflow, run);
      assert runs == runs[..n] + [runs[n]];
    }
  }

  /** A period as it is printed in a request, to the second. */
  function InSeconds(period: Period): Period {
    Period(period.from / 1_000_000_000, period.to / 1_000_000_000)
  }

  /** The period of equal length that ends where this one starts. */
  function Baseline(period: Period): Period {
    Period(period.from - Sub(period.to, period.from), period.from)
  }

  function CompareOf(fold: Folding, list: Period -> Fetched<seq<Run>>, workflow: string, period: Period): Comparison {
    if period.to <= period.from then Rejected(Transport.ToolError(Transport.INVALID_INPUT, false))
    else
      match list(InSeconds(period))
      case Failed(error) => Rejected(Transport.MapError(error))
      case Got(current) =>
        match list(InSeconds(Baseline(period)))
        case Failed(error) => Rejected(Transport.MapError(error))
        case Got(baseline) => Compared(SnapshotOf(Filtered(fold, current, workflow), Filtered(fold, baseline, workflow)))
  }

  method ComparePerformance(fold: Folding, list: Period -> Fetched<seq<Run>>, workflow: string, from: int, to: int)
    returns (r: Comparison)
    ensures r == CompareOf(fold, list, workflow, Period(from, to))
  {
    hide Metrics, SnapshotOf, Filtered;
    if to < from || to == from { return Rejected(Transport.ToolError(Transport.INVALID_INPUT, false)); }
    var duration := Sub(to, from);
    var baselineFrom := from + (0 - duration);
    var baselineTo := from;
    var current := list(InSeconds(Period(from, to)));
    if current.Failed? { return Rejected(Transport.MapError(current.error)); }
    var baseline := list(InSeconds(Period(baselineFrom, baselineTo)));
    if baseline.Failed? { return Rejected(Transport.MapError(baseline.error)); }
    var currentRuns := FilterByWorkflow(fold, current.value, workflow);
    var baselineRuns := FilterByWorkflow(fold, baseline.value, workflow);
    var snapshot := BuildPerformanceSnapshot(currentRuns, baselineRuns);
    r := Compared(snapshot);
  }

  /** The baseline ends where the period starts; it is as long exactly when the length is a
      representable duration, and shorter otherwise. */
  lemma BaselineLength(period: Period)
    requires period.from < period.to
    ensures var b := Baseline(period);
            && b.to == period.from && b.from < b.to
            && (b.to - b.from == period.to - period.from <==> period.to - period.from <= MAX)
            && b.to - b.from <= period.to - period.from
            && InSeconds(b).to == InSeconds(period).from && InSeconds(b).from <= InSeconds(b).to
  {
  }

  /** The requests of a comparison: both periods in whole seconds, one from the other's start. */
  lemma RequestsAre(period: Period)
    requires period.from < period.to && period.to - period.from <= MAX
    ensures var now, before := InSeconds(period), InSeconds(Baseline(period));
            && now.from * 1_000_000_000 <= period.from < (now.from + 1) * 1_000_000_000
            && now.to * 1_000_000_000 <= period.to < (now.to + 1) * 1_000_000_000
            && before.to == now.from
            && before.from * 1_000_000_000 <= 2 * period.from - period.to < (before.from + 1) * 1_000_000_000
  {
  }

  /** What is compared: the runs of the workflow in the period, as current, and those in the
      baseline period; both lists must have been fetched. */
  lemma ComparisonMeans(fold: Folding, list: Period -> Fetched<seq<Run>>, workflow: string, period: Period)
    ensures var r, now, before := CompareOf(fold, list, workflow, period), list(InSeconds(period)), list(InSeconds(Baseline(period)));
            && (r.Compared? <==> period.from < period.to && now.Got? && before.Got?)
            && (r.Compared? ==>
                  && r.snapshot.current == Metrics(Filtered(fold, now.value, workflow))
                  && r.snapshot.baseline == Metrics(Filtered(fold, before.value, workflow)))
            && (period.to <= period.from ==> r.Rejected? && r.error.code == Transport.INVALID_INPUT && !r.error.retryable)
  {
    hide Metrics, Filtered;
  }

  /** Comparing one period after another of the same length: the earlier result's current
      metrics are the later one's baseline. */
  lemma ComparisonsChain(fold: Folding, list: Period -> Fetched<seq<Run>>, workflow: string, period: Period)
    requires 0 < period.to - period.from <= MAX
    ensures var next := Period(period.to, period.to + (period.to - period.from));
            var a, b := CompareOf(fold, list, workflow, period), CompareOf(fold, list, workflow, next);
            a.Compared? && b.Compared? ==> b.snapshot.baseline == a.snapshot.current
  {
    hide Metrics, Filtered;
    assert Baseline(Period(period.to, period.to + (period.to - period.from))) == period;
  }
}
