/**
Window metrics over a list of runs: durations, median, queue time, the breakdown of
failures and the flaky-commit rate. Times are nanoseconds since the zero time.
*/
module Performance {
  import opened Regex
  import opened Text
  import opened Int64
  import opened Sorting

  datatype Run = Run(
    id: int, name: string, displayTitle: string, status: string, conclusion: string, headSha: string,
    createdAt: int, updatedAt: int, startedAt: Option<int>)

  /** `time.Time.Sub`: the difference, saturated at the range of a duration. */
  function Sub(a: int, b: int): int {
    if a - b > MAX then MAX else if a - b < MIN then MIN else a - b
  }

  function RunDurationMs(run: Run): int {
    var start := if run.startedAt.Some? && run.startedAt.value != 0 then run.startedAt.value else run.createdAt;
    if run.updatedAt < start then 0 else Milliseconds(Sub(run.updatedAt, start))
  }

  function QueueTimeMs(run: Run): int {
    if run.startedAt.None? || run.startedAt.value == 0 then 0
    else if run.startedAt.value < run.createdAt then 0
    else Milliseconds(Sub(run.startedAt.value, run.createdAt))
  }

  /** The longest duration a window can hold, in milliseconds. */
  const LONGEST: int := 9_223_372_036_854

  lemma TimesBounded(run: Run)
    ensures 0 <= RunDurationMs(run) <= LONGEST && 0 <= QueueTimeMs(run) <= LONGEST
  {
  }

  predicate Succeeded(run: Run) { EqualFold(run.conclusion, "success") }

  function ClassifyRunFailure(run: Run): string {
    var conclusion := ToLower(TrimSpace(run.conclusion));
    if conclusion == "timed_out" || conclusion == "cancelled" then "infra_timeout"
    else if conclusion == "startup_failure" || conclusion == "action_required" then "config_error"
    else if conclusion == "failure" then "test_or_build_failure"
    else if conclusion == "stale" then "stale"
    else if conclusion == "" then "unknown"
    else conclusion
  }

  // ----- Specification -----

  function Durations(runs: seq<Run>): (r: seq<int>)
    ensures |r| == |runs|
  {
    if runs == [] then [] else Durations(runs[..|runs| - 1]) + [RunDurationMs(runs[|runs| - 1])]
  }

  function TotalQueue(runs: seq<Run>): int {
    if runs == [] then 0 else TotalQueue(runs[..|runs| - 1]) + QueueTimeMs(runs[|runs| - 1])
  }

  function Successes(runs: seq<Run>): nat {
    if runs == [] then 0 else Successes(runs[..|runs| - 1]) + (if Succeeded(runs[|runs| - 1]) then 1 else 0)
  }

  function FailuresOf(class_: string, runs: seq<Run>): nat {
    if runs == [] then 0
    else FailuresOf(class_, runs[..|runs| - 1]) +
         (if !Succeeded(runs[|runs| - 1]) && ClassifyRunFailure(runs[|runs| - 1]) == class_ then 1 else 0)
  }

  function Bump(m: map<string, nat>, k: string): map<string, nat> {
    m[k := (if k in m then m[k] else 0) + 1]
  }

  function Breakdown(runs: seq<Run>): map<string, nat> {
    if runs == [] then map[]
    else
      var m := Breakdown(runs[..|runs| - 1]);
      var run := runs[|runs| - 1];
      if Succeeded(run) then m else Bump(m, ClassifyRunFailure(run))
  }

  /** The commits with a run of that lower-cased conclusion. */
  function ShasWith(outcome: string, runs: seq<Run>): set<string> {
    if runs == [] then {}
    else
      var run := runs[|runs| - 1];
      ShasWith(outcome, runs[..|runs| - 1]) + (if ToLower(run.conclusion) == outcome then {run.headSha} else {})
  }

  function FlakyShas(runs: seq<Run>): set<string> {
    set sha | sha in ShasWith("failure", runs) && sha in ShasWith("success", runs) && !Blank(sha)
  }

  function Median(sorted: seq<int>): int
    requires sorted != []
  {
    var n := |sorted|;
    if n % 2 == 0 then TruncDiv(sorted[n / 2 - 1] + sorted[n / 2], 2) else sorted[n / 2]
  }

  datatype WindowMetrics = WindowMetrics(
    successRate: real, medianDurationMs: int, queueTimeMs: int,
    failureBreakdown: map<string, nat>, flakyTestRate: real, totalRuns: nat)

  function Metrics(runs: seq<Run>): WindowMetrics {
    var n := |runs|;
    if n == 0 then WindowMetrics(0.0, 0, 0, map[], 0.0, 0)
    else
      WindowMetrics(
        Successes(runs) as real / n as real,
        Median(SortInts(Durations(runs))),
        TruncDiv(Wrap(TotalQueue(runs)), n),
        Breakdown(runs),
        |FlakyShas(runs)| as real / n as real,
        n)
  }

  // ----- The computation -----

  predicate Recorded(shaOutcomes: map<string, set<string>>, sha: string, outcome: string) {
    sha in shaOutcomes && outcome in shaOutcomes[sha]
  }

  ghost predicate TracksOutcomes(shaOutcomes: map<string, set<string>>, runs: seq<Run>) {
    forall sha, outcome ::
      Recorded(shaOutcomes, sha, outcome) <==> sha in ShasWith(outcome, runs) && !Blank(sha)
  }

  /** The loop over the runs. */
  method Accumulate(runs: seq<Run>)
    returns (durations: seq<int>, successCount: nat, totalQueueTime: int,
             failureBreakdown: map<string, nat>, shaOutcomes: map<string, set<string>>)
    ensures durations == Durations(runs) && totalQueueTime == Wrap(TotalQueue(runs))
    ensures successCount == Successes(runs) && failureBreakdown == Breakdown(runs)
    ensures TracksOutcomes(shaOutcomes, runs)
  {
    hide *;
    durations, successCount, totalQueueTime, failureBreakdown, shaOutcomes := [], 0, 0, map[], map[];
    NoRuns(runs);
    for i := 0 to |runs|
      invariant durations == Durations(runs[..i]) && totalQueueTime == Wrap(TotalQueue(runs[..i]))
      invariant successCount == Successes(runs[..i]) && failureBreakdown == Breakdown(runs[..i])
      invariant TracksOutcomes(shaOutcomes, runs[..i])
    {
      var run := runs[i];
      OneMoreRun(runs, i);
      WrapAdd(TotalQueue(runs[..i]), QueueTimeMs(run));
      durations := durations + [RunDurationMs(run)];
      totalQueueTime := Wrap(totalQueueTime + QueueTimeMs(run));
      if EqualFold(run.conclusion, "success") {
        successCount := successCount + 1;
      } else {
        failureBreakdown := Bump(failureBreakdown, ClassifyRunFailure(run));
      }
      OneMoreOutcome(shaOutcomes, runs, i);
      RecordIs(shaOutcomes, run.headSha, ToLower(run.conclusion));
      if TrimSpace(run.headSha) != "" {
        if run.headSha !in shaOutcomes {
          shaOutcomes := shaOutcomes[run.headSha := {}];
        }
        shaOutcomes := shaOutcomes[run.headSha := shaOutcomes[run.headSha] + {ToLower(run.conclusion)}];
      }
    }
    assert runs[..|runs|] == runs;
  }

  method CalculateWindowMetrics(runs: seq<Run>) returns (metrics: WindowMetrics)
    ensures metrics == Metrics(runs)
  {
    hide *;
    if |runs| == 0 {
      EmptyMetrics(runs);
      return WindowMetrics(0.0, 0, 0, map[], 0.0, 0);
    }
    var durations, successCount, totalQueueTime, failureBreakdown, shaOutcomes := Accumulate(runs);
    assert |durations| == |runs|;
    durations := SortInts(durations);
    var median := durations[|durations| / 2];
    if |durations| % 2 == 0 {
      median := TruncDiv(Wrap(durations[|durations| / 2 - 1] + durations[|durations| / 2]), 2);
    }
    MedianNoWrap(runs);
    var flakyCandidates := CountFlaky(shaOutcomes);
    TrackedFlaky(shaOutcomes, runs);
    var total := |runs|;
    MetricsOf(runs, median, flakyCandidates);
    metrics := WindowMetrics(
      successCount as real / total as real, median, TruncDiv(totalQueueTime, total),
      failureBreakdown, flakyCandidates as real / total as real, total);
  }

  /** The final loop over the commits, in any order. */
  method CountFlaky(shaOutcomes: map<string, set<string>>) returns (flakyCandidates: nat)
    ensures flakyCandidates == |set sha | sha in shaOutcomes && "failure" in shaOutcomes[sha] && "success" in shaOutcomes[sha]|
  {
    var shas := shaOutcomes.Keys;
    flakyCandidates := 0;
    ghost var counted: set<string> := {};
    while shas != {}
      invariant shas <= shaOutcomes.Keys && flakyCandidates == |counted|
      invariant counted == set sha | sha in shaOutcomes.Keys - shas && "failure" in shaOutcomes[sha] && "success" in shaOutcomes[sha]
    {
      var sha :| sha in shas;
      if "failure" in shaOutcomes[sha] && "success" in shaOutcomes[sha] {
        flakyCandidates := flakyCandidates + 1;
        counted := counted + {sha};
      }
      shas := shas - {sha};
    }
    assert counted == set sha | sha in shaOutcomes && "failure" in shaOutcomes[sha] && "success" in shaOutcomes[sha];
  }

  lemma NoRuns(runs: seq<Run>)
    ensures runs[..0] == [] && Durations([]) == [] && Wrap(TotalQueue([])) == 0 && Successes([]) == 0
    ensures Breakdown([]) == map[] && TracksOutcomes(map[], [])
  {
  }

  lemma OneMoreRun(runs: seq<Run>, i: nat)
    requires i < |runs|
    ensures var rs, rs', run := runs[..i], runs[..i + 1], runs[i];
            && Durations(rs') == Durations(rs) + [RunDurationMs(run)]
            && TotalQueue(rs') == TotalQueue(rs) + QueueTimeMs(run)
            && Successes(rs') == Successes(rs) + (if EqualFold(run.conclusion, "success") then 1 else 0)
            && Breakdown(rs') == (if EqualFold(run.conclusion, "success") then Breakdown(rs) else Bump(Breakdown(rs), ClassifyRunFailure(run)))
  {
    hide RunDurationMs, QueueTimeMs, EqualFold, ClassifyRunFailure, Bump;
    assert runs[..i + 1][..i] == runs[..i];
  }

  /** The map after one run of the commit `sha`. */
  function Record(m: map<string, set<string>>, sha: string, outcome: string): map<string, set<string>> {
    var entered := if sha !in m then m[sha := {}] else m;
    if TrimSpace(sha) != "" then entered[sha := entered[sha] + {outcome}] else m
  }

  lemma RecordIs(m: map<string, set<string>>, sha: string, outcome: string)
    ensures var entered := if sha !in m then m[sha := {}] else m;
            Record(m, sha, outcome) == if TrimSpace(sha) != "" then entered[sha := entered[sha] + {outcome}] else m
  {
  }

  lemma RecordedAfter(m: map<string, set<string>>, sha: string, outcome: string, sha': string, outcome': string)
    ensures Recorded(Record(m, sha, outcome), sha', outcome') <==>
            Recorded(m, sha', outcome') || (sha' == sha && outcome' == outcome && !Blank(sha))
  {
    hide TrimSpace;
  }

  lemma OneMoreOutcome(before: map<string, set<string>>, runs: seq<Run>, i: nat)
    requires i < |runs| && TracksOutcomes(before, runs[..i])
    ensures TracksOutcomes(Record(before, runs[i].headSha, ToLower(runs[i].conclusion)), runs[..i + 1])
  {
    var rs, run := runs[..i], runs[i];
    var after := Record(before, run.headSha, ToLower(run.conclusion));
    assert runs[..i + 1][..i] == rs;
    hide Record, Recorded, ToLower, Blank;
    forall sha, outcome
      ensures Recorded(after, sha, outcome) <==> sha in ShasWith(outcome, runs[..i + 1]) && !Blank(sha)
    {
      RecordedAfter(before, run.headSha, ToLower(run.conclusion), sha, outcome);
      assert ShasWith(outcome, runs[..i + 1]) ==
             ShasWith(outcome, rs) + (if ToLower(run.conclusion) == outcome then {run.headSha} else {});
      assert Recorded(before, sha, outcome) <==> sha in ShasWith(outcome, rs) && !Blank(sha);
    }
  }

  lemma TrackedFlaky(shaOutcomes: map<string, set<string>>, runs: seq<Run>)
    requires TracksOutcomes(shaOutcomes, runs)
    ensures (set sha | sha in shaOutcomes && "failure" in shaOutcomes[sha] && "success" in shaOutcomes[sha]) == FlakyShas(runs)
  {
    hide ShasWith, Blank;
    forall sha ensures sha in FlakyShas(runs) <==>
                       Recorded(shaOutcomes, sha, "failure") && Recorded(shaOutcomes, sha, "success") {
    }
  }

  lemma EmptyMetrics(runs: seq<Run>)
    requires runs == []
    ensures Metrics(runs) == WindowMetrics(0.0, 0, 0, map[], 0.0, 0)
  {
  }

  lemma MetricsOf(runs: seq<Run>, median: int, flaky: nat)
    requires runs != [] && median == Median(SortInts(Durations(runs))) && flaky == |FlakyShas(runs)|
    ensures Metrics(runs) == WindowMetrics(
              Successes(runs) as real / |runs| as real, median, TruncDiv(Wrap(TotalQueue(runs)), |runs|),
              Breakdown(runs), flaky as real / |runs| as real, |runs|)
  {
    hide Median, SortInts, Durations, FlakyShas, TotalQueue, Breakdown, Successes, Wrap, TruncDiv;
  }

  // ----- No overflow -----

  lemma {:induction false} DurationsBounded(runs: seq<Run>)
    ensures forall i :: 0 <= i < |runs| ==> 0 <= Durations(runs)[i] <= LONGEST
    ensures 0 <= TotalQueue(runs) <= |runs| * LONGEST
  {
    if runs != [] {
      hide RunDurationMs, QueueTimeMs;
      var n := |runs| - 1;
      DurationsBounded(runs[..n]);
      TimesBounded(runs[n]);
      assert |runs| * LONGEST == n * LONGEST + LONGEST;
    }
  }

  lemma SortedDurationsBounded(runs: seq<Run>)
    ensures forall i :: 0 <= i < |runs| ==> 0 <= SortInts(Durations(runs))[i] <= LONGEST
  {
    hide Durations, SortInts;
    DurationsBounded(runs);
    var d := Durations(runs);
    var s := SortInts(d);
    forall i | 0 <= i < |s| ensures 0 <= s[i] <= LONGEST {
      assert s[i] in multiset(s);
      assert s[i] in d;
    }
  }

  /** The addition inside the median never overflows. */
  lemma MedianNoWrap(runs: seq<Run>)
    requires runs != []
    ensures var s := SortInts(Durations(runs));
            Median(s) == if |s| % 2 == 0 then TruncDiv(Wrap(s[|s| / 2 - 1] + s[|s| / 2]), 2) else s[|s| / 2]
  {
    hide Durations, SortInts, TruncDiv;
    SortedDurationsBounded(runs);
  }

  /** Up to a million runs the queue total does not overflow, and the average is exact;
      a window never has more than a thousand. */
  lemma QueueAverageIsExact(runs: seq<Run>)
    requires 0 < |runs| <= 1_000_000
    ensures Metrics(runs).queueTimeMs == TotalQueue(runs) / |runs|
    ensures 0 <= Metrics(runs).queueTimeMs <= LONGEST
  {
    hide *;
    DurationsBounded(runs);
    QueueQuotient(runs);
  }

  /** For any number of runs: the average queue time is the quotient of the exact total
      precisely when that total fits int64. */
  lemma QueueAverageExactIff(runs: seq<Run>)
    requires 0 < |runs| <= MAX
    ensures Metrics(runs).queueTimeMs == TruncDiv(TotalQueue(runs), |runs|) <==> Fits(TotalQueue(runs))
  {
    hide TotalQueue, Durations, Breakdown, FlakyShas, Median, SortInts, Successes, TruncDiv, Wrap, Fits;
    WrappedQuotient(TotalQueue(runs), |runs|);
  }

  lemma QueueQuotient(runs: seq<Run>)
    requires 0 < |runs| <= 1_000_000 && 0 <= TotalQueue(runs) <= |runs| * LONGEST
    ensures Metrics(runs).queueTimeMs == TotalQueue(runs) / |runs|
    ensures 0 <= Metrics(runs).queueTimeMs <= LONGEST
  {
    hide TotalQueue, Durations, Breakdown, FlakyShas, Median, SortInts, Successes;
    MulMonotone(|runs|, 1_000_000, LONGEST);
    TruncDivBounds(TotalQueue(runs), |runs|, 0, LONGEST);
  }

  // ----- Snapshots -----

  datatype Delta = Delta(successRate: real, medianDurationMs: int, queueTimeMs: int, flakyTestRate: real)

  datatype Snapshot = Snapshot(baseline: WindowMetrics, current: WindowMetrics, delta: Delta)

  function SnapshotOf(currentRuns: seq<Run>, baselineRuns: seq<Run>): Snapshot {
    var current, baseline := Metrics(currentRuns), Metrics(baselineRuns);
    Snapshot(baseline, current,
             Delta(current.successRate - baseline.successRate,
                   current.medianDurationMs - baseline.medianDurationMs,
                   current.queueTimeMs - baseline.queueTimeMs,
                   current.flakyTestRate - baseline.flakyTestRate))
  }

  method BuildPerformanceSnapshot(currentRuns: seq<Run>, baselineRuns: seq<Run>) returns (snapshot: Snapshot)
    ensures snapshot == SnapshotOf(currentRuns, baselineRuns)
  {
    var current := CalculateWindowMetrics(currentRuns);
    var baseline := CalculateWindowMetrics(baselineRuns);
    snapshot := Snapshot(baseline, current,
                         Delta(current.successRate - baseline.successRate,
                               current.medianDurationMs - baseline.medianDurationMs,
                               current.queueTimeMs - baseline.queueTimeMs,
                               current.flakyTestRate - baseline.flakyTestRate));
  }
}
