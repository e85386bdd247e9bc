/**
Laws of the window metrics: conservation of outcomes, the flaky-commit bound, the
meaning of the median, and independence of the order of the runs.
*/
module PerformanceLaws {
  import opened Text
  import opened Int64
  import opened Sorting
  import opened Performance

  // ----- Conservation -----

  /** The sum of the values of a map. */
  ghost function Total(m: map<string, nat>): nat {
    if m == map[] then 0
    else
      var k :| k in m;
      m[k] + Total(m - {k})
  }

  lemma {:induction false} TotalWithout(m: map<string, nat>, k: string)
    requires k in m
    ensures Total(m) == m[k] + Total(m - {k})
    decreases |m|
  {
    var j :| j in m && Total(m) == m[j] + Total(m - {j});
    if j != k {
      TotalWithout(m - {j}, k);
      TotalWithout(m - {k}, j);
      assert m - {j} - {k} == m - {k} - {j};
    }
  }

  lemma BumpTotal(m: map<string, nat>, k: string)
    ensures Total(Bump(m, k)) == Total(m) + 1
  {
    var b := Bump(m, k);
    TotalWithout(b, k);
    assert b - {k} == m - {k};
    if k in m { TotalWithout(m, k); } else { assert m - {k} == m; }
  }

  /** Every run is counted once: as a success or in one class of the breakdown. */
  lemma {:induction false} OutcomesConserved(runs: seq<Run>)
    ensures Successes(runs) + Total(Metrics(runs).failureBreakdown) == Metrics(runs).totalRuns
  {
    BreakdownTotal(runs);
  }

  lemma {:induction false} BreakdownTotal(runs: seq<Run>)
    ensures Successes(runs) + Total(Breakdown(runs)) == |runs|
  {
    if runs != [] {
      hide Succeeded, ClassifyRunFailure, Bump;
      BreakdownTotal(runs[..|runs| - 1]);
      BumpTotal(Breakdown(runs[..|runs| - 1]), ClassifyRunFailure(runs[|runs| - 1]));
    }
  }

  /** Each class of the breakdown holds the number of failed runs of that class. */
  lemma {:induction false} BreakdownCounts(runs: seq<Run>, k: string)
    ensures k in Breakdown(runs) <==> FailuresOf(k, runs) > 0
    ensures k in Breakdown(runs) ==> Breakdown(runs)[k] == FailuresOf(k, runs)
  {
    if runs != [] {
      hide Succeeded, ClassifyRunFailure;
      BreakdownCounts(runs[..|runs| - 1], k);
    }
  }

  lemma {:induction false} ClassWithinFailures(runs: seq<Run>, k: string)
    ensures FailuresOf(k, runs) + Successes(runs) <= |runs|
  {
    if runs != [] {
      hide Succeeded, ClassifyRunFailure;
      ClassWithinFailures(runs[..|runs| - 1], k);
    }
  }

  // ----- Flaky commits -----

  lemma LowerSuccessSucceeds(run: Run)
    requires ToLower(run.conclusion) == "success"
    ensures Succeeded(run)
  {
    var c, s := run.conclusion, "success";
    forall i | 0 <= i < |c| ensures FoldChar(c[i]) == FoldChar(s[i]) {
      assert LowerChar(c[i]) == s[i] && s[i] in {'s', 'u', 'c', 'e'};
    }
  }

  lemma LowerFailureIsClassified(run: Run)
    requires ToLower(run.conclusion) == "failure"
    ensures !Succeeded(run) && ClassifyRunFailure(run) == "test_or_build_failure"
  {
    var c := run.conclusion;
    assert ToLower(c)[0] == LowerChar(c[0]) == 'f';
    assert ToLower(c)[6] == LowerChar(c[6]) == 'e';
    assert FoldChar("success"[0]) == 's';
    TrimIdle(c);
  }

  lemma {:induction false} ShasWithSuccess(runs: seq<Run>)
    ensures |ShasWith("success", runs)| <= Successes(runs)
  {
    if runs != [] {
      var run := runs[|runs| - 1];
      ShasWithSuccess(runs[..|runs| - 1]);
      if ToLower(run.conclusion) == "success" { LowerSuccessSucceeds(run); }
      hide ToLower, Succeeded;
      AddOne(ShasWith("success", runs[..|runs| - 1]), run.headSha);
    }
  }

  lemma {:induction false} ShasWithFailure(runs: seq<Run>)
    ensures |ShasWith("failure", runs)| <= FailuresOf("test_or_build_failure", runs)
  {
    if runs != [] {
      var run := runs[|runs| - 1];
      ShasWithFailure(runs[..|runs| - 1]);
      if ToLower(run.conclusion) == "failure" { LowerFailureIsClassified(run); }
      hide ToLower, Succeeded, ClassifyRunFailure;
      AddOne(ShasWith("failure", runs[..|runs| - 1]), run.headSha);
    }
  }

  lemma AddOne(s: set<string>, x: string)
    ensures |s + {x}| <= |s| + 1
    ensures |s + {}| == |s|
  {
    assert s + {} == s;
    if x in s { assert s + {x} == s; }
  }

  /** Every flaky commit has a successful run and a test-or-build failure of its own, so
      at most half of the runs are flaky commits. */
  lemma FlakyBound(runs: seq<Run>)
    ensures |FlakyShas(runs)| <= Successes(runs)
    ensures |FlakyShas(runs)| <= FailuresOf("test_or_build_failure", runs)
    ensures 2 * |FlakyShas(runs)| <= |runs|
    ensures 0.0 <= Metrics(runs).flakyTestRate <= 0.5
    ensures 0.0 <= Metrics(runs).successRate <= 1.0
  {
    FlakyCounts(runs);
    RatesInRange(runs);
  }

  lemma FlakyCounts(runs: seq<Run>)
    ensures |FlakyShas(runs)| <= Successes(runs)
    ensures |FlakyShas(runs)| <= FailuresOf("test_or_build_failure", runs)
    ensures 2 * |FlakyShas(runs)| <= |runs|
  {
    hide ShasWith, Blank, FailuresOf, Successes;
    ShasWithSuccess(runs);
    ShasWithFailure(runs);
    SubsetSize(FlakyShas(runs), ShasWith("success", runs));
    SubsetSize(FlakyShas(runs), ShasWith("failure", runs));
    ClassWithinFailures(runs, "test_or_build_failure");
  }

  lemma RatesInRange(runs: seq<Run>)
    requires 2 * |FlakyShas(runs)| <= |runs|
    ensures 0.0 <= Metrics(runs).flakyTestRate <= 0.5
    ensures 0.0 <= Metrics(runs).successRate <= 1.0
  {
    hide *;
    RatesAre(runs);
    if runs != [] {
      ClassWithinFailures(runs, "");
      Quotient(|FlakyShas(runs)| as real, |runs| as real, 0.5);
      Quotient(Successes(runs) as real, |runs| as real, 1.0);
    }
  }

  lemma RatesAre(runs: seq<Run>)
    ensures runs == [] ==> Metrics(runs).flakyTestRate == 0.0 && Metrics(runs).successRate == 0.0
    ensures runs != [] ==> Metrics(runs).flakyTestRate == |FlakyShas(runs)| as real / |runs| as real
    ensures runs != [] ==> Metrics(runs).successRate == Successes(runs) as real / |runs| as real
  {
    hide FlakyShas, Durations, TotalQueue, Breakdown, Successes, Median, SortInts;
  }

  lemma Quotient(x: real, n: real, q: real)
    requires 0.0 < n && 0.0 <= x <= q * n
    ensures 0.0 <= x / n <= q
  {
  }

  // ----- The median -----

  /** The median is the truncated mean of the elements of the two middle ranks (the same
      rank when their number is odd). */
  lemma MedianRanks(runs: seq<Run>) returns (low: int, high: int)
    requires runs != []
    ensures HasRank(Durations(runs), (|runs| - 1) / 2, low) && HasRank(Durations(runs), |runs| / 2, high)
    ensures low <= high && Metrics(runs).medianDurationMs == (low + high) / 2
    ensures low <= Metrics(runs).medianDurationMs <= high
  {
    var d := Durations(runs);
    var s := SortInts(d);
    SortedDurationsBounded(runs);
    hide Durations, SortInts, TotalQueue, Breakdown, FlakyShas, Successes, HasRank;
    SortedIndexHasRank(d, (|runs| - 1) / 2);
    SortedIndexHasRank(d, |runs| / 2);
    low, high := s[(|runs| - 1) / 2], s[|runs| / 2];
    assert 0 <= low;
    assert low <= high;
    assert |runs| % 2 == 0 ==> (|runs| - 1) / 2 == |runs| / 2 - 1;
    assert |runs| % 2 == 1 ==> (|runs| - 1) / 2 == |runs| / 2;
    assert Metrics(runs).medianDurationMs == Median(s);
  }

  /** The median lies between the shortest and the longest duration. */
  lemma MedianBetween(runs: seq<Run>, shortest: int, longest: int)
    requires runs != [] && forall i :: 0 <= i < |runs| ==> shortest <= Durations(runs)[i] <= longest
    ensures shortest <= Metrics(runs).medianDurationMs <= longest
  {
    var low, high := MedianRanks(runs);
    RankedIsBetween(Durations(runs), (|runs| - 1) / 2, low, shortest, longest);
    RankedIsBetween(Durations(runs), |runs| / 2, high, shortest, longest);
  }

  lemma {:induction false} RankedIsBetween(s: seq<int>, r: nat, x: int, shortest: int, longest: int)
    requires HasRank(s, r, x) && r < |s| && forall i :: 0 <= i < |s| ==> shortest <= s[i] <= longest
    ensures shortest <= x <= longest
  {
    SortedIndexHasRank(s, r);
    RankUnique(s, r, x, SortInts(s)[r]);
    assert SortInts(s)[r] in multiset(SortInts(s));
    assert SortInts(s)[r] in s;
  }

  // ----- Order of the runs -----

  lemma LastDropped(runs: seq<Run>)
    requires runs != []
    ensures var n := |runs| - 1; runs[..n] + runs[n + 1..] == runs[..n]
  {
  }

  /** How each component takes in one run more at any position. */
  lemma {:induction false} ComponentsWithout(runs: seq<Run>, k: nat, class_: string, outcome: string)
    requires k < |runs|
    ensures var rest := runs[..k] + runs[k + 1..];
            && TotalQueue(runs) == TotalQueue(rest) + QueueTimeMs(runs[k])
            && Successes(runs) == Successes(rest) + (if Succeeded(runs[k]) then 1 else 0)
            && FailuresOf(class_, runs) == FailuresOf(class_, rest) +
                 (if !Succeeded(runs[k]) && ClassifyRunFailure(runs[k]) == class_ then 1 else 0)
            && ShasWith(outcome, runs) == ShasWith(outcome, rest) + (if ToLower(runs[k].conclusion) == outcome then {runs[k].headSha} else {})
  {
    hide QueueTimeMs, Succeeded, ClassifyRunFailure, ToLower;
    if k == |runs| - 1 {
      LastDropped(runs);
    } else {
      ComponentsWithout(runs[..|runs| - 1], k, class_, outcome);
      WithoutLast(runs, k);
    }
  }

  lemma {:induction false} DurationsWithout(runs: seq<Run>, k: nat)
    requires k < |runs|
    ensures multiset(Durations(runs)) == multiset(Durations(runs[..k] + runs[k + 1..])) + multiset{RunDurationMs(runs[k])}
  {
    hide RunDurationMs;
    if k == |runs| - 1 {
      LastDropped(runs);
    } else {
      DurationsWithout(runs[..|runs| - 1], k);
      WithoutLast(runs, k);
    }
  }

  lemma DropZero<T>(s: seq<T>)
    requires s != []
    ensures s[..0] + s[0 + 1..] == s[1..]
  {
  }

  lemma {:induction false} ComponentsOfMultiset(a: seq<Run>, b: seq<Run>, class_: string, outcome: string)
    requires multiset(a) == multiset(b)
    ensures TotalQueue(a) == TotalQueue(b) && Successes(a) == Successes(b)
    ensures FailuresOf(class_, a) == FailuresOf(class_, b) && ShasWith(outcome, a) == ShasWith(outcome, b)
    ensures multiset(Durations(a)) == multiset(Durations(b))
    decreases |a|
  {
    hide *;
    if a == [] {
      assert |b| == |multiset(b)| == 0;
      assert a == b;
    } else {
      var k := FindHead(a, b);
      ComponentsOfMultiset(a[1..], b[..k] + b[k + 1..], class_, outcome);
      ComponentsWithout(a, 0, class_, outcome);
      DropZero(a);
      ComponentsWithout(b, k, class_, outcome);
      DurationsWithout(a, 0);
      DurationsWithout(b, k);
    }
  }

  /** The whole metrics value is the same for every order of the runs. */
  lemma MetricsIgnoreOrder(a: seq<Run>, b: seq<Run>)
    requires multiset(a) == multiset(b)
    ensures Metrics(a) == Metrics(b)
  {
    assert |a| == |multiset(a)| == |multiset(b)| == |b|;
    BreakdownIgnoresOrder(a, b);
    FlakyIgnoresOrder(a, b);
    ComponentsOfMultiset(a, b, "", "");
    SortPermutation(Durations(a), Durations(b));
    hide TotalQueue, Successes, Breakdown, FlakyShas, Durations, SortInts, Median;
  }

  lemma BreakdownIgnoresOrder(a: seq<Run>, b: seq<Run>)
    requires multiset(a) == multiset(b)
    ensures Breakdown(a) == Breakdown(b)
  {
    hide *;
    forall k ensures (k in Breakdown(a) <==> k in Breakdown(b)) && (k in Breakdown(a) ==> Breakdown(a)[k] == Breakdown(b)[k]) {
      ComponentsOfMultiset(a, b, k, "");
      BreakdownCounts(a, k);
      BreakdownCounts(b, k);
    }
  }

  lemma FlakyIgnoresOrder(a: seq<Run>, b: seq<Run>)
    requires multiset(a) == multiset(b)
    ensures FlakyShas(a) == FlakyShas(b)
  {
    ComponentsOfMultiset(a, b, "", "failure");
    ComponentsOfMultiset(a, b, "", "success");
    hide ShasWith, Blank;
  }

  /** Comparing windows the other way round negates every change. */
  lemma DeltaAntisymmetric(a: seq<Run>, b: seq<Run>)
    ensures var d, e := SnapshotOf(a, b).delta, SnapshotOf(b, a).delta;
            && d.successRate == -e.successRate && d.medianDurationMs == -e.medianDurationMs
            && d.queueTimeMs == -e.queueTimeMs && d.flakyTestRate == -e.flakyTestRate
    ensures multiset(a) == multiset(b) ==> SnapshotOf(a, b).delta == Delta(0.0, 0, 0, 0.0)
  {
    if multiset(a) == multiset(b) { MetricsIgnoreOrder(a, b); }
    hide Metrics;
  }

  // ----- What the times and the counts are -----

  /** `ms` is the whole milliseconds from `a` to `b`, nothing if `b` is not later, and the
      longest time that can be represented if they are further apart than that. */
  predicate IsSpan(ms: int, a: int, b: int) {
    if b <= a then ms == 0
    else if b - a > MAX then ms == 9_223_372_036_854
    else ms * 1_000_000 <= b - a < (ms + 1) * 1_000_000
  }

  /** Once started, a run was queued from creation to start and took from start to last update;
      before that it was not queued and took from creation on. */
  lemma TimesAreSpans(run: Run)
    ensures run.startedAt.Some? && run.startedAt.value != 0 ==>
              && IsSpan(RunDurationMs(run), run.startedAt.value, run.updatedAt)
              && IsSpan(QueueTimeMs(run), run.createdAt, run.startedAt.value)
    ensures run.startedAt.None? || run.startedAt.value == 0 ==>
              IsSpan(RunDurationMs(run), run.createdAt, run.updatedAt) && QueueTimeMs(run) == 0
  {
  }

  lemma {:induction false} DurationsAre(runs: seq<Run>)
    ensures forall i :: 0 <= i < |runs| ==> Durations(runs)[i] == RunDurationMs(runs[i])
  {
    hide RunDurationMs;
    if runs != [] { DurationsAre(runs[..|runs| - 1]); }
  }

  lemma {:induction false} QueueBetween(runs: seq<Run>, low: int, high: int)
    requires forall i :: 0 <= i < |runs| ==> low <= QueueTimeMs(runs[i]) <= high
    ensures |runs| * low <= TotalQueue(runs) <= |runs| * high
  {
    hide QueueTimeMs;
    if runs != [] {
      var n := |runs| - 1;
      QueueBetween(runs[..n], low, high);
      assert |runs| * low == n * low + low && |runs| * high == n * high + high;
    }
  }

  /** The average queue time lies between the shortest and the longest one. */
  lemma QueueAverageBetween(runs: seq<Run>, low: int, high: int)
    requires 0 < |runs| && Fits(TotalQueue(runs)) && |runs| <= MAX
    requires forall i :: 0 <= i < |runs| ==> low <= QueueTimeMs(runs[i]) <= high
    ensures low <= Metrics(runs).queueTimeMs <= high
  {
    hide QueueTimeMs, TotalQueue, Metrics;
    QueueBetween(runs, low, high);
    QueueAverageExactIff(runs);
    TruncDivBounds(TotalQueue(runs), |runs|, low, high);
  }

  predicate IsSuccess(run: Run) { EqualFold(run.conclusion, "success") }

  lemma {:induction false} SuccessesCounted(runs: seq<Run>)
    ensures Successes(runs) == Count(IsSuccess, runs)
  {
    if runs != [] {
      hide EqualFold;
      var n := |runs| - 1;
      SuccessesCounted(runs[..n]);
      CountSnoc(IsSuccess, runs[..n], runs[n]);
      assert runs == runs[..n] + [runs[n]];
    }
  }

  /** The success rate is the share of the runs whose conclusion is a success up to case. */
  lemma SuccessRateCounts(runs: seq<Run>)
    requires runs != []
    ensures Metrics(runs).successRate * |runs| as real ==
            |set i | 0 <= i < |runs| && EqualFold(runs[i].conclusion, "success")| as real
  {
    hide Successes, EqualFold, Metrics, Count;
    SuccessesCounted(runs);
    var at := CountIs(IsSuccess, runs);
    assert at == set i | 0 <= i < |runs| && EqualFold(runs[i].conclusion, "success");
    SuccessShare(runs);
  }

  lemma SuccessShare(runs: seq<Run>)
    requires runs != []
    ensures Metrics(runs).successRate * |runs| as real == Successes(runs) as real
  {
    hide *;
    RatesAre(runs);
    ShareTimes(Successes(runs) as real, |runs| as real);
  }

  lemma ShareTimes(x: real, n: real)
    requires n > 0.0
    ensures x / n * n == x
  {
  }

  /** The class of a failed run, by its conclusion without outer spaces and in lower case. */
  lemma ClassesAre(run: Run)
    ensures var c, k := ToLower(TrimSpace(run.conclusion)), ClassifyRunFailure(run);
            && (k == "infra_timeout" <==> c == "timed_out" || c == "cancelled" || c == "infra_timeout")
            && (k == "config_error" <==> c == "startup_failure" || c == "action_required" || c == "config_error")
            && (k == "test_or_build_failure" <==> c == "failure" || c == "test_or_build_failure")
            && (k == "unknown" <==> c == "" || c == "unknown")
            && (k == c || k == "infra_timeout" || k == "config_error" || k == "test_or_build_failure" || k == "unknown")
  {
    hide TrimSpace, ToLower;
  }

  lemma FailuresStep(runs: seq<Run>, class_: string)
    requires runs != []
    ensures var n := |runs| - 1;
            FailuresOf(class_, runs) == FailuresOf(class_, runs[..n]) + (if InClass(class_)(runs[n]) then 1 else 0)
  {
    hide EqualFold, ClassifyRunFailure;
  }

  lemma NoFailures(class_: string)
    ensures FailuresOf(class_, []) == 0 && Count(InClass(class_), []) == 0
  {
  }

  lemma {:induction false} FailuresCounted(runs: seq<Run>, class_: string)
    ensures FailuresOf(class_, runs) == Count(InClass(class_), runs)
  {
    hide *;
    NoFailures(class_);
    if runs != [] {
      var n := |runs| - 1;
      FailuresCounted(runs[..n], class_);
      FailuresStep(runs, class_);
      CountSnoc(InClass(class_), runs[..n], runs[n]);
      assert runs == runs[..n] + [runs[n]];
    }
  }

  function InClass(class_: string): Run -> bool {
    (run: Run) => !EqualFold(run.conclusion, "success") && ClassifyRunFailure(run) == class_
  }

  /** A class of the breakdown holds the number of runs without success that belong to it. */
  lemma BreakdownCountsRuns(runs: seq<Run>, class_: string)
    requires runs != []
    ensures var n := |set i | 0 <= i < |runs| && !EqualFold(runs[i].conclusion, "success") && ClassifyRunFailure(runs[i]) == class_|;
            var b := Metrics(runs).failureBreakdown;
            (class_ in b <==> n > 0) && (class_ in b ==> b[class_] == n)
  {
    hide EqualFold, ClassifyRunFailure, Breakdown, FailuresOf, Count;
    FailuresCounted(runs, class_);
    BreakdownCounts(runs, class_);
    var at := CountIs(InClass(class_), runs);
    assert at == set i | 0 <= i < |runs| && !EqualFold(runs[i].conclusion, "success") && ClassifyRunFailure(runs[i]) == class_;
    BreakdownIs(runs);
  }

  lemma BreakdownIs(runs: seq<Run>)
    ensures Metrics(runs).failureBreakdown == Breakdown(runs)
  {
    hide Breakdown, Durations, TotalQueue, FlakyShas, Median, SortInts, Successes;
    assert runs == [] ==> Breakdown(runs) == map[] by { NoRuns(runs); }
  }

  lemma {:induction false} ShasAre(outcome: string, runs: seq<Run>, sha: string)
    ensures sha in ShasWith(outcome, runs) <==>
            exists i :: 0 <= i < |runs| && runs[i].headSha == sha && ToLower(runs[i].conclusion) == outcome
  {
    if runs != [] {
      hide ToLower;
      var n := |runs| - 1;
      ShasAre(outcome, runs[..n], sha);
      if i :| 0 <= i < n && runs[..n][i].headSha == sha && ToLower(runs[..n][i].conclusion) == outcome {
        assert runs[i].headSha == sha;
      }
      if i :| 0 <= i < |runs| && runs[i].headSha == sha && ToLower(runs[i].conclusion) == outcome && i < n {
        assert runs[..n][i].headSha == sha;
      }
    }
  }

  /** A commit is flaky when it is not blank and has both a failure and a success, and the
      flaky rate is the number of flaky commits per run. */
  lemma FlakyMeans(runs: seq<Run>, sha: string)
    requires runs != []
    ensures sha in FlakyShas(runs) <==>
            && !Blank(sha)
            && (exists i :: 0 <= i < |runs| && runs[i].headSha == sha && ToLower(runs[i].conclusion) == "failure")
            && (exists i :: 0 <= i < |runs| && runs[i].headSha == sha && ToLower(runs[i].conclusion) == "success")
    ensures Metrics(runs).flakyTestRate * |runs| as real == |FlakyShas(runs)| as real
  {
    hide ToLower, Blank, ShasWith, Metrics;
    ShasAre("failure", runs, sha);
    ShasAre("success", runs, sha);
    RatesAre(runs);
    ShareTimes(|FlakyShas(runs)| as real, |runs| as real);
  }

  /** A snapshot holds the metrics of both lists under their names, and the difference added
      to the baseline is the current value. */
  lemma SnapshotMeans(currentRuns: seq<Run>, baselineRuns: seq<Run>)
    ensures var s := SnapshotOf(currentRuns, baselineRuns);
            && s.current == Metrics(currentRuns) && s.baseline == Metrics(baselineRuns)
            && s.baseline.successRate + s.delta.successRate == s.current.successRate
            && s.baseline.medianDurationMs + s.delta.medianDurationMs == s.current.medianDurationMs
            && s.baseline.queueTimeMs + s.delta.queueTimeMs == s.current.queueTimeMs
            && s.baseline.flakyTestRate + s.delta.flakyTestRate == s.current.flakyTestRate
  {
    hide Metrics;
  }
}
