/** Laws of the flaky-test report. */
module FlakyLaws {
  import opened Sorting
  import opened Performance
  import opened Flaky
  import opened Text
  import Diagnosis
  import Redaction

  lemma {:induction false} FrequencyBound(src: Source, name: string, runs: seq<Run>)
    ensures Frequency(src, name, runs) <= FailedRuns(runs)
  {
    if runs != [] {
      hide IsFailed, TestNames;
      FrequencyBound(src, name, runs[..|runs| - 1]);
    }
  }

  ghost predicate Names(src: Source, runs: seq<Run>, i: nat, name: string) {
    i < |runs| && name in NamesIn(src, runs[i])
  }

  lemma LastSeenStep(src: Source, name: string, runs: seq<Run>)
    requires runs != []
    ensures var n := |runs| - 1;
            var earlier := LastSeen(src, name, runs[..n]);
            LastSeen(src, name, runs) ==
              if name in NamesIn(src, runs[n]) && runs[n].updatedAt > earlier then runs[n].updatedAt else earlier
  {
  }

  lemma {:induction false} LastSeenBounds(src: Source, name: string, runs: seq<Run>, i: nat)
    requires Names(src, runs, i, name)
    ensures runs[i].updatedAt <= LastSeen(src, name, runs)
  {
    hide LastSeen, NamesIn;
    var n := |runs| - 1;
    LastSeenStep(src, name, runs);
    if i < n { LastSeenBounds(src, name, runs[..n], i); }
  }

  lemma {:induction false} LastSeenAttained(src: Source, name: string, runs: seq<Run>) returns (i: nat)
    ensures LastSeen(src, name, runs) >= 0
    ensures LastSeen(src, name, runs) != 0 ==> Names(src, runs, i, name) && runs[i].updatedAt == LastSeen(src, name, runs)
  {
    i := 0;
    if runs != [] {
      hide LastSeen, NamesIn;
      var n := |runs| - 1;
      LastSeenStep(src, name, runs);
      i := LastSeenAttained(src, name, runs[..n]);
      if LastSeen(src, name, runs) != LastSeen(src, name, runs[..n]) { i := n; }
    }
  }

  /** The recency is the latest update of a run that names the test. */
  lemma LastSeenIsLatest(src: Source, name: string, runs: seq<Run>)
    ensures LastSeen(src, name, runs) >= 0
    ensures forall i: nat :: Names(src, runs, i, name) ==> runs[i].updatedAt <= LastSeen(src, name, runs)
    ensures LastSeen(src, name, runs) != 0 ==>
              exists i: nat :: Names(src, runs, i, name) && runs[i].updatedAt == LastSeen(src, name, runs)
  {
    hide LastSeen, NamesIn;
    var k := LastSeenAttained(src, name, runs);
    forall i: nat | Names(src, runs, i, name) ensures runs[i].updatedAt <= LastSeen(src, name, runs) {
      LastSeenBounds(src, name, runs, i);
    }
  }

  /** Every reported test fails in at least one and at most all failed runs; its rate and
      confidence are within range. */
  lemma RecordInRange(src: Source, name: string, runs: seq<Run>)
    requires Named(src, runs, name)
    ensures var r := RecordFor(src, name, runs);
            && r.frequency == Frequency(src, name, runs) && 1 <= r.frequency <= FailedRuns(runs)
            && 0.0 < r.rate <= 1.0 && r.rate * FailedRuns(runs) as real == r.frequency as real
            && 0.3 < r.confidence <= 0.98
  {
    hide Frequency, LastSeen, FailedRuns;
    FrequencyBound(src, name, runs);
    Ratio(Frequency(src, name, runs) as real, FailedRuns(runs) as real);
  }

  lemma Ratio(x: real, n: real)
    requires 0.0 < x <= n
    ensures 0.0 < x / n <= 1.0 && (x / n) * n == x
  {
  }

  /** Equal frequency gives equal confidence: the second sort key never decides. */
  lemma FrequencyDecides(src: Source, a: string, b: string, runs: seq<Run>)
    requires Frequency(src, a, runs) == Frequency(src, b, runs)
    ensures RecordFor(src, a, runs).confidence == RecordFor(src, b, runs).confidence
    ensures !MoreFlaky(RecordFor(src, a, runs), RecordFor(src, b, runs))
  {
    hide Frequency, LastSeen, Denominator;
  }

  // ----- Order of the runs -----

  lemma {:induction false} CountsWithoutRun(src: Source, name: string, runs: seq<Run>, k: nat)
    requires k < |runs|
    ensures var rest := runs[..k] + runs[k + 1..];
            && Frequency(src, name, runs) == Frequency(src, name, rest) + (if name in NamesIn(src, runs[k]) then 1 else 0)
            && FailedRuns(runs) == FailedRuns(rest) + (if IsFailed(runs[k]) then 1 else 0)
  {
    hide NamesIn, IsFailed;
    if k == |runs| - 1 {
      assert runs[..k] + runs[k + 1..] == runs[..k];
    } else {
      CountsWithoutRun(src, name, runs[..|runs| - 1], k);
      WithoutLast(runs, k);
    }
  }

  lemma {:induction false} CountsIgnoreOrder(src: Source, name: string, a: seq<Run>, b: seq<Run>)
    requires multiset(a) == multiset(b)
    ensures Frequency(src, name, a) == Frequency(src, name, b) && FailedRuns(a) == FailedRuns(b)
    decreases |a|
  {
    hide *;
    if a == [] {
      assert |b| == |multiset(b)| == 0;
      assert a == b;
    } else {
      var k := FindHead(a, b);
      CountsIgnoreOrder(src, name, a[1..], b[..k] + b[k + 1..]);
      CountsWithoutRun(src, name, a, 0);
      assert a[..0] + a[1..] == a[1..];
      CountsWithoutRun(src, name, b, k);
    }
  }

  lemma LastSeenNotLess(src: Source, name: string, a: seq<Run>, b: seq<Run>)
    requires multiset(a) == multiset(b)
    ensures LastSeen(src, name, a) <= LastSeen(src, name, b)
  {
    hide LastSeen, NamesIn;
    LastSeenIsLatest(src, name, a);
    LastSeenIsLatest(src, name, b);
    if LastSeen(src, name, a) != 0 {
      var i: nat :| Names(src, a, i, name) && a[i].updatedAt == LastSeen(src, name, a);
      assert a[i] in multiset(b);
      var j :| 0 <= j < |b| && b[j] == a[i];
      assert Names(src, b, j, name);
    }
  }

  lemma RecordIgnoresOrder(src: Source, name: string, a: seq<Run>, b: seq<Run>)
    requires multiset(a) == multiset(b)
    ensures RecordFor(src, name, a) == RecordFor(src, name, b)
    ensures Named(src, a, name) <==> Named(src, b, name)
  {
    hide Frequency, LastSeen, FailedRuns;
    CountsIgnoreOrder(src, name, a, b);
    LastSeenNotLess(src, name, a, b);
    LastSeenNotLess(src, name, b, a);
  }

  /** The reports allowed for a list of runs are those allowed for any order of it. */
  lemma ReportIgnoresOrder(src: Source, a: seq<Run>, b: seq<Run>, top: seq<FlakyTest>, limit: nat)
    requires multiset(a) == multiset(b) && IsTop(src, a, top, limit)
    ensures IsTop(src, b, top, limit)
  {
    hide Frequency, RecordFor;
    forall name ensures RecordFor(src, name, a) == RecordFor(src, name, b) && (Named(src, a, name) <==> Named(src, b, name))
                        && Frequency(src, name, a) == Frequency(src, name, b) {
      RecordIgnoresOrder(src, name, a, b);
      CountsIgnoreOrder(src, name, a, b);
    }
  }

  // ----- The cut -----

  function NamesOf(top: seq<FlakyTest>): (s: set<string>)
  {
    set i | 0 <= i < |top| :: top[i].name
  }

  lemma {:induction false} NamesOfSize(top: seq<FlakyTest>)
    requires DistinctNames(top)
    ensures |NamesOf(top)| == |top|
  {
    if top != [] {
      var n := |top| - 1;
      NamesOfSize(top[..n]);
      assert NamesOf(top) == NamesOf(top[..n]) + {top[n].name};
      assert top[n].name !in NamesOf(top[..n]);
    } else {
      assert NamesOf(top) == {};
    }
  }

  /** If `a` shows a higher frequency than `b` at position `i`, the names of `a` up to `i`
      would all have to be in front of position `i` in `b`. */
  lemma NotHigher(src: Source, runs: seq<Run>, a: seq<FlakyTest>, b: seq<FlakyTest>, limit: nat, i: nat)
    requires IsTop(src, runs, a, limit) && IsTop(src, runs, b, limit) && i < |a| && i < |b|
    ensures a[i].frequency <= b[i].frequency
  {
    hide Frequency, RecordFor;
    if a[i].frequency > b[i].frequency {
      forall name | name in NamesOf(a[..i + 1]) ensures name in NamesOf(b[..i]) {
        var j :| 0 <= j < i + 1 && a[j].name == name;
        AheadOf(src, runs, a, b, limit, i, j);
      }
      TooMany(a[..i + 1], b[..i]);
    }
  }

  lemma AheadOf(src: Source, runs: seq<Run>, a: seq<FlakyTest>, b: seq<FlakyTest>, limit: nat, i: nat, j: nat)
    requires IsTop(src, runs, a, limit) && IsTop(src, runs, b, limit) && j <= i < |a| && i < |b|
    requires a[i].frequency > b[i].frequency
    ensures a[j].name in NamesOf(b[..i])
  {
    hide Frequency;
    var name := a[j].name;
    FrequencyOfRecord(src, name, runs);
    assert a[j].frequency >= a[i].frequency;
    assert Frequency(src, name, runs) > b[i].frequency;
    hide RecordFor;
    assert Listed(b, name);
    var k :| 0 <= k < |b| && b[k].name == name;
    assert b[k] == RecordFor(src, name, runs);
    assert k < i;
    assert b[..i][k].name == name;
  }

  lemma TooMany(a: seq<FlakyTest>, b: seq<FlakyTest>)
    requires DistinctNames(a) && DistinctNames(b) && |b| < |a|
    ensures !(NamesOf(a) <= NamesOf(b))
  {
    NamesOfSize(a);
    NamesOfSize(b);
    if NamesOf(a) <= NamesOf(b) { SubsetSize(NamesOf(a), NamesOf(b)); }
  }

  /** However ties are broken, the reported frequencies are the same. */
  lemma FrequenciesDetermined(src: Source, runs: seq<Run>, a: seq<FlakyTest>, b: seq<FlakyTest>, limit: nat)
    requires IsTop(src, runs, a, limit) && IsTop(src, runs, b, limit)
    ensures |a| == |b| && forall i :: 0 <= i < |a| ==> a[i].frequency == b[i].frequency
  {
    hide *;
    SameSize(src, runs, a, b, limit);
    SameSize(src, runs, b, a, limit);
    forall i | 0 <= i < |a| ensures a[i].frequency == b[i].frequency {
      NotHigher(src, runs, a, b, limit, i);
      NotHigher(src, runs, b, a, limit, i);
    }
  }

  lemma SameSize(src: Source, runs: seq<Run>, a: seq<FlakyTest>, b: seq<FlakyTest>, limit: nat)
    requires IsTop(src, runs, a, limit) && IsTop(src, runs, b, limit)
    ensures |a| <= |b|
  {
    hide Frequency, RecordFor;
    if |b| < |a| {
      forall name | name in NamesOf(a) ensures name in NamesOf(b) {
        assert Listed(b, name);
      }
      TooMany(a, b);
    }
  }

  // ----- What a record says -----

  /** Run `i` failed, its logs were fetched, and they name the test. */
  ghost predicate NamedByRun(src: Source, name: string, runs: seq<Run>, i: int) {
    && 0 <= i < |runs|
    && (EqualFold(runs[i].conclusion, "failure") || EqualFold(runs[i].status, "failure"))
    && src.fetch.Some? && src.fetch.value(runs[i].id).Some?
    && name in TestNames(src.find, src.fetch.value(runs[i].id).value)
  }

  lemma NamesAre(src: Source, name: string, runs: seq<Run>, i: nat)
    requires i < |runs|
    ensures name in NamesIn(src, runs[i]) <==> NamedByRun(src, name, runs, i)
  {
    hide EqualFold, TestNames;
  }

  lemma {:induction false} FrequencyCounted(src: Source, name: string, runs: seq<Run>) returns (at: set<int>)
    ensures Frequency(src, name, runs) == |at|
    ensures forall i :: i in at <==> 0 <= i < |runs| && name in NamesIn(src, runs[i])
  {
    hide *;
    at := {};
    NeverNamed(src, name);
    if runs != [] {
      var n := |runs| - 1;
      at := FrequencyCounted(src, name, runs[..n]);
      FrequencyStep(src, name, runs);
      if name in NamesIn(src, runs[n]) { at := at + {n}; }
    }
  }

  lemma NeverNamed(src: Source, name: string)
    ensures Frequency(src, name, []) == 0
  {
  }

  lemma FrequencyStep(src: Source, name: string, runs: seq<Run>)
    requires runs != []
    ensures var n := |runs| - 1;
            Frequency(src, name, runs) == Frequency(src, name, runs[..n]) + (if name in NamesIn(src, runs[n]) then 1 else 0)
  {
  }

  lemma {:induction false} FailedCounted(runs: seq<Run>) returns (at: set<int>)
    ensures FailedRuns(runs) == |at|
    ensures forall i :: i in at <==> 0 <= i < |runs| && IsFailed(runs[i])
  {
    at := {};
    if runs != [] {
      hide IsFailed;
      var n := |runs| - 1;
      at := FailedCounted(runs[..n]);
      if IsFailed(runs[n]) { at := at + {n}; }
    }
  }

  /** A test's frequency is the number of failed runs with fetched logs that name it; the failed
      runs are those whose conclusion or status is a failure up to case. */
  lemma FrequencyMeans(src: Source, name: string, runs: seq<Run>)
    ensures RecordFor(src, name, runs).name == name
    ensures RecordFor(src, name, runs).frequency == |set i | 0 <= i < |runs| && NamedByRun(src, name, runs, i)|
    ensures FailedRuns(runs) ==
            |set i | 0 <= i < |runs| && (EqualFold(runs[i].conclusion, "failure") || EqualFold(runs[i].status, "failure"))|
  {
    hide EqualFold, NamesIn, NamedByRun, Frequency, FailedRuns, LastSeen, Denominator;
    var at := FrequencyCounted(src, name, runs);
    forall i | 0 <= i < |runs| ensures i in at <==> NamedByRun(src, name, runs, i) {
      NamesAre(src, name, runs, i);
    }
    assert at == set i | 0 <= i < |runs| && NamedByRun(src, name, runs, i);
    var failed := FailedCounted(runs);
    assert failed == set i | 0 <= i < |runs| && (EqualFold(runs[i].conclusion, "failure") || EqualFold(runs[i].status, "failure"));
  }

  /** Recency is the latest update of a run that names the test, if that is after the zero time. */
  lemma RecencyMeans(src: Source, name: string, runs: seq<Run>)
    ensures var r := RecordFor(src, name, runs).recency;
            && (r.Some? <==> exists i: nat :: Names(src, runs, i, name) && runs[i].updatedAt > 0)
            && (r.Some? ==> exists i: nat :: Names(src, runs, i, name) && runs[i].updatedAt == r.value)
            && (r.Some? ==> forall i: nat :: Names(src, runs, i, name) ==> runs[i].updatedAt <= r.value)
  {
    hide NamesIn, Frequency, FailedRuns, LastSeen, Denominator;
    LastSeenIsLatest(src, name, runs);
  }

  /** The confidence starts from 0.3 and gains 0.4 times the share of the failed runs and 0.08
      for each run that names the test, up to 0.98. */
  lemma ConfidenceMeans(src: Source, name: string, runs: seq<Run>)
    requires Named(src, runs, name)
    ensures var r, n := RecordFor(src, name, runs), FailedRuns(runs) as real;
            var f := r.frequency as real;
            && r.confidence <= 0.98
            && (r.confidence < 0.98 ==> r.confidence * n == 0.3 * n + 0.4 * f + 0.08 * f * n)
            && (r.confidence == 0.98 ==> 0.98 * n <= 0.3 * n + 0.4 * f + 0.08 * f * n)
  {
    hide Frequency, FailedRuns, LastSeen;
    FrequencyBound(src, name, runs);
    var n, f := FailedRuns(runs) as real, Frequency(src, name, runs) as real;
    var c := 0.3 + 0.4 * (f / n) + 0.08 * f;
    assert RecordFor(src, name, runs).confidence == if c > 0.98 then 0.98 else c;
    Scaled(f, n, c);
  }

  lemma Scaled(f: real, n: real, c: real)
    requires n > 0.0 && c == 0.3 + 0.4 * (f / n) + 0.08 * f
    ensures c * n == 0.3 * n + 0.4 * f + 0.08 * f * n && (c >= 0.98 ==> 0.98 * n <= c * n)
  {
    var q := f / n;
    assert q * n == f;
    assert (0.4 * q) * n == 0.4 * (q * n);
  }

  lemma TrimmedStep(captures: seq<string>, name: string)
    requires captures != []
    ensures var n := |captures| - 1;
            name in Trimmed(captures) <==>
            name in Trimmed(captures[..n]) || (name != "" && TrimSpace(captures[n]) == name)
  {
    hide TrimSpace;
  }

  lemma {:induction false} TrimmedAre(captures: seq<string>, name: string)
    ensures name in Trimmed(captures) <==> name != "" && exists c :: c in captures && TrimSpace(c) == name
  {
    hide TrimSpace;
    if captures != [] {
      hide Trimmed;
      var n := |captures| - 1;
      TrimmedAre(captures[..n], name);
      TrimmedStep(captures, name);
      assert captures == captures[..n] + [captures[n]];
    }
  }

  lemma {:induction false} CapturesAre(find: Finder, patterns: seq<string>, logs: string, name: string)
    ensures name in AllCaptures(find, patterns, logs) <==>
            name != "" && exists p, c :: p in patterns && c in find(p, logs) && TrimSpace(c) == name
  {
    if patterns != [] {
      hide TrimSpace, Trimmed;
      var n := |patterns| - 1;
      CapturesAre(find, patterns[..n], logs, name);
      TrimmedAre(find(patterns[n], logs), name);
      assert patterns == patterns[..n] + [patterns[n]];
    }
  }

  /** Logs name a test when some pattern captures it, up to outer spaces, in the redacted text. */
  lemma TestNamesMean(find: Finder, rawLogs: string, name: string)
    ensures name in TestNames(find, rawLogs) <==>
            name != "" && exists p, c :: p in Flaky.PATTERNS && c in find(p, Redaction.Redact(rawLogs)) && TrimSpace(c) == name
  {
    hide Redaction.Redact, AllCaptures, TrimSpace, Diagnosis.Dedupe;
    CapturesAre(find, Flaky.PATTERNS, Redaction.Redact(rawLogs), name);
    Diagnosis.DedupeKeeps(AllCaptures(find, Flaky.PATTERNS, Redaction.Redact(rawLogs)));
  }
}
