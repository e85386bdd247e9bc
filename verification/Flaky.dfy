/**
Flaky-test analysis: per-test aggregation over the failed runs, then the ten most
frequent names. The regular-expression engine is the parameter `find`, which gives the
first capture group of every match of a pattern; `fetch` gives the logs of a run, if any.
*/
module Flaky {
  import opened Regex
  import opened Text
  import opened Sorting
  import opened Performance
  import Diagnosis
  import Redaction

  type Finder = (string, string) -> seq<string>
  type Fetcher = int -> Option<string>

  const PATTERNS: seq<string> := [
    "(?m)^--- FAIL:\\s+([A-Za-z0-9_./-]+)",
    "(?m)^FAIL\\s+([A-Za-z0-9_./-]+)",
    "(?m)test\\s+\"([^\"]+)\"\\s+failed",
    "(?m)^\\s*[x\U{2717}]\\s+([A-Za-z0-9_./:-]+)"
  ]

  predicate IsFailed(run: Run) { EqualFold(run.conclusion, "failure") || EqualFold(run.status, "failure") }

  /** The trimmed, non-blank captures. */
  function Trimmed(captures: seq<string>): seq<string> {
    if captures == [] then []
    else Trimmed(captures[..|captures| - 1]) +
         (if TrimSpace(captures[|captures| - 1]) == "" then [] else [TrimSpace(captures[|captures| - 1])])
  }

  function AllCaptures(find: Finder, patterns: seq<string>, logs: string): seq<string> {
    if patterns == [] then []
    else AllCaptures(find, patterns[..|patterns| - 1], logs) + Trimmed(find(patterns[|patterns| - 1], logs))
  }

  function TestNames(find: Finder, rawLogs: string): seq<string> {
    Diagnosis.Dedupe(AllCaptures(find, PATTERNS, Redaction.Redact(rawLogs)))
  }

  method ExtractTestNames(find: Finder, rawLogs: string) returns (names: seq<string>)
    ensures names == TestNames(find, rawLogs) && NoRepeats(names)
  {
    hide TrimSpace, Redaction.Redact;
    var logs := Redaction.RedactSecrets(rawLogs);
    var out: seq<string> := [];
    for p := 0 to |PATTERNS|
      invariant out == AllCaptures(find, PATTERNS[..p], logs)
    {
      assert PATTERNS[..p + 1][..p] == PATTERNS[..p];
      var matches := find(PATTERNS[p], logs);
      ghost var earlier := out;
      for i := 0 to |matches|
        invariant out == earlier + Trimmed(matches[..i])
      {
        assert matches[..i + 1][..i] == matches[..i];
        var name := TrimSpace(matches[i]);
        if name == "" { continue; }
        out := out + [name];
      }
      assert matches[..|matches|] == matches;
    }
    assert PATTERNS[..|PATTERNS|] == PATTERNS;
    names := Diagnosis.DedupeStrings(out);
  }

  // ----- What the runs say about a test -----

  /** The input of the analysis besides the runs; without a fetcher no logs are read. */
  datatype Source = Source(find: Finder, fetch: Option<Fetcher>)

  /** The tests a run names: those in its logs if it failed and they could be fetched. */
  function NamesIn(src: Source, run: Run): seq<string> {
    if !IsFailed(run) || src.fetch.None? then []
    else
      match src.fetch.value(run.id)
      case None => []
      case Some(logs) => TestNames(src.find, logs)
  }

  function FailedRuns(runs: seq<Run>): nat {
    if runs == [] then 0 else FailedRuns(runs[..|runs| - 1]) + (if IsFailed(runs[|runs| - 1]) then 1 else 0)
  }

  /** The number of runs that name the test. */
  function Frequency(src: Source, name: string, runs: seq<Run>): nat {
    if runs == [] then 0
    else Frequency(src, name, runs[..|runs| - 1]) + (if name in NamesIn(src, runs[|runs| - 1]) then 1 else 0)
  }

  /** The latest update among those runs, or the zero time. */
  function LastSeen(src: Source, name: string, runs: seq<Run>): int {
    if runs == [] then 0
    else
      var earlier := LastSeen(src, name, runs[..|runs| - 1]);
      var run := runs[|runs| - 1];
      if name in NamesIn(src, run) && run.updatedAt > earlier then run.updatedAt else earlier
  }

  datatype Aggregate = Aggregate(count: nat, lastSeenAt: int)

  datatype FlakyTest = FlakyTest(
    name: string, frequency: nat, rate: real, recency: Option<int>, confidence: real)

  datatype Report = Report(scannedRuns: nat, failedRuns: nat, topFlaky: seq<FlakyTest>)

  function RecordOf(name: string, item: Aggregate, denominator: nat): FlakyTest
    requires denominator > 0
  {
    var rate := item.count as real / denominator as real;
    var confidence := 0.3 + 0.4 * rate + 0.08 * item.count as real;
    FlakyTest(name, item.count, rate,
              if item.lastSeenAt == 0 then None else Some(item.lastSeenAt),
              if confidence > 0.98 then 0.98 else confidence)
  }

  function Denominator(runs: seq<Run>): (d: nat)
    ensures d > 0
  {
    if FailedRuns(runs) == 0 then 1 else FailedRuns(runs)
  }

  /** The record the runs determine for a test. */
  function RecordFor(src: Source, name: string, runs: seq<Run>): FlakyTest {
    RecordOf(name, Aggregate(Frequency(src, name, runs), LastSeen(src, name, runs)), Denominator(runs))
  }

  /** More frequent first, then more confident. */
  predicate MoreFlaky(a: FlakyTest, b: FlakyTest) {
    if a.frequency == b.frequency then a.confidence > b.confidence else a.frequency > b.frequency
  }

  ghost predicate Named(src: Source, runs: seq<Run>, name: string) {
    Frequency(src, name, runs) > 0
  }

  predicate DistinctNames(top: seq<FlakyTest>) {
    forall i, j :: 0 <= i < j < |top| ==> top[i].name != top[j].name
  }

  ghost predicate Listed(top: seq<FlakyTest>, name: string) {
    exists i :: 0 <= i < |top| && top[i].name == name
  }

  /** `top` is a correct cut of the records of all named tests to the `limit` most frequent. */
  ghost predicate IsTop(src: Source, runs: seq<Run>, top: seq<FlakyTest>, limit: nat) {
    && |top| <= limit && DistinctNames(top)
    && (forall i :: 0 <= i < |top| ==> Named(src, runs, top[i].name) && top[i] == RecordFor(src, top[i].name, runs))
    && (forall i, j :: 0 <= i < j < |top| ==> top[i].frequency >= top[j].frequency)
    && (forall name :: Named(src, runs, name) && !Listed(top, name) ==>
          |top| == limit && forall i :: 0 <= i < |top| ==> Frequency(src, name, runs) <= top[i].frequency)
  }

  // ----- The computation -----

  ghost predicate Aggregates(src: Source, runs: seq<Run>, m: map<string, Aggregate>) {
    forall name :: AggregateOk(src, runs, m, name)
  }

  ghost predicate AggregateOk(src: Source, runs: seq<Run>, m: map<string, Aggregate>, name: string) {
    && (name in m <==> Frequency(src, name, runs) > 0)
    && (name in m ==> m[name] == Aggregate(Frequency(src, name, runs), LastSeen(src, name, runs)))
  }

  function Seen(m: map<string, Aggregate>, name: string, at: int): map<string, Aggregate> {
    var entry := if name in m then m[name] else Aggregate(0, 0);
    m[name := Aggregate(entry.count + 1, if at > entry.lastSeenAt then at else entry.lastSeenAt)]
  }

  /** The aggregates after the first `k` names of a run. */
  function SeenAll(m: map<string, Aggregate>, names: seq<string>, at: int): map<string, Aggregate> {
    if names == [] then m else Seen(SeenAll(m, names[..|names| - 1], at), names[|names| - 1], at)
  }

  /** The inner loop over the names of one run, each counted once. */
  method CountNames(m: map<string, Aggregate>, names: seq<string>, at: int) returns (aggregates: map<string, Aggregate>)
    requires NoRepeats(names)
    ensures aggregates == SeenAll(m, names, at)
  {
    aggregates := m;
    var seenInRun: set<string> := {};
    for i := 0 to |names|
      invariant aggregates == SeenAll(m, names[..i], at)
      invariant forall x :: x in seenInRun ==> x in names[..i]
    {
      assert names[..i + 1][..i] == names[..i];
      var name := names[i];
      if name in seenInRun { continue; }
      seenInRun := seenInRun + {name};
      var entry := if name in aggregates then aggregates[name] else Aggregate(0, 0);
      entry := entry.(count := entry.count + 1);
      if at > entry.lastSeenAt {
        entry := entry.(lastSeenAt := at);
      }
      aggregates := aggregates[name := entry];
    }
    assert names[..|names|] == names;
  }

  method Aggregation(src: Source, runs: seq<Run>) returns (aggregates: map<string, Aggregate>, failedRuns: nat)
    ensures Aggregates(src, runs, aggregates) && failedRuns == FailedRuns(runs)
  {
    hide *;
    aggregates := map[];
    failedRuns := 0;
    NoRunsAggregated(src, runs);
    for i := 0 to |runs|
      invariant Aggregates(src, runs[..i], aggregates) && failedRuns == FailedRuns(runs[..i])
    {
      var run := runs[i];
      OneMoreRun(src, runs, i, aggregates);
      if !EqualFold(run.conclusion, "failure") && !EqualFold(run.status, "failure") { continue; }
      failedRuns := failedRuns + 1;
      if src.fetch.None? { continue; }
      var logs := src.fetch.value(run.id);
      if logs.None? { continue; }
      var names := ExtractTestNames(src.find, logs.value);
      aggregates := CountNames(aggregates, names, run.updatedAt);
    }
    assert runs[..|runs|] == runs;
  }

  lemma NoRunsAggregated(src: Source, runs: seq<Run>)
    ensures runs[..0] == [] && Aggregates(src, [], map[]) && FailedRuns([]) == 0
  {
    forall name ensures AggregateOk(src, [], map[], name) {}
  }

  lemma OneMoreRun(src: Source, runs: seq<Run>, i: nat, m: map<string, Aggregate>)
    requires i < |runs| && Aggregates(src, runs[..i], m)
    ensures var run := runs[i];
            var failed := EqualFold(run.conclusion, "failure") || EqualFold(run.status, "failure");
            && FailedRuns(runs[..i + 1]) == FailedRuns(runs[..i]) + (if failed then 1 else 0)
            && (!failed || src.fetch.None? || src.fetch.value(run.id).None? ==> Aggregates(src, runs[..i + 1], m))
            && (failed && src.fetch.Some? && src.fetch.value(run.id).Some? ==>
                  Aggregates(src, runs[..i + 1], SeenAll(m, TestNames(src.find, src.fetch.value(run.id).value), run.updatedAt)))
  {
    hide EqualFold, TestNames, Aggregates, SeenAll;
    assert runs[..i + 1][..i] == runs[..i];
    NamesAggregated(src, runs, i, m);
    NamesDistinct(src, runs[i]);
    NoNamesNoChange(m, runs[i].updatedAt);
  }

  lemma NoNamesNoChange(m: map<string, Aggregate>, at: int)
    ensures SeenAll(m, [], at) == m
  {
  }

  lemma NamesDistinct(src: Source, run: Run)
    ensures NoRepeats(NamesIn(src, run))
  {
    hide EqualFold, AllCaptures, Redaction.Redact, Diagnosis.Dedupe;
    if IsFailed(run) && src.fetch.Some? && src.fetch.value(run.id).Some? {
      Diagnosis.DedupeKeeps(AllCaptures(src.find, PATTERNS, Redaction.Redact(src.fetch.value(run.id).value)));
    }
  }

  lemma NamesAggregated(src: Source, runs: seq<Run>, i: nat, m: map<string, Aggregate>)
    requires i < |runs| && Aggregates(src, runs[..i], m)
    ensures Aggregates(src, runs[..i + 1], SeenAll(m, NamesIn(src, runs[i]), runs[i].updatedAt))
  {
    hide NamesIn;
    var names, at := NamesIn(src, runs[i]), runs[i].updatedAt;
    assert runs[..i + 1][..i] == runs[..i];
    NamesDistinct(src, runs[i]);
    var rs', after := runs[..i + 1], SeenAll(m, names, at);
    forall name ensures AggregateOk(src, rs', after, name) {
      assert AggregateOk(src, runs[..i], m, name);
      SeenAllAt(m, names, at, name);
      CountsStep(src, runs, i, name);
      hide Frequency, LastSeen, SeenAll;
      if name !in m { NotSeenYet(src, runs[..i], name); }
    }
  }

  lemma CountsStep(src: Source, runs: seq<Run>, i: nat, name: string)
    requires i < |runs|
    ensures var named := name in NamesIn(src, runs[i]);
            && Frequency(src, name, runs[..i + 1]) == Frequency(src, name, runs[..i]) + (if named then 1 else 0)
            && LastSeen(src, name, runs[..i + 1]) ==
                 (if named && runs[i].updatedAt > LastSeen(src, name, runs[..i]) then runs[i].updatedAt else LastSeen(src, name, runs[..i]))
  {
    hide NamesIn;
    assert runs[..i + 1][..i] == runs[..i];
  }

  lemma {:induction false} NotSeenYet(src: Source, runs: seq<Run>, name: string)
    requires Frequency(src, name, runs) == 0
    ensures LastSeen(src, name, runs) == 0
  {
    hide NamesIn;
    if runs != [] { NotSeenYet(src, runs[..|runs| - 1], name); }
  }

  lemma {:induction false} SeenAllAt(m: map<string, Aggregate>, names: seq<string>, at: int, name: string)
    requires NoRepeats(names)
    ensures name !in names ==> (name in SeenAll(m, names, at) <==> name in m) && (name in m ==> SeenAll(m, names, at)[name] == m[name])
    ensures name in names ==> name in SeenAll(m, names, at) && SeenAll(m, names, at)[name] == Seen(m, name, at)[name]
  {
    if names != [] {
      var n := |names| - 1;
      SeenAllAt(m, names[..n], at, name);
      assert names == names[..n] + [names[n]];
    }
  }

  /** The records of all named tests, in any order. */
  ghost predicate AreRecords(src: Source, runs: seq<Run>, records: seq<FlakyTest>) {
    && DistinctNames(records)
    && (forall i :: 0 <= i < |records| ==> Named(src, runs, records[i].name) && records[i] == RecordFor(src, records[i].name, runs))
    && (forall name :: Named(src, runs, name) ==> Listed(records, name))
  }

  method Records(src: Source, runs: seq<Run>, aggregates: map<string, Aggregate>, failedRuns: nat) returns (records: seq<FlakyTest>)
    requires Aggregates(src, runs, aggregates) && failedRuns == FailedRuns(runs)
    ensures AreRecords(src, runs, records)
  {
    records := [];
    var denominator := failedRuns;
    if denominator == 0 { denominator := 1; }
    var names := aggregates.Keys;
    hide *;
    NoRecords(src, runs, aggregates);
    while names != {}
      invariant names <= aggregates.Keys && RecordsFor(src, runs, records, aggregates.Keys - names)
    {
      var testName :| testName in names;
      var item := aggregates[testName];
      OneMoreRecord(src, runs, aggregates, records, aggregates.Keys - names, testName, denominator);
      records := records + [RecordOf(testName, item, denominator)];
      names := names - {testName};
      assert aggregates.Keys - names == aggregates.Keys - (names + {testName}) + {testName};
    }
    AllRecords(src, runs, aggregates, records);
  }

  ghost predicate RecordsFor(src: Source, runs: seq<Run>, records: seq<FlakyTest>, done: set<string>) {
    && DistinctNames(records)
    && (forall i :: 0 <= i < |records| ==> records[i].name in done && records[i] == RecordFor(src, records[i].name, runs))
    && (forall name :: name in done ==> Listed(records, name))
  }

  lemma NoRecords(src: Source, runs: seq<Run>, aggregates: map<string, Aggregate>)
    ensures RecordsFor(src, runs, [], aggregates.Keys - aggregates.Keys)
  {
  }

  lemma OneMoreRecord(src: Source, runs: seq<Run>, m: map<string, Aggregate>, records: seq<FlakyTest>,
                      done: set<string>, name: string, denominator: nat)
    requires Aggregates(src, runs, m) && name in m && name !in done && RecordsFor(src, runs, records, done)
    requires denominator == if FailedRuns(runs) == 0 then 1 else FailedRuns(runs)
    ensures RecordsFor(src, runs, records + [RecordOf(name, m[name], denominator)], done + {name})
  {
    hide Frequency, LastSeen, FailedRuns;
    assert AggregateOk(src, runs, m, name);
    var r := RecordOf(name, m[name], denominator);
    assert r == RecordFor(src, name, runs) && r.name == name;
    hide RecordOf, RecordFor;
    var more := records + [r];
    forall x | x in done + {name} ensures Listed(more, x) {
      if x == name {
        assert more[|records|].name == name;
      } else {
        var i :| 0 <= i < |records| && records[i].name == x;
        assert more[i].name == x;
      }
    }
  }

  lemma AllRecords(src: Source, runs: seq<Run>, m: map<string, Aggregate>, records: seq<FlakyTest>)
    requires Aggregates(src, runs, m) && RecordsFor(src, runs, records, m.Keys - {})
    ensures AreRecords(src, runs, records)
  {
    hide Frequency, LastSeen, RecordFor, Listed;
    forall name ensures Named(src, runs, name) <==> name in m.Keys - {} {
      assert AggregateOk(src, runs, m, name);
    }
  }

  method AnalyzeFlakyTests(src: Source, runs: seq<Run>) returns (report: Report)
    ensures report.scannedRuns == |runs| && report.failedRuns == FailedRuns(runs)
    ensures IsTop(src, runs, report.topFlaky, 10)
  {
    hide *;
    var aggregates, failedRuns := Aggregation(src, runs);
    var records := Records(src, runs, aggregates, failedRuns);
    ghost var all := records;
    records := StableSort(MoreFlaky, records);
    SortedRecords(src, runs, all);
    CutIsTop(src, runs, records, 10);
    if |records| > 10 {
      records := records[..10];
    }
    report := Report(|runs|, failedRuns, records);
  }

  predicate Descending(s: seq<FlakyTest>) {
    forall i, j :: 0 <= i < j < |s| ==> s[i].frequency >= s[j].frequency
  }

  lemma MoreFlakyIsWeakOrder()
    ensures WeakOrder(MoreFlaky)
  {
  }

  lemma SortedRecords(src: Source, runs: seq<Run>, all: seq<FlakyTest>)
    requires AreRecords(src, runs, all)
    ensures AreRecords(src, runs, StableSort(MoreFlaky, all)) && Descending(StableSort(MoreFlaky, all))
  {
    var s := StableSort(MoreFlaky, all);
    hide StableSort, Frequency, RecordFor, Named;
    MoreFlakyIsWeakOrder();
    StableSortOrdered(MoreFlaky, all);
    StableSortMembers(MoreFlaky, all);
    assert Descending(s);
    RearrangedRecords(src, runs, all, s);
  }

  lemma RearrangedRecords(src: Source, runs: seq<Run>, all: seq<FlakyTest>, s: seq<FlakyTest>)
    requires AreRecords(src, runs, all) && multiset(s) == multiset(all)
    ensures AreRecords(src, runs, s)
  {
    hide Frequency, RecordFor, Named;
    assert |s| == |multiset(s)| == |multiset(all)| == |all|;
    forall i | 0 <= i < |s| ensures Named(src, runs, s[i].name) && s[i] == RecordFor(src, s[i].name, runs) {
      assert s[i] in multiset(all);
      var k :| 0 <= k < |all| && all[k] == s[i];
    }
    forall name | Named(src, runs, name) ensures Listed(s, name) {
      var k :| 0 <= k < |all| && all[k].name == name;
      assert all[k] in multiset(s);
      var i :| 0 <= i < |s| && s[i] == all[k];
    }
    DistinctRearranged(all, s);
  }

  lemma DistinctRearranged(all: seq<FlakyTest>, s: seq<FlakyTest>)
    requires DistinctNames(all) && multiset(s) == multiset(all)
    ensures DistinctNames(s)
  {
    assert NoRepeats(all);
    Rearranged(all, s);
    forall i, j | 0 <= i < j < |s| ensures s[i].name != s[j].name {
      assert s[i] in multiset(all) && s[j] in multiset(all);
      var k :| 0 <= k < |all| && all[k] == s[i];
      var l :| 0 <= l < |all| && all[l] == s[j];
    }
  }

  lemma ListedAt(top: seq<FlakyTest>, k: nat)
    requires k < |top|
    ensures Listed(top, top[k].name)
  {
  }

  lemma CutIsTop(src: Source, runs: seq<Run>, records: seq<FlakyTest>, limit: nat)
    requires AreRecords(src, runs, records) && Descending(records)
    ensures IsTop(src, runs, if |records| > limit then records[..limit] else records, limit)
  {
    hide Frequency, LastSeen, RecordOf;
    var top := if |records| > limit then records[..limit] else records;
    forall name | Named(src, runs, name) && !Listed(top, name)
      ensures |top| == limit && forall i :: 0 <= i < |top| ==> Frequency(src, name, runs) <= top[i].frequency
    {
      var k :| 0 <= k < |records| && records[k].name == name;
      if k < |top| { ListedAt(top, k); }
      FrequencyOfRecord(src, name, runs);
    }
  }

  lemma FrequencyOfRecord(src: Source, name: string, runs: seq<Run>)
    ensures RecordFor(src, name, runs).frequency == Frequency(src, name, runs) && RecordFor(src, name, runs).name == name
  {
    hide Frequency, LastSeen;
  }
}
