/**
Ranking of failure diagnoses. The regular-expression engine is the parameter `find`,
which gives the index pairs of a pattern in a text. Confidences are in hundredths.
*/
module Diagnosis {
  import opened Text
  import opened Extraction
  import opened Sorting
  import Redaction

  type Finder = (string, string) -> seq<Span>

  datatype Recommendation = Recommendation(id: string, confidence: int)

  datatype Rule = Rule(category: string, rootCause: string, recommendations: seq<Recommendation>, patterns: seq<string>)

  datatype Ranked = Ranked(
    category: string, rootCause: string, confidence: int, score: nat,
    evidence: seq<EvidenceRef>, recommendations: seq<Recommendation>)

  datatype Job = Job(
    name: string, status: string, conclusion: string, headBranch: string, checkRunUrl: string, steps: nat)

  const UNKNOWN: string := "unknown"

  const RULES: seq<Rule> := [
    Rule("test_failure", "One or more tests failed under current repository state.",
         [Recommendation("re-run-failed-tests-locally", 84), Recommendation("stabilize-test-fixtures", 72)],
         ["(?m)^--- FAIL:\\s+\\S+", "(?m)\\bAssertionError\\b", "(?m)\\bexpected\\b.*\\bgot\\b", "(?m)\\b(\\d+)\\s+tests?\\s+failed\\b"]),
    Rule("dependency_outage", "External dependency or package source appears unavailable.",
         [Recommendation("retry-with-backoff", 80), Recommendation("cache-dependencies", 74)],
         ["(?m)could not resolve host", "(?m)connection refused", "(?m)503\\s+service\\s+unavailable",
          "(?m)429\\s+too\\s+many\\s+requests", "(?m)npm\\s+ERR!\\s+network"]),
    Rule("infra_timeout", "Runner, network, or step execution timed out.",
         [Recommendation("split-long-running-jobs", 76), Recommendation("increase-timeouts-selectively", 68)],
         ["(?m)timed out", "(?m)context deadline exceeded", "(?m)runner.+lost communication", "(?m)no space left on device"]),
    Rule("config_error", "Workflow or environment configuration is invalid.",
         [Recommendation("validate-workflow-config", 81), Recommendation("check-token-scopes", 73)],
         ["(?m)workflow\\s+is\\s+not\\s+valid", "(?m)yaml:\\s+line", "(?m)permission denied", "(?m)no such file or directory"]),
    Rule("compilation_error", "Build or compilation failed due to code errors.",
         [Recommendation("fix-build-errors", 90), Recommendation("pin-toolchain", 65)],
         ["(?m)syntax error", "(?m)undefined:\\s+\\S+", "(?m)cannot find package", "(?m)build failed"])
  ]

  /** The engine reports only matches that start inside the text. */
  ghost predicate StartsInside(find: Finder) {
    forall pattern: string, text: string :: MatchesInside(find, pattern, text)
  }

  ghost predicate MatchesInside(find: Finder, pattern: string, text: string) {
    forall m :: m in find(pattern, text) ==> m.start <= |text|
  }

  // ----- Jobs -----

  function Names(jobs: seq<Job>, wanted: Job -> bool): seq<string> {
    if jobs == [] then []
    else Names(jobs[..|jobs| - 1], wanted) + (if wanted(jobs[|jobs| - 1]) then [jobs[|jobs| - 1].name] else [])
  }

  predicate HasFailed(job: Job) { EqualFold(job.conclusion, "failure") || EqualFold(job.status, "failed") }

  predicate NotSucceeded(job: Job) { !EqualFold(job.conclusion, "success") }

  /** Keep the first occurrence of every element. */
  function Dedupe(s: seq<string>): seq<string> {
    if s == [] then []
    else
      var r := Dedupe(s[..|s| - 1]);
      if s[|s| - 1] in r then r else r + [s[|s| - 1]]
  }

  lemma {:induction false} DedupeKeeps(s: seq<string>)
    ensures NoRepeats(Dedupe(s)) && forall x :: x in Dedupe(s) <==> x in s
  {
    if s != [] {
      var n := |s| - 1;
      DedupeKeeps(s[..n]);
      assert s == s[..n] + [s[n]];
    }
  }

  method DedupeStrings(items: seq<string>) returns (out: seq<string>)
    ensures out == Dedupe(items)
    ensures NoRepeats(out) && forall x :: x in out <==> x in items
  {
    DedupeKeeps(items);
    if |items| <= 1 {
      if |items| == 1 { assert items[..0] == []; }
      return items;
    }
    var seen: set<string> := {};
    out := [];
    for i := 0 to |items|
      invariant out == Dedupe(items[..i])
      invariant forall x :: x in seen <==> x in out
    {
      assert items[..i + 1][..i] == items[..i];
      if items[i] !in seen {
        seen := seen + {items[i]};
        out := out + [items[i]];
      }
    }
    assert items[..|items|] == items;
  }

  function Impacted(jobs: seq<Job>): seq<string> {
    var failed := Names(jobs, HasFailed);
    Dedupe(if failed == [] then Names(jobs, NotSucceeded) else failed)
  }

  /** The names of the jobs at these positions, each once, in the order in which they first occur. */
  ghost predicate NamesListed(jobs: seq<Job>, at: set<int>, out: seq<string>) {
    && NoRepeats(out)
    && (forall x :: x in out <==> exists i :: 0 <= i < |jobs| && i in at && jobs[i].name == x)
    && (forall a, b :: 0 <= a < b < |out| ==> FirstBefore(jobs, at, out[a], out[b]))
  }

  /** One of those jobs has the name `x`, and none of them up to there has the name `y`. */
  ghost predicate FirstBefore(jobs: seq<Job>, at: set<int>, x: string, y: string) {
    exists i :: 0 <= i < |jobs| && i in at && jobs[i].name == x &&
                forall j :: 0 <= j <= i && j in at ==> jobs[j].name != y
  }

  /** The jobs to report: those whose conclusion is a failure or whose status is failed; if
      there is none, those whose conclusion is not a success. */
  ghost predicate ReportsJobs(jobs: seq<Job>, out: seq<string>) {
    var failed := set i | 0 <= i < |jobs| && (EqualFold(jobs[i].conclusion, "failure") || EqualFold(jobs[i].status, "failed"));
    var rest := set i | 0 <= i < |jobs| && !EqualFold(jobs[i].conclusion, "success");
    NamesListed(jobs, if failed != {} then failed else rest, out)
  }

  lemma NamesStep(jobs: seq<Job>, wanted: Job -> bool, n: nat)
    requires n < |jobs|
    ensures Names(jobs[..n + 1], wanted) ==
            if wanted(jobs[n]) then Names(jobs[..n], wanted) + [jobs[n].name] else Names(jobs[..n], wanted)
  {
    assert jobs[..n + 1][..n] == jobs[..n];
  }

  lemma DedupeStep(s: seq<string>, x: string)
    ensures Dedupe(s + [x]) == if x in Dedupe(s) then Dedupe(s) else Dedupe(s) + [x]
  {
    assert (s + [x])[..|s|] == s;
  }

  lemma NothingListed(jobs: seq<Job>, wanted: Job -> bool)
    ensures Names(jobs[..0], wanted) == [] && NamesListed(jobs, {}, Dedupe([]))
  {
  }

  lemma {:induction false} NamesAreListed(jobs: seq<Job>, wanted: Job -> bool, n: nat) returns (at: set<int>)
    requires n <= |jobs|
    ensures forall i :: i in at <==> 0 <= i < n && wanted(jobs[i])
    ensures NamesListed(jobs, at, Dedupe(Names(jobs[..n], wanted)))
    ensures Names(jobs[..n], wanted) == [] <==> at == {}
  {
    hide Names, Dedupe, NamesListed;
    at := {};
    NothingListed(jobs, wanted);
    if n > 0 {
      at := NamesAreListed(jobs, wanted, n - 1);
      NamesStep(jobs, wanted, n - 1);
      if wanted(jobs[n - 1]) {
        var names := Names(jobs[..n - 1], wanted);
        DedupeStep(names, jobs[n - 1].name);
        OneMoreListed(jobs, at, n - 1, Dedupe(names));
        at := at + {n - 1};
      }
    }
  }

  lemma OneMoreListed(jobs: seq<Job>, at: set<int>, n: nat, out: seq<string>)
    requires n < |jobs| && (forall i :: i in at ==> 0 <= i < n) && NamesListed(jobs, at, out)
    ensures var x := jobs[n].name; NamesListed(jobs, at + {n}, if x in out then out else out + [x])
  {
    var x, now := jobs[n].name, at + {n};
    var all := if x in out then out else out + [x];
    hide FirstBefore;
    assert n in now;
    forall y ensures y in all <==> exists i :: 0 <= i < |jobs| && i in now && jobs[i].name == y {
      if y == x { assert jobs[n].name == y; }
    }
    forall a, b | 0 <= a < b < |all| ensures FirstBefore(jobs, now, all[a], all[b]) {
      if b < |out| {
        StillBefore(jobs, at, n, out[a], out[b]);
      } else {
        assert all[a] in out;
        NewIsLast(jobs, at, n, out[a]);
      }
    }
  }

  lemma StillBefore(jobs: seq<Job>, at: set<int>, n: nat, x: string, y: string)
    requires n < |jobs| && (forall i :: i in at ==> 0 <= i < n) && FirstBefore(jobs, at, x, y)
    ensures FirstBefore(jobs, at + {n}, x, y)
  {
    var i :| 0 <= i < |jobs| && i in at && jobs[i].name == x && forall j :: 0 <= j <= i && j in at ==> jobs[j].name != y;
    assert i in at + {n};
  }

  lemma NewIsLast(jobs: seq<Job>, at: set<int>, n: nat, x: string)
    requires n < |jobs| && (forall i :: i in at ==> 0 <= i < n && jobs[i].name != jobs[n].name)
    requires exists i :: 0 <= i < |jobs| && i in at && jobs[i].name == x
    ensures FirstBefore(jobs, at + {n}, x, jobs[n].name)
  {
    var i :| 0 <= i < |jobs| && i in at && jobs[i].name == x;
    assert i in at + {n};
  }

  lemma ImpactedReportsJobs(jobs: seq<Job>)
    ensures ReportsJobs(jobs, Impacted(jobs))
  {
    hide Names, Dedupe, NamesListed, EqualFold;
    assert jobs[..|jobs|] == jobs;
    var failed := NamesAreListed(jobs, HasFailed, |jobs|);
    var rest := NamesAreListed(jobs, NotSucceeded, |jobs|);
    assert failed == set i | 0 <= i < |jobs| && (EqualFold(jobs[i].conclusion, "failure") || EqualFold(jobs[i].status, "failed"));
    assert rest == set i | 0 <= i < |jobs| && !EqualFold(jobs[i].conclusion, "success");
  }

  method FailedJobs(jobs: seq<Job>) returns (out: seq<string>)
    ensures out == Impacted(jobs)
    ensures ReportsJobs(jobs, out)
  {
    hide *;
    ImpactedReportsJobs(jobs);
    out := [];
    NothingListed(jobs, HasFailed);
    NothingListed(jobs, NotSucceeded);
    assert jobs[..|jobs|] == jobs;
    for i := 0 to |jobs|
      invariant out == Names(jobs[..i], HasFailed)
    {
      NamesStep(jobs, HasFailed, i);
      WantedAre(jobs[i]);
      if EqualFold(jobs[i].conclusion, "failure") || EqualFold(jobs[i].status, "failed") {
        out := out + [jobs[i].name];
      }
    }
    if |out| == 0 {
      for i := 0 to |jobs|
        invariant out == Names(jobs[..i], NotSucceeded)
      {
        NamesStep(jobs, NotSucceeded, i);
        WantedAre(jobs[i]);
        if !EqualFold(jobs[i].conclusion, "success") {
          out := out + [jobs[i].name];
        }
      }
    }
    ImpactedIs(jobs);
    out := DedupeStrings(out);
  }

  lemma WantedAre(job: Job)
    ensures HasFailed(job) <==> EqualFold(job.conclusion, "failure") || EqualFold(job.status, "failed")
    ensures NotSucceeded(job) <==> !EqualFold(job.conclusion, "success")
  {
  }

  lemma ImpactedIs(jobs: seq<Job>)
    ensures Impacted(jobs) == Dedupe(if Names(jobs, HasFailed) == [] then Names(jobs, NotSucceeded) else Names(jobs, HasFailed))
  {
  }

  // ----- Scoring -----

  function Score(find: Finder, patterns: seq<string>, logs: string): nat {
    if patterns == [] then 0
    else Score(find, patterns[..|patterns| - 1], logs) + |find(patterns[|patterns| - 1], logs)|
  }

  /** Evidence of the patterns so far, filled up to three entries pattern by pattern. */
  ghost function Matched(find: Finder, patterns: seq<string>, logs: string): seq<EvidenceRef> {
    if patterns == [] then []
    else
      var earlier := Matched(find, patterns[..|patterns| - 1], logs);
      earlier + Evidence(logs, find(patterns[|patterns| - 1], logs), 3 - |earlier|)
  }

  function Confidence(score: nat, evidenceCount: nat, impactedJobs: nat, category: string): int {
    if category == UNKNOWN then (if evidenceCount > 0 then 40 else 25)
    else
      var raw := 45 + 8 * score + 4 * evidenceCount + (if impactedJobs > 0 then 3 else 0);
      if raw > 97 then 97 else raw
  }

  method ScoreToConfidence(score: nat, evidenceCount: nat, impactedJobs: nat, category: string) returns (confidence: int)
    ensures confidence == Confidence(score, evidenceCount, impactedJobs, category)
    ensures 25 <= confidence <= 97
  {
    if category == UNKNOWN {
      if evidenceCount > 0 { return 40; }
      return 25;
    }
    confidence := 45 + 8 * score + 4 * evidenceCount;
    if impactedJobs > 0 { confidence := confidence + 3; }
    if confidence > 97 { confidence := 97; }
  }

  predicate HigherConfidence(a: Recommendation, b: Recommendation) { a.confidence > b.confidence }

  ghost function Candidate(find: Finder, rule: Rule, logs: string, impactedJobs: nat): Ranked {
    var score, matched := Score(find, rule.patterns, logs), Matched(find, rule.patterns, logs);
    Ranked(rule.category, rule.rootCause, Confidence(score, |matched|, impactedJobs, rule.category), score, matched,
           StableSort(HigherConfidence, rule.recommendations))
  }

  /** The rules that match, in rule order. */
  ghost function Candidates(find: Finder, rules: seq<Rule>, logs: string, impactedJobs: nat): seq<Ranked> {
    if rules == [] then []
    else
      var rule := rules[|rules| - 1];
      Candidates(find, rules[..|rules| - 1], logs, impactedJobs) +
      (if Score(find, rule.patterns, logs) == 0 then [] else [Candidate(find, rule, logs, impactedJobs)])
  }

  /** The comparison of the ranking: score, then number of evidence entries, then confidence. */
  predicate Before(a: Ranked, b: Ranked) {
    if a.score == b.score then
      if |a.evidence| == |b.evidence| then a.confidence > b.confidence
      else |a.evidence| > |b.evidence|
    else a.score > b.score
  }

  function Joined(names: seq<string>): string {
    if names == [] then ""
    else if |names| == 1 then names[0]
    else names[0] + ", " + Joined(names[1..])
  }

  function FallbackEvidence(logs: string, impacted: seq<string>): seq<EvidenceRef> {
    var trimmed := TrimSpace(logs);
    (if impacted != [] then [EvidenceRef("job_summary", 0, "Failed jobs: " + Joined(impacted))] else []) +
    (if trimmed != "" then [EvidenceRef("run_logs", 1, if |trimmed| > 220 then trimmed[..220] else trimmed)] else [])
  }

  function UnknownDiagnosis(logs: string, impacted: seq<string>): Ranked {
    var evidence := FallbackEvidence(logs, impacted);
    Ranked(UNKNOWN, "Unable to infer root cause from available evidence.",
           Confidence(0, |evidence|, |impacted|, UNKNOWN), 0, evidence,
           [Recommendation("rerun-failed-jobs-only", 58), Recommendation("collect-more-context", 55)])
  }

  /** The ranking of already redacted logs. */
  ghost function Ranking(find: Finder, redacted: string, jobs: seq<Job>): seq<Ranked> {
    var impacted := Impacted(jobs);
    var found := Candidates(find, RULES, redacted, |impacted|);
    if found == [] then [UnknownDiagnosis(redacted, impacted)] else StableSort(Before, found)
  }

  method MatchRule(find: Finder, rule: Rule, logs: string) returns (score: nat, matched: seq<EvidenceRef>)
    ensures score == Score(find, rule.patterns, logs) && matched == Matched(find, rule.patterns, logs)
  {
    hide *;
    score := 0;
    matched := [];
    NothingMatched(find, logs);
    assert rule.patterns[..0] == [];
    for i := 0 to |rule.patterns|
      invariant score == Score(find, rule.patterns[..i], logs)
      invariant matched == Matched(find, rule.patterns[..i], logs)
    {
      PatternStep(find, rule.patterns, i, logs);
      var found := find(rule.patterns[i], logs);
      score := score + |found|;
      if |found| > 0 && |matched| < 3 {
        var more := ExtractEvidence(logs, found, 3 - |matched|);
        matched := matched + more;
      } else {
        NoEvidence(logs, found, 3 - |matched|);
        assert matched + [] == matched;
      }
    }
    assert rule.patterns[..|rule.patterns|] == rule.patterns;
  }

  lemma NothingMatched(find: Finder, logs: string)
    ensures Score(find, [], logs) == 0 && Matched(find, [], logs) == []
    ensures forall jobs: nat :: Candidates(find, [], logs, jobs) == []
  {
  }

  lemma PatternStep(find: Finder, patterns: seq<string>, i: nat, logs: string)
    requires i < |patterns|
    ensures Score(find, patterns[..i + 1], logs) == Score(find, patterns[..i], logs) + |find(patterns[i], logs)|
    ensures Matched(find, patterns[..i + 1], logs) ==
            Matched(find, patterns[..i], logs) +
            Evidence(logs, find(patterns[i], logs), 3 - |Matched(find, patterns[..i], logs)|)
  {
    hide Evidence;
    assert patterns[..i + 1][..i] == patterns[..i];
  }

  lemma RuleStep(find: Finder, rules: seq<Rule>, i: nat, logs: string, jobs: nat)
    requires i < |rules|
    ensures Candidates(find, rules[..i + 1], logs, jobs) ==
            if Score(find, rules[i].patterns, logs) == 0 then Candidates(find, rules[..i], logs, jobs)
            else Candidates(find, rules[..i], logs, jobs) + [Candidate(find, rules[i], logs, jobs)]
  {
    hide Score, Candidate;
    assert rules[..i + 1][..i] == rules[..i];
  }

  method RankFailureDiagnoses(find: Finder, rawLogs: string, jobs: seq<Job>) returns (ranked: seq<Ranked>, impactedJobs: seq<string>)
    ensures ranked == Ranking(find, Redaction.Redact(rawLogs), jobs) && impactedJobs == Impacted(jobs)
    ensures ranked != []
  {
    var logs := Redaction.RedactSecrets(rawLogs);
    impactedJobs := FailedJobs(jobs);
    hide Candidates, Score, Matched, Confidence, Impacted, UnknownDiagnosis, Redaction.Redact;
    ranked := [];
    NothingMatched(find, logs);
    assert RULES[..0] == [];
    for i := 0 to |RULES|
      invariant ranked == Candidates(find, RULES[..i], logs, |impactedJobs|)
    {
      var rule := RULES[i];
      var score, matched := MatchRule(find, rule, logs);
      RuleStep(find, RULES, i, logs, |impactedJobs|);
      if score == 0 { continue; }
      var recommendations := StableSort(HigherConfidence, rule.recommendations);
      var confidence := ScoreToConfidence(score, |matched|, |impactedJobs|, rule.category);
      ranked := ranked + [Ranked(rule.category, rule.rootCause, confidence, score, matched, recommendations)];
    }
    assert RULES[..|RULES|] == RULES;
    if |ranked| == 0 {
      ranked := [UnknownDiagnosis(logs, impactedJobs)];
    } else {
      ranked := StableSort(Before, ranked);
    }
  }

  datatype Diagnostic = Diagnostic(
    category: string, rootCause: string, confidence: int, evidence: seq<EvidenceRef>, impactedJobs: seq<string>)

  ghost function DiagnosisOf(find: Finder, redacted: string, jobs: seq<Job>): Diagnostic {
    var ranked := Ranking(find, redacted, jobs);
    var best := if ranked == [] then UnknownDiagnosis(redacted, Impacted(jobs)) else ranked[0];
    Diagnostic(best.category, best.rootCause, best.confidence, best.evidence, Impacted(jobs))
  }

  method DiagnoseFailure(find: Finder, rawLogs: string, jobs: seq<Job>)
    returns (diagnostic: Diagnostic, recommendations: seq<Recommendation>)
    ensures diagnostic == DiagnosisOf(find, Redaction.Redact(rawLogs), jobs)
    ensures recommendations == Ranking(find, Redaction.Redact(rawLogs), jobs)[0].recommendations
    ensures ReportsJobs(jobs, diagnostic.impactedJobs)
  {
    ImpactedReportsJobs(jobs);
    hide ReportsJobs, Ranking, Impacted, UnknownDiagnosis, Redaction.Redact;
    var ranked, impactedJobs := RankFailureDiagnoses(find, rawLogs, jobs);
    var best := ranked[0];
    diagnostic := Diagnostic(best.category, best.rootCause, best.confidence, best.evidence, impactedJobs);
    recommendations := best.recommendations;
  }
}
