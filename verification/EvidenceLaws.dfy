/**
When the evidence of a rule repeats itself: exactly when two of its patterns contribute
the same line.
*/
module EvidenceLaws {
  import opened Sorting
  import opened Extraction
  import opened Diagnosis
  import opened Text
  import opened DiagnosisLaws
  import opened Placement
  import PlainText
  import Redaction

  /** The lines pattern `i` contributes: the first with one of its matches, as far as there is room. */
  ghost function Kept(find: Finder, patterns: seq<string>, logs: string, i: nat): seq<nat>
    requires i < |patterns|
  {
    Take(MatchedLines(logs, find(patterns[i], logs), 0, |Lines(logs)|), 3 - |Matched(find, patterns[..i], logs)|)
  }

  ghost predicate Apart(find: Finder, patterns: seq<string>, logs: string, i: nat, j: nat)
    requires i < |patterns| && j < |patterns|
  {
    forall n :: n in Kept(find, patterns, logs, i) ==> n !in Kept(find, patterns, logs, j)
  }

  // ----- Evidence of one pattern -----

  lemma KeptIncreases(find: Finder, patterns: seq<string>, logs: string, i: nat)
    requires i < |patterns|
    ensures Increasing(Kept(find, patterns, logs, i))
  {
    hide Lines, MatchedLines, Matched;
    MatchedLinesExact(logs, find(patterns[i], logs), 0, |Lines(logs)|);
  }

  lemma EntryIn(lines: seq<string>, numbers: seq<nat>, k: nat)
    requires k in numbers
    ensures EvidenceAt(lines, k) in EvidenceFor(lines, numbers)
  {
    hide EvidenceFor, EvidenceAt;
    var i :| 0 <= i < |numbers| && numbers[i] == k;
    EvidenceForAt(lines, numbers, i);
  }

  lemma EntryFrom(lines: seq<string>, numbers: seq<nat>, e: EvidenceRef) returns (k: nat)
    requires e in EvidenceFor(lines, numbers)
    ensures k in numbers && e == EvidenceAt(lines, k)
  {
    hide EvidenceFor, EvidenceAt;
    var i :| 0 <= i < |numbers| && EvidenceFor(lines, numbers)[i] == e;
    EvidenceForAt(lines, numbers, i);
    k := numbers[i];
  }

  lemma IncreasingEntries(lines: seq<string>, numbers: seq<nat>)
    requires Increasing(numbers)
    ensures NoRepeats(EvidenceFor(lines, numbers))
  {
    hide EvidenceFor, EvidenceAt;
    forall i, j | 0 <= i < j < |numbers| ensures EvidenceFor(lines, numbers)[i] != EvidenceFor(lines, numbers)[j] {
      EvidenceForAt(lines, numbers, i);
      EvidenceForAt(lines, numbers, j);
      EntryLine(lines, numbers[i]);
      EntryLine(lines, numbers[j]);
    }
  }

  lemma EntryLine(lines: seq<string>, n: nat)
    ensures EvidenceAt(lines, n).line == n + 1
  {
  }

  // ----- Evidence of several patterns -----

  lemma MatchedGrows(find: Finder, patterns: seq<string>, logs: string, n: nat)
    requires n < |patterns|
    ensures Matched(find, patterns[..n + 1], logs) ==
            Matched(find, patterns[..n], logs) + EvidenceFor(Lines(logs), Kept(find, patterns, logs, n))
  {
    hide Matched, Lines, MatchedLines, EvidenceFor, Take;
    PatternStep(find, patterns, n, logs);
  }

  lemma NoPatterns(find: Finder, patterns: seq<string>, logs: string)
    ensures Matched(find, patterns[..0], logs) == []
  {
  }

  /** The entries are those of the lines some pattern contributes. */
  lemma {:induction false} KeptIsMatched(find: Finder, patterns: seq<string>, logs: string, n: nat, i: nat, k: nat)
    requires i < n <= |patterns| && k in Kept(find, patterns, logs, i)
    ensures EvidenceAt(Lines(logs), k) in Matched(find, patterns[..n], logs)
  {
    hide Matched, Lines, Kept, EvidenceFor, EvidenceAt;
    MatchedGrows(find, patterns, logs, n - 1);
    if i == n - 1 {
      EntryIn(Lines(logs), Kept(find, patterns, logs, i), k);
    } else {
      KeptIsMatched(find, patterns, logs, n - 1, i, k);
    }
  }

  lemma {:induction false} MatchedIsKept(find: Finder, patterns: seq<string>, logs: string, n: nat, e: EvidenceRef)
    returns (i: nat, k: nat)
    requires n <= |patterns| && e in Matched(find, patterns[..n], logs)
    ensures i < n && k in Kept(find, patterns, logs, i) && e == EvidenceAt(Lines(logs), k)
  {
    hide Matched, Lines, Kept, EvidenceFor, EvidenceAt;
    NoPatterns(find, patterns, logs);
    if n > 0 {
      MatchedGrows(find, patterns, logs, n - 1);
      if e in Matched(find, patterns[..n - 1], logs) {
        i, k := MatchedIsKept(find, patterns, logs, n - 1, e);
      } else {
        i := n - 1;
        k := EntryFrom(Lines(logs), Kept(find, patterns, logs, i), e);
      }
    }
  }

  lemma SharedRepeats<T>(a: seq<T>, b: seq<T>, x: T)
    requires x in a && x in b
    ensures !NoRepeats(a + b)
  {
    var i :| 0 <= i < |a| && a[i] == x;
    var j :| 0 <= j < |b| && b[j] == x;
    assert (a + b)[i] == (a + b)[|a| + j];
  }

  lemma NoRepeatsConcat<T>(a: seq<T>, b: seq<T>)
    ensures NoRepeats(a + b) <==> NoRepeats(a) && NoRepeats(b) && forall x :: x in a ==> x !in b
  {
    var s := a + b;
    if NoRepeats(s) {
      forall i, j | 0 <= i < j < |a| ensures a[i] != a[j] { assert s[i] == a[i] && s[j] == a[j]; }
      forall i, j | 0 <= i < j < |b| ensures b[i] != b[j] { assert s[|a| + i] == b[i] && s[|a| + j] == b[j]; }
      forall x | x in a ensures x !in b {
        if x in b { SharedRepeats(a, b, x); }
      }
    }
    if NoRepeats(a) && NoRepeats(b) && forall x :: x in a ==> x !in b {
      forall i, j | 0 <= i < j < |s| ensures s[i] != s[j] {
        assert i < |a| ==> s[i] in a;
        assert j >= |a| ==> s[j] in b;
      }
    }
  }

  /** Pattern `n` adds no entry that is there already. */
  ghost predicate AddsNew(find: Finder, patterns: seq<string>, logs: string, n: nat)
    requires n < |patterns|
  {
    forall e :: e in Matched(find, patterns[..n], logs) ==> e !in EvidenceFor(Lines(logs), Kept(find, patterns, logs, n))
  }

  lemma NewIsApart(find: Finder, patterns: seq<string>, logs: string, n: nat, i: nat)
    requires i < n < |patterns| && AddsNew(find, patterns, logs, n)
    ensures Apart(find, patterns, logs, i, n)
  {
    hide Matched, Lines, Kept, EvidenceFor, EvidenceAt;
    var lines, kept := Lines(logs), Kept(find, patterns, logs, n);
    forall k | k in Kept(find, patterns, logs, i) ensures k !in kept {
      KeptIsMatched(find, patterns, logs, n, i, k);
      if k in kept { EntryIn(lines, kept, k); }
    }
  }

  lemma ApartIsNew(find: Finder, patterns: seq<string>, logs: string, n: nat)
    requires n < |patterns| && forall i :: 0 <= i < n ==> Apart(find, patterns, logs, i, n)
    ensures AddsNew(find, patterns, logs, n)
  {
    hide Matched, Lines, Kept, EvidenceFor, EvidenceAt, Apart;
    var lines, kept := Lines(logs), Kept(find, patterns, logs, n);
    forall e | e in Matched(find, patterns[..n], logs) ensures e !in EvidenceFor(lines, kept) {
      var i, k := MatchedIsKept(find, patterns, logs, n, e);
      ApartLines(find, patterns, logs, i, n, k);
      if e in EvidenceFor(lines, kept) {
        var l := EntryFrom(lines, kept, e);
        EntryLine(lines, k);
        EntryLine(lines, l);
      }
    }
  }

  lemma ApartLines(find: Finder, patterns: seq<string>, logs: string, i: nat, j: nat, k: nat)
    requires i < |patterns| && j < |patterns|
    requires Apart(find, patterns, logs, i, j) && k in Kept(find, patterns, logs, i)
    ensures k !in Kept(find, patterns, logs, j)
  {
  }

  lemma {:induction false} DistinctUpTo(find: Finder, patterns: seq<string>, logs: string, n: nat)
    requires n <= |patterns|
    ensures NoRepeats(Matched(find, patterns[..n], logs)) <==>
            forall i, j :: 0 <= i < j < n ==> Apart(find, patterns, logs, i, j)
  {
    hide Matched, Lines, Kept, EvidenceFor, Apart, AddsNew;
    NoPatterns(find, patterns, logs);
    if n > 0 {
      DistinctUpTo(find, patterns, logs, n - 1);
      DistinctStep(find, patterns, logs, n - 1);
      NewIff(find, patterns, logs, n - 1);
    }
  }

  lemma NewIff(find: Finder, patterns: seq<string>, logs: string, n: nat)
    requires n < |patterns|
    ensures AddsNew(find, patterns, logs, n) <==> forall i :: 0 <= i < n ==> Apart(find, patterns, logs, i, n)
  {
    hide Matched, Kept, Apart, AddsNew;
    if AddsNew(find, patterns, logs, n) {
      forall i | 0 <= i < n ensures Apart(find, patterns, logs, i, n) {
        NewIsApart(find, patterns, logs, n, i);
      }
    } else if forall i :: 0 <= i < n ==> Apart(find, patterns, logs, i, n) {
      ApartIsNew(find, patterns, logs, n);
    }
  }

  lemma DistinctStep(find: Finder, patterns: seq<string>, logs: string, n: nat)
    requires n < |patterns|
    ensures NoRepeats(Matched(find, patterns[..n + 1], logs)) <==>
            NoRepeats(Matched(find, patterns[..n], logs)) && AddsNew(find, patterns, logs, n)
  {
    hide Matched, Lines, Kept, EvidenceFor, NoRepeats;
    MatchedGrows(find, patterns, logs, n);
    NoRepeatsConcat(Matched(find, patterns[..n], logs), EvidenceFor(Lines(logs), Kept(find, patterns, logs, n)));
    KeptIncreases(find, patterns, logs, n);
    IncreasingEntries(Lines(logs), Kept(find, patterns, logs, n));
  }

  /** No entry is repeated exactly when no two patterns contribute the same line. */
  lemma EvidenceDistinctIff(find: Finder, patterns: seq<string>, logs: string)
    ensures NoRepeats(Matched(find, patterns, logs)) <==>
            forall i, j :: 0 <= i < j < |patterns| ==> Apart(find, patterns, logs, i, j)
  {
    hide Matched, Apart;
    assert patterns[..|patterns|] == patterns;
    DistinctUpTo(find, patterns, logs, |patterns|);
  }

  /** With fewer than three entries nothing was cut: every line with a match of some pattern
      has its entry. */
  lemma FewEntriesAreAll(find: Finder, patterns: seq<string>, logs: string, i: nat, m: Span)
    requires |Matched(find, patterns, logs)| < 3
    requires i < |patterns| && m in find(patterns[i], logs) && m.start <= |logs|
    ensures exists e :: e in Matched(find, patterns, logs) && e.line == LineOf(logs, m.start) + 1
  {
    hide Matched, Lines, EvidenceFor, EvidenceAt, LineOf, MatchedLines, HoldsMatch;
    assert patterns[..|patterns|] == patterns;
    MatchedOnlyGrows(find, patterns, logs, i + 1, |patterns|);
    MatchedGrows(find, patterns, logs, i);
    var found := find(patterns[i], logs);
    var l := LineOf(logs, m.start);
    MatchIsOnALine(logs, m);
    MatchOnItsLine(logs, found, m);
    MatchedLinesExact(logs, found, 0, |Lines(logs)|);
    assert l in Kept(find, patterns, logs, i);
    KeptIsMatched(find, patterns, logs, |patterns|, i, l);
    EntryLine(Lines(logs), l);
  }

  lemma {:induction false} MatchedOnlyGrows(find: Finder, patterns: seq<string>, logs: string, i: nat, n: nat)
    requires i <= n <= |patterns|
    ensures |Matched(find, patterns[..i], logs)| <= |Matched(find, patterns[..n], logs)|
  {
    hide Matched, Kept, EvidenceFor;
    if i < n {
      MatchedOnlyGrows(find, patterns, logs, i, n - 1);
      MatchedGrows(find, patterns, logs, n - 1);
    }
  }

  /** An unknown failure shows the impacted jobs, if there are any, and then the first 220
      characters of the trimmed logs, if these are not blank. */
  lemma UnknownShows(redacted: string, impacted: seq<string>)
    ensures var u, t := UnknownDiagnosis(redacted, impacted), TrimSpace(redacted);
            && u.category == "unknown" && u.score == 0
            && |u.evidence| == (if impacted == [] then 0 else 1) + (if t == "" then 0 else 1)
            && (impacted != [] ==> u.evidence[0].source == "job_summary")
            && (t != "" ==> var e := u.evidence[|u.evidence| - 1];
                            e.source == "run_logs" && e.line == 1 && e.snippet <= t &&
                            (if |t| <= 220 then e.snippet == t else |e.snippet| == 220))
            && u.confidence == (if impacted == [] && t == "" then 25 else 40)
  {
    hide TrimSpace, Joined;
  }

  // ----- A log that repeats its evidence -----

  lemma OneLineEvidence(logs: string, m: Span, limit: int)
    requires '\n' !in logs && m.start <= |logs| && limit > 0
    ensures Evidence(logs, [m], limit) == [EvidenceRef("run_logs", 1, TrimSpace(logs))]
  {
    hide TrimSpace;
    assert Lines(logs) == [logs];
    NoNewlines(logs[..m.start]);
    assert m in [m] && HoldsMatch(logs, [m], 0);
    assert MatchedLines(logs, [m], 1, 1) == [];
    assert MatchedLines(logs, [m], 0, 1) == [0];
    assert EvidenceFor([logs], [0]) == [EvidenceAt([logs], 0)];
  }

  const NO_HOST: string := "could not resolve host"
  const REFUSED: string := "connection refused"
  const OUTAGE: string := NO_HOST + " " + REFUSED

  /** The rule for unavailable dependencies. */
  const OUTAGE_RULE: nat := 1

  /** What the engine finds on that text for the patterns of the rules. */
  ghost predicate FindsOutage(find: Finder) {
    var p := RULES[OUTAGE_RULE].patterns;
    && find(p[0], OUTAGE) == [Span(0, 22)] && find(p[1], OUTAGE) == [Span(23, 41)]
    && (forall i :: 2 <= i < |p| ==> find(p[i], OUTAGE) == [])
    && (forall k, i :: 0 <= k < |RULES| && k != OUTAGE_RULE && 0 <= i < |RULES[k].patterns| ==> find(RULES[k].patterns[i], OUTAGE) == [])
  }

  lemma OutageWords()
    ensures |NO_HOST| == 22 && PlainText.IsPlain(NO_HOST) && |REFUSED| == 18 && PlainText.IsPlain(REFUSED)
    ensures '\n' !in NO_HOST && '\n' !in REFUSED
  {
  }

  lemma OutageText()
    ensures |OUTAGE| == 41 && '\n' !in OUTAGE && TrimSpace(OUTAGE) == OUTAGE && PlainText.IsPlain(OUTAGE)
  {
    assert NO_HOST[0] == 'c' && REFUSED[17] == 'd';
    hide NO_HOST, REFUSED;
    OutageWords();
    var t := NO_HOST + " " + REFUSED;
    assert t[0] == 'c' && t[40] == 'd' && t[22] == ' ';
    assert forall i :: 0 <= i < 22 ==> t[i] == NO_HOST[i];
    assert forall i :: 23 <= i < 41 ==> t[i] == REFUSED[i - 23];
    TrimIdle(t);
  }

  lemma OutagePatterns()
    ensures OUTAGE_RULE < |RULES| == 5 && |RULES[OUTAGE_RULE].patterns| == 5 && RULES[OUTAGE_RULE].category == "dependency_outage"
  {
  }

  lemma OutageMatched(find: Finder)
    requires FindsOutage(find)
    ensures var p, e := RULES[OUTAGE_RULE].patterns, EvidenceRef("run_logs", 1, OUTAGE);
            Score(find, p, OUTAGE) == 2 && Matched(find, p, OUTAGE) == [e, e]
  {
    OutagePatterns();
    OutageText();
    hide OUTAGE, NO_HOST, REFUSED, RULES, Score, Matched, TrimSpace, PlainText.IsPlain;
    TwoOnOneLine(find, RULES[OUTAGE_RULE].patterns, OUTAGE, Span(0, 22), Span(23, 41));
  }

  /** Patterns without a match add nothing. */
  lemma {:induction false} SilentPatterns(find: Finder, p: seq<string>, logs: string, n: nat, m: nat)
    requires n <= m <= |p| && forall i :: n <= i < m ==> find(p[i], logs) == []
    ensures Score(find, p[..m], logs) == Score(find, p[..n], logs)
    ensures Matched(find, p[..m], logs) == Matched(find, p[..n], logs)
  {
    hide *;
    if n < m {
      SilentPatterns(find, p, logs, n, m - 1);
      SilentStep(find, p, logs, m - 1);
    }
  }

  lemma SilentStep(find: Finder, p: seq<string>, logs: string, i: nat)
    requires i < |p| && find(p[i], logs) == []
    ensures Score(find, p[..i + 1], logs) == Score(find, p[..i], logs)
    ensures Matched(find, p[..i + 1], logs) == Matched(find, p[..i], logs)
  {
    hide *;
    var earlier := Matched(find, p[..i], logs);
    PatternStep(find, p, i, logs);
    NoEvidence(logs, [], 3 - |earlier|);
    assert earlier + [] == earlier;
  }

  lemma OneMatchStep(find: Finder, p: seq<string>, logs: string, i: nat, m: Span)
    requires i < |p| && find(p[i], logs) == [m] && m.start <= |logs| && '\n' !in logs
    requires |Matched(find, p[..i], logs)| < 3
    ensures Score(find, p[..i + 1], logs) == Score(find, p[..i], logs) + 1
    ensures Matched(find, p[..i + 1], logs) == Matched(find, p[..i], logs) + [EvidenceRef("run_logs", 1, TrimSpace(logs))]
  {
    hide *;
    PatternStep(find, p, i, logs);
    OneLineEvidence(logs, m, 3 - |Matched(find, p[..i], logs)|);
  }

  lemma TwoOnOneLine(find: Finder, p: seq<string>, logs: string, first: Span, second: Span)
    requires |p| >= 2 && '\n' !in logs && TrimSpace(logs) == logs && first.start <= |logs| && second.start <= |logs|
    requires find(p[0], logs) == [first] && find(p[1], logs) == [second]
    requires forall i :: 2 <= i < |p| ==> find(p[i], logs) == []
    ensures var e := EvidenceRef("run_logs", 1, logs); Score(find, p, logs) == 2 && Matched(find, p, logs) == [e, e]
  {
    hide *;
    NothingMatched(find, logs);
    assert p[..0] == [] && p[..|p|] == p;
    OneMatchStep(find, p, logs, 0, first);
    OneMatchStep(find, p, logs, 1, second);
    SilentPatterns(find, p, logs, 2, |p|);
  }

  /** A log of one line that two patterns of a rule match is diagnosed with the same entry twice. */
  lemma OutageEvidenceRepeats(find: Finder, jobs: seq<Job>)
    requires FindsOutage(find)
    ensures var d, e := DiagnosisOf(find, Redaction.Redact(OUTAGE), jobs), EvidenceRef("run_logs", 1, OUTAGE);
            d.category == "dependency_outage" && d.evidence == [e, e]
  {
    hide *;
    OutagePatterns();
    OutageText();
    PlainText.PlainTextIsKept(OUTAGE);
    OutageMatched(find);
    OnlyOutageScores(find);
    NoneAhead(find, RULES, OUTAGE, OUTAGE_RULE, |RULES|);
    RankOfRule(find, OUTAGE, jobs, OUTAGE_RULE);
    FirstRanked(find, OUTAGE, jobs, RULES[OUTAGE_RULE]);
  }

  lemma FirstRanked(find: Finder, redacted: string, jobs: seq<Job>, rule: Rule)
    requires var r := Ranking(find, redacted, jobs);
             r != [] && r[0] == Candidate(find, rule, redacted, |Impacted(jobs)|)
    ensures var d := DiagnosisOf(find, redacted, jobs);
            d.category == rule.category && d.evidence == Matched(find, rule.patterns, redacted)
  {
    hide Ranking, Impacted, Score, Matched, Confidence, StableSort;
  }

  lemma OnlyOutageScores(find: Finder)
    requires FindsOutage(find)
    ensures forall i :: 0 <= i < |RULES| && i != OUTAGE_RULE ==> Score(find, RULES[i].patterns, OUTAGE) == 0
  {
    hide OUTAGE, Score;
    forall i | 0 <= i < |RULES| && i != OUTAGE_RULE ensures Score(find, RULES[i].patterns, OUTAGE) == 0 {
      NoScore(find, RULES[i].patterns, OUTAGE);
    }
  }
}
