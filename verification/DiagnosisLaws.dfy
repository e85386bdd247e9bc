/**
Laws of the ranking: how many evidence entries a matched rule has, that confidence
never increases down the ranking although it is only the last sort key, and that the
order of the categories does not depend on the job list.
*/
module DiagnosisLaws {
  import opened Text
  import opened Extraction
  import opened Sorting
  import opened Diagnosis

  // ----- Evidence counts -----

  lemma {:induction false} AtMostThree(find: Finder, patterns: seq<string>, logs: string)
    ensures |Matched(find, patterns, logs)| <= 3
  {
    if patterns != [] {
      var earlier := patterns[..|patterns| - 1];
      AtMostThree(find, earlier, logs);
      EvidenceSize(logs, find(patterns[|patterns| - 1], logs), 3 - |Matched(find, earlier, logs)|);
    }
  }

  /** A matched rule has one, two or three evidence entries. */
  lemma {:induction false} MatchedHasEvidence(find: Finder, patterns: seq<string>, logs: string)
    requires StartsInside(find)
    ensures |Matched(find, patterns, logs)| <= 3
    ensures Matched(find, patterns, logs) == [] <==> Score(find, patterns, logs) == 0
  {
    AtMostThree(find, patterns, logs);
    if patterns != [] {
      var n := |patterns| - 1;
      var found := find(patterns[n], logs);
      MatchedHasEvidence(find, patterns[..n], logs);
      var room := 3 - |Matched(find, patterns[..n], logs)|;
      hide Evidence;
      if found == [] {
        NoEvidence(logs, found, room);
      } else if room == 3 {
        assert MatchesInside(find, patterns[n], logs);
        assert found[0] in found;
        EvidenceNonEmpty(logs, found, room);
      }
    }
  }

  // ----- What the candidates are -----

  /** A candidate of some rule, with at least one match. */
  predicate Plausible(c: Ranked, impactedJobs: nat) {
    && 0 < c.score && 1 <= |c.evidence| <= 3 && c.category != UNKNOWN
    && c.confidence == Confidence(c.score, |c.evidence|, impactedJobs, c.category)
  }

  lemma {:induction false} CandidatesPlausible(find: Finder, rules: seq<Rule>, logs: string, jobs: nat)
    requires StartsInside(find) && forall i :: 0 <= i < |rules| ==> rules[i].category != UNKNOWN
    ensures forall i :: 0 <= i < |Candidates(find, rules, logs, jobs)| ==> Plausible(Candidates(find, rules, logs, jobs)[i], jobs)
  {
    if rules != [] {
      hide Score, Matched, Confidence;
      var rule := rules[|rules| - 1];
      CandidatesPlausible(find, rules[..|rules| - 1], logs, jobs);
      MatchedHasEvidence(find, rule.patterns, logs);
      assert Score(find, rule.patterns, logs) != 0 ==> Plausible(Candidate(find, rule, logs, jobs), jobs);
    }
  }

  lemma NoRuleIsUnknown()
    ensures forall i :: 0 <= i < |RULES| ==> RULES[i].category != UNKNOWN
  {
  }

  // ----- The comparison -----

  lemma BeforeIsWeakOrder()
    ensures WeakOrder(Before) && WeakOrder(HigherConfidence)
  {
  }

  /** One more match outweighs any difference in evidence, and the cap keeps the order. */
  lemma NotBeforeNotLess(a: Ranked, b: Ranked, jobs: nat)
    requires Plausible(a, jobs) && Plausible(b, jobs) && !Before(b, a)
    ensures a.confidence >= b.confidence
  {
  }

  lemma {:induction false} SortPlausible(s: seq<Ranked>, jobs: nat)
    requires forall i :: 0 <= i < |s| ==> Plausible(s[i], jobs)
    ensures forall i :: 0 <= i < |s| ==> Plausible(StableSort(Before, s)[i], jobs)
  {
    hide Plausible;
    StableSortMembers(Before, s);
    forall i | 0 <= i < |s| ensures Plausible(StableSort(Before, s)[i], jobs) {
      assert StableSort(Before, s)[i] in multiset(StableSort(Before, s));
      assert StableSort(Before, s)[i] in s;
    }
  }

  /** Confidence never increases down the ranking. */
  lemma ConfidenceDescends(find: Finder, redacted: string, jobs: seq<Job>)
    requires StartsInside(find)
    ensures var r := Ranking(find, redacted, jobs);
            forall i, j :: 0 <= i < j < |r| ==> r[i].confidence >= r[j].confidence
  {
    hide Candidates, Impacted, StableSort, Confidence, UnknownDiagnosis, Plausible, Before;
    var r := Ranking(find, redacted, jobs);
    var n := |Impacted(jobs)|;
    var s := Candidates(find, RULES, redacted, n);
    NoRuleIsUnknown();
    CandidatesPlausible(find, RULES, redacted, n);
    if s != [] {
      BeforeIsWeakOrder();
      StableSortOrdered(Before, s);
      SortPlausible(s, n);
      forall i, j | 0 <= i < j < |r| ensures r[i].confidence >= r[j].confidence {
        NotBeforeNotLess(r[i], r[j], n);
      }
    }
  }

  /** The ranking is a rearrangement of the matched rules; `unknown` appears alone, when none matches. */
  lemma RankingIsComplete(find: Finder, redacted: string, jobs: seq<Job>)
    ensures var s := Candidates(find, RULES, redacted, |Impacted(jobs)|);
            var r := Ranking(find, redacted, jobs);
            && (s != [] ==> multiset(r) == multiset(s) && Ordered(Before, r))
            && (s == [] ==> |r| == 1 && r[0].category == UNKNOWN && r[0].score == 0)
            && (forall x :: s != [] ==> Ties(Before, x, r) == Ties(Before, x, s))
  {
    hide Candidates, Impacted, StableSort, FallbackEvidence, Ties, Confidence;
    var s := Candidates(find, RULES, redacted, |Impacted(jobs)|);
    BeforeIsWeakOrder();
    StableSortMembers(Before, s);
    StableSortOrdered(Before, s);
    forall x ensures s != [] ==> Ties(Before, x, Ranking(find, redacted, jobs)) == Ties(Before, x, s) {
      StableSortKeepsTies(Before, x, s);
    }
  }

  // ----- Independence of the job list -----

  /** Equal but for the confidence. */
  predicate SameButConfidence(a: Ranked, b: Ranked) { a.(confidence := b.confidence) == b }

  ghost predicate SameRanking(a: seq<Ranked>, b: seq<Ranked>) {
    |a| == |b| && forall i :: 0 <= i < |a| ==> SameButConfidence(a[i], b[i])
  }

  ghost predicate AllPlausible(s: seq<Ranked>, jobs: nat) {
    forall i :: 0 <= i < |s| ==> Plausible(s[i], jobs)
  }

  lemma SameComparison(a: Ranked, b: Ranked, m: nat, a': Ranked, b': Ranked, n: nat)
    requires SameButConfidence(a, a') && SameButConfidence(b, b')
    requires Plausible(a, m) && Plausible(b, m) && Plausible(a', n) && Plausible(b', n)
    ensures Before(a, b) == Before(a', b')
  {
  }

  lemma ConsSame(x: Ranked, s: seq<Ranked>, m: nat, x': Ranked, s': seq<Ranked>, n: nat)
    requires SameButConfidence(x, x') && SameRanking(s, s')
    requires Plausible(x, m) && AllPlausible(s, m) && Plausible(x', n) && AllPlausible(s', n)
    ensures SameRanking([x] + s, [x'] + s') && AllPlausible([x] + s, m) && AllPlausible([x'] + s', n)
  {
    hide Plausible, SameButConfidence;
  }

  lemma TailSame(s: seq<Ranked>, m: nat, s': seq<Ranked>, n: nat)
    requires SameRanking(s, s') && AllPlausible(s, m) && AllPlausible(s', n) && s != []
    ensures |s| == |s'| && SameButConfidence(s[0], s'[0]) && Plausible(s[0], m) && Plausible(s'[0], n)
    ensures SameRanking(s[1..], s'[1..]) && AllPlausible(s[1..], m) && AllPlausible(s'[1..], n)
  {
    hide Plausible, SameButConfidence;
  }

  lemma {:induction false} InsertSame(x: Ranked, s: seq<Ranked>, m: nat, x': Ranked, s': seq<Ranked>, n: nat)
    requires SameButConfidence(x, x') && SameRanking(s, s')
    requires Plausible(x, m) && AllPlausible(s, m) && Plausible(x', n) && AllPlausible(s', n)
    ensures SameRanking(InsertStable(Before, x, s), InsertStable(Before, x', s'))
    ensures AllPlausible(InsertStable(Before, x, s), m) && AllPlausible(InsertStable(Before, x', s'), n)
  {
    assert |s| == |s'|;
    hide Plausible, SameButConfidence, Before, SameRanking, AllPlausible;
    ConsSame(x, s, m, x', s', n);
    if s != [] {
      TailSame(s, m, s', n);
      SameComparison(s[0], x, m, s'[0], x', n);
      InsertSame(x, s[1..], m, x', s'[1..], n);
      ConsSame(s[0], InsertStable(Before, x, s[1..]), m, s'[0], InsertStable(Before, x', s'[1..]), n);
    }
  }

  lemma {:induction false} SortSame(s: seq<Ranked>, m: nat, s': seq<Ranked>, n: nat)
    requires SameRanking(s, s') && AllPlausible(s, m) && AllPlausible(s', n)
    ensures SameRanking(StableSort(Before, s), StableSort(Before, s'))
    ensures AllPlausible(StableSort(Before, s), m) && AllPlausible(StableSort(Before, s'), n)
  {
    hide Plausible, SameButConfidence, Before;
    if s != [] {
      SortSame(s[1..], m, s'[1..], n);
      InsertSame(s[0], StableSort(Before, s[1..]), m, s'[0], StableSort(Before, s'[1..]), n);
    }
  }

  lemma {:induction false} CandidatesSame(find: Finder, rules: seq<Rule>, logs: string, m: nat, n: nat)
    ensures SameRanking(Candidates(find, rules, logs, m), Candidates(find, rules, logs, n))
  {
    if rules != [] {
      hide Candidates, Score, Candidate, SameButConfidence;
      var k := |rules| - 1;
      CandidatesSame(find, rules[..k], logs, m, n);
      CandidateSame(find, rules[k], logs, m, n);
      assert rules[..k + 1] == rules;
      RuleStep(find, rules, k, logs, m);
      RuleStep(find, rules, k, logs, n);
    }
  }

  lemma CandidateSame(find: Finder, rule: Rule, logs: string, m: nat, n: nat)
    ensures SameButConfidence(Candidate(find, rule, logs, m), Candidate(find, rule, logs, n))
  {
    hide Score, Matched, Confidence, StableSort;
  }

  function Categories(r: seq<Ranked>): (c: seq<string>)
    ensures |c| == |r| && forall i :: 0 <= i < |r| ==> c[i] == r[i].category
  {
    if r == [] then [] else [r[0].category] + Categories(r[1..])
  }

  /** The categories come in the same order whatever the jobs are: the confidence key never decides. */
  lemma CategoriesIgnoreJobs(find: Finder, redacted: string, jobs: seq<Job>, jobs': seq<Job>)
    requires StartsInside(find)
    ensures Categories(Ranking(find, redacted, jobs)) == Categories(Ranking(find, redacted, jobs'))
  {
    hide Candidates, Impacted, StableSort, Confidence, FallbackEvidence;
    var m, n := |Impacted(jobs)|, |Impacted(jobs')|;
    NoRuleIsUnknown();
    CandidatesPlausible(find, RULES, redacted, m);
    CandidatesPlausible(find, RULES, redacted, n);
    CandidatesSame(find, RULES, redacted, m, n);
    SortSame(Candidates(find, RULES, redacted, m), m, Candidates(find, RULES, redacted, n), n);
  }

  /** The diagnosis is the first of the ranking, and no matched rule scores more. */
  lemma DiagnosisIsBest(find: Finder, redacted: string, jobs: seq<Job>)
    ensures var s := Candidates(find, RULES, redacted, |Impacted(jobs)|);
            var d := DiagnosisOf(find, redacted, jobs);
            && d.category == Categories(Ranking(find, redacted, jobs))[0]
            && d.rootCause != "" && !Blank(d.category)
            && (s == [] <==> d.category == UNKNOWN)
            && (s != [] ==> exists k :: 0 <= k < |s| && s[k].category == d.category && s[k].confidence == d.confidence
                             && forall i :: 0 <= i < |s| ==> s[i].score <= s[k].score)
  {
    hide Candidates, Impacted, StableSort, Confidence, FallbackEvidence, Blank;
    var s := Candidates(find, RULES, redacted, |Impacted(jobs)|);
    var r := Ranking(find, redacted, jobs);
    NotBlank(UNKNOWN);
    RankingIsComplete(find, redacted, jobs);
    if s != [] {
      assert |r| == |multiset(r)| == |multiset(s)| == |s|;
      assert r[0] in multiset(s);
      var k :| 0 <= k < |s| && s[k] == r[0];
      RulesAreNamed();
      CandidateOfRule(find, RULES, redacted, |Impacted(jobs)|, k);
      forall i | 0 <= i < |s| ensures s[i].score <= r[0].score {
        assert s[i] in multiset(r);
        var j :| 0 <= j < |r| && r[j] == s[i];
      }
    }
  }

  predicate Named(category: string, rootCause: string) {
    category != UNKNOWN && !Blank(category) && rootCause != ""
  }

  lemma RulesAreNamed()
    ensures forall i :: 0 <= i < |RULES| ==> Named(RULES[i].category, RULES[i].rootCause)
  {
    hide Blank;
    forall i | 0 <= i < |RULES| ensures Named(RULES[i].category, RULES[i].rootCause) {
      NotBlank(RULES[i].category);
    }
  }

  /** Every candidate comes from a rule, so it has a category and a root cause. */
  lemma {:induction false} CandidateOfRule(find: Finder, rules: seq<Rule>, logs: string, jobs: nat, k: nat)
    requires k < |Candidates(find, rules, logs, jobs)|
    requires forall i :: 0 <= i < |rules| ==> Named(rules[i].category, rules[i].rootCause)
    ensures var c := Candidates(find, rules, logs, jobs)[k]; Named(c.category, c.rootCause)
  {
    hide Score, Matched, Confidence, StableSort, Named;
    var earlier := Candidates(find, rules[..|rules| - 1], logs, jobs);
    if k < |earlier| { CandidateOfRule(find, rules[..|rules| - 1], logs, jobs, k); }
  }

  /** The diagnosis names the failed jobs, or without any those that did not succeed. */
  lemma DiagnosisReportsJobs(find: Finder, redacted: string, jobs: seq<Job>)
    ensures ReportsJobs(jobs, DiagnosisOf(find, redacted, jobs).impactedJobs)
  {
    ImpactedReportsJobs(jobs);
    hide ReportsJobs, Impacted, Ranking, UnknownDiagnosis;
  }

  // ----- What score, confidence and recommendations are -----

  /** The score is additive over the patterns, and of one pattern the number of its matches. */
  lemma {:induction false} ScoreAdds(find: Finder, a: seq<string>, b: seq<string>, logs: string)
    ensures Score(find, a + b, logs) == Score(find, a, logs) + Score(find, b, logs)
    ensures |a| == 1 ==> Score(find, a, logs) == |find(a[0], logs)|
  {
    if |a| == 1 { assert a[..0] == []; }
    if b == [] {
      assert a + b == a;
    } else {
      var n := |b| - 1;
      assert (a + b)[..|a| + n] == a + b[..n];
      ScoreAdds(find, a, b[..n], logs);
    }
  }

  /** One match on one line, without jobs, gives 57 hundredths; a further match adds 8, a
      further entry 4, and impacted jobs 3, always up to 97. Unknown failures have 40 with
      evidence and 25 without. */
  lemma ConfidenceGrows(score: nat, evidence: nat, jobs: nat, category: string)
    ensures category != "unknown" ==>
              var c := Confidence(score, evidence, jobs, category);
              && c <= 97
              && Confidence(1, 1, 0, category) == 57
              && Confidence(score + 1, evidence, jobs, category) == (if c + 8 > 97 then 97 else c + 8)
              && Confidence(score, evidence + 1, jobs, category) == (if c + 4 > 97 then 97 else c + 4)
              && (jobs > 0 ==> Confidence(score, evidence, 0, category) == 97 ||
                               c == (if Confidence(score, evidence, 0, category) + 3 > 97 then 97 else Confidence(score, evidence, 0, category) + 3))
    ensures Confidence(score, evidence, jobs, "unknown") == (if evidence == 0 then 25 else 40)
  {
  }

  ghost predicate RanksRecommendations(find: Finder, rules: seq<Rule>, r: Ranked) {
    && (forall i, j :: 0 <= i < j < |r.recommendations| ==> r.recommendations[i].confidence >= r.recommendations[j].confidence)
    && exists k :: 0 <= k < |rules| && r.category == rules[k].category && r.rootCause == rules[k].rootCause &&
                   multiset(r.recommendations) == multiset(rules[k].recommendations)
  }

  lemma CandidateRecommends(find: Finder, rules: seq<Rule>, k: nat, logs: string, jobs: nat)
    requires k < |rules|
    ensures RanksRecommendations(find, rules, Candidate(find, rules[k], logs, jobs))
  {
    hide Score, Matched, Confidence, StableSort;
    var s := rules[k].recommendations;
    BeforeIsWeakOrder();
    StableSortOrdered(HigherConfidence, s);
    StableSortMembers(HigherConfidence, s);
    var r := StableSort(HigherConfidence, s);
    forall i, j | 0 <= i < j < |r| ensures r[i].confidence >= r[j].confidence {
      assert !HigherConfidence(r[j], r[i]);
    }
  }

  lemma {:induction false} NoScore(find: Finder, patterns: seq<string>, logs: string)
    requires forall i :: 0 <= i < |patterns| ==> find(patterns[i], logs) == []
    ensures Score(find, patterns, logs) == 0
  {
    if patterns != [] { NoScore(find, patterns[..|patterns| - 1], logs); }
  }
}
