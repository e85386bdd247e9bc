/**
Where a rule stands in the ranking: after exactly the matching rules that score more, or
score the same with more evidence, or equal it in both and come earlier among the rules.
*/
module Placement {
  import opened Sorting
  import opened Diagnosis
  import opened DiagnosisLaws

  /** Rule `i` matches and comes before rule `k`. */
  ghost predicate RuleAhead(find: Finder, rules: seq<Rule>, logs: string, i: nat, k: nat)
    requires i < |rules| && k < |rules|
  {
    var si, sk := Score(find, rules[i].patterns, logs), Score(find, rules[k].patterns, logs);
    var ei, ek := |Matched(find, rules[i].patterns, logs)|, |Matched(find, rules[k].patterns, logs)|;
    si > 0 && i != k && (si > sk || (si == sk && (ei > ek || (ei == ek && i < k))))
  }

  /** How many of the first `n` rules come before rule `k`. */
  ghost function RulesAhead(find: Finder, rules: seq<Rule>, logs: string, k: nat, n: nat): nat
    requires k < |rules| && n <= |rules|
  {
    if n == 0 then 0
    else RulesAhead(find, rules, logs, k, n - 1) + (if RuleAhead(find, rules, logs, n - 1, k) then 1 else 0)
  }

  /** For two matching rules the comparison of the candidates is that of the rules. */
  lemma AheadIsBefore(find: Finder, rules: seq<Rule>, logs: string, jobs: nat, i: nat, k: nat)
    requires i < |rules| && k < |rules| && i != k
    requires rules[i].category != UNKNOWN && rules[k].category != UNKNOWN
    requires Score(find, rules[i].patterns, logs) > 0
    ensures var ci, ck := Candidate(find, rules[i], logs, jobs), Candidate(find, rules[k], logs, jobs);
            RuleAhead(find, rules, logs, i, k) <==> if i < k then !Before(ck, ci) else Before(ci, ck)
  {
    hide Score, Matched, StableSort;
  }

  ghost predicate AllNamed(rules: seq<Rule>) {
    forall i :: 0 <= i < |rules| ==> rules[i].category != UNKNOWN
  }

  /** The candidates of the rules before rule `k`, counted. */
  lemma {:induction false} AheadBefore(find: Finder, rules: seq<Rule>, logs: string, jobs: nat, k: nat, n: nat)
    requires AllNamed(rules) && n <= k < |rules|
    ensures var x := Candidate(find, rules[k], logs, jobs);
            Count(UpTo(Before, x), Candidates(find, rules[..n], logs, jobs)) == RulesAhead(find, rules, logs, k, n)
  {
    hide Score, Candidate, RuleAhead, Before;
    var x := Candidate(find, rules[k], logs, jobs);
    if n == 0 {
      NothingMatched(find, logs);
      assert rules[..0] == [];
    } else {
      AheadBefore(find, rules, logs, jobs, k, n - 1);
      RuleStep(find, rules, n - 1, logs, jobs);
      if Score(find, rules[n - 1].patterns, logs) > 0 {
        AheadIsBefore(find, rules, logs, jobs, n - 1, k);
        CountSnoc(UpTo(Before, x), Candidates(find, rules[..n - 1], logs, jobs), Candidate(find, rules[n - 1], logs, jobs));
      } else {
        NotAhead(find, rules, logs, n - 1, k);
      }
    }
  }

  lemma NotAhead(find: Finder, rules: seq<Rule>, logs: string, i: nat, k: nat)
    requires i < |rules| && k < |rules| && (i == k || Score(find, rules[i].patterns, logs) == 0)
    ensures !RuleAhead(find, rules, logs, i, k)
  {
  }

  /** The candidates split around that of rule `k`; those behind it are counted. */
  lemma {:induction false} AheadBehind(find: Finder, rules: seq<Rule>, logs: string, jobs: nat, k: nat, n: nat)
    returns (b: seq<Ranked>)
    requires AllNamed(rules) && k < n <= |rules| && Score(find, rules[k].patterns, logs) > 0
    ensures var x := Candidate(find, rules[k], logs, jobs);
            && Candidates(find, rules[..n], logs, jobs) == Candidates(find, rules[..k], logs, jobs) + [x] + b
            && Count(Below(Before, x), b) + RulesAhead(find, rules, logs, k, k) == RulesAhead(find, rules, logs, k, n)
  {
    hide Score, Candidate, Candidates, RuleAhead, Before;
    var x := Candidate(find, rules[k], logs, jobs);
    var a := Candidates(find, rules[..k], logs, jobs);
    RuleStep(find, rules, n - 1, logs, jobs);
    if n == k + 1 {
      b := [];
      NotAhead(find, rules, logs, k, k);
      assert a + [x] + b == a + [x];
    } else {
      b := AheadBehind(find, rules, logs, jobs, k, n - 1);
      if Score(find, rules[n - 1].patterns, logs) > 0 {
        var c := Candidate(find, rules[n - 1], logs, jobs);
        AheadIsBefore(find, rules, logs, jobs, n - 1, k);
        CountSnoc(Below(Before, x), b, c);
        assert a + [x] + b + [c] == a + [x] + (b + [c]);
        b := b + [c];
      } else {
        NotAhead(find, rules, logs, n - 1, k);
      }
    }
  }

  /** Every matching rule stands in the ranking at the number of rules before it. */
  lemma RankOfRule(find: Finder, redacted: string, jobs: seq<Job>, k: nat)
    requires k < |RULES| && Score(find, RULES[k].patterns, redacted) > 0
    ensures var r, place := Ranking(find, redacted, jobs), RulesAhead(find, RULES, redacted, k, |RULES|);
            place < |r| && r[place] == Candidate(find, RULES[k], redacted, |Impacted(jobs)|)
  {
    var n := |Impacted(jobs)|;
    NoRuleIsUnknown();
    hide Score, Candidate, RuleAhead, RulesAhead, Before, Candidates, Impacted, UnknownDiagnosis;
    BeforeIsWeakOrder();
    var x := Candidate(find, RULES[k], redacted, n);
    var a := Candidates(find, RULES[..k], redacted, n);
    AheadBefore(find, RULES, redacted, n, k, k);
    var b := AheadBehind(find, RULES, redacted, n, k, |RULES|);
    assert RULES[..|RULES|] == RULES;
    PlaceInSort(Before, a, x, b);
  }

  // ----- Membership in the first places -----

  ghost predicate OfRule(find: Finder, rules: seq<Rule>, logs: string, jobs: nat, c: Ranked) {
    exists i :: 0 <= i < |rules| && c == Candidate(find, rules[i], logs, jobs) && Score(find, rules[i].patterns, logs) > 0
  }

  predicate DistinctRules(rules: seq<Rule>) {
    forall i, j :: 0 <= i < j < |rules| ==> rules[i].category != rules[j].category
  }

  predicate DistinctCategories(s: seq<Ranked>) {
    forall i, j :: 0 <= i < j < |s| ==> s[i].category != s[j].category
  }

  lemma DistinctSnoc(s: seq<Ranked>, x: Ranked)
    requires DistinctCategories(s) && forall c :: c in s ==> c.category != x.category
    ensures DistinctCategories(s + [x])
  {
    var t := s + [x];
    assert forall i :: 0 <= i < |s| ==> t[i] == s[i] && s[i] in s;
  }

  lemma OfFewerRules(find: Finder, rules: seq<Rule>, n: nat, logs: string, jobs: nat, c: Ranked)
    requires n < |rules| && DistinctRules(rules) && OfRule(find, rules[..n], logs, jobs, c)
    ensures OfRule(find, rules, logs, jobs, c) && c.category != rules[n].category
  {
    hide Score, Candidate;
    var i :| 0 <= i < n && c == Candidate(find, rules[..n][i], logs, jobs) && Score(find, rules[..n][i].patterns, logs) > 0;
    assert rules[..n][i] == rules[i];
    CandidateCategory(find, rules[i], logs, jobs);
  }

  /** Every candidate comes from a matching rule, and no two share a category. */
  lemma {:induction false} CandidatesAreDistinct(find: Finder, rules: seq<Rule>, logs: string, jobs: nat)
    requires DistinctRules(rules)
    ensures forall c :: c in Candidates(find, rules, logs, jobs) ==> OfRule(find, rules, logs, jobs, c)
    ensures DistinctCategories(Candidates(find, rules, logs, jobs))
  {
    if rules == [] {
      NothingMatched(find, logs);
    } else {
      hide Candidates, Score, Candidate, OfRule, DistinctCategories;
      var n := |rules| - 1;
      CandidatesAreDistinct(find, rules[..n], logs, jobs);
      assert rules[..n + 1] == rules;
      RuleStep(find, rules, n, logs, jobs);
      forall c | c in Candidates(find, rules[..n], logs, jobs)
        ensures OfRule(find, rules, logs, jobs, c) && c.category != rules[n].category
      {
        OfFewerRules(find, rules, n, logs, jobs, c);
      }
      if Score(find, rules[n].patterns, logs) != 0 {
        OwnRule(find, rules, n, logs, jobs);
        DistinctSnoc(Candidates(find, rules[..n], logs, jobs), Candidate(find, rules[n], logs, jobs));
      }
    }
  }

  lemma OwnRule(find: Finder, rules: seq<Rule>, n: nat, logs: string, jobs: nat)
    requires n < |rules| && Score(find, rules[n].patterns, logs) > 0
    ensures var c := Candidate(find, rules[n], logs, jobs); OfRule(find, rules, logs, jobs, c) && c.category == rules[n].category
  {
    hide Score;
  }

  lemma CandidateCategory(find: Finder, rule: Rule, logs: string, jobs: nat)
    ensures Candidate(find, rule, logs, jobs).category == rule.category
  {
  }

  lemma RuleOf(find: Finder, rules: seq<Rule>, logs: string, jobs: nat, c: Ranked) returns (i: nat)
    requires OfRule(find, rules, logs, jobs, c)
    ensures i < |rules| && c == Candidate(find, rules[i], logs, jobs) && Score(find, rules[i].patterns, logs) > 0
    ensures c.category == rules[i].category
  {
    i :| 0 <= i < |rules| && c == Candidate(find, rules[i], logs, jobs) && Score(find, rules[i].patterns, logs) > 0;
    CandidateCategory(find, rules[i], logs, jobs);
  }

  lemma RulesAreDistinct()
    ensures DistinctRules(RULES)
  {
  }

  /** A rule's category is found in the ranking only at the rule's own place. */
  lemma OnlyPlace(find: Finder, redacted: string, jobs: seq<Job>, k: nat, p: nat)
    requires k < |RULES| && p < |Ranking(find, redacted, jobs)|
    requires Ranking(find, redacted, jobs)[p].category == RULES[k].category
    ensures Score(find, RULES[k].patterns, redacted) > 0 && p == RulesAhead(find, RULES, redacted, k, |RULES|)
  {
    RulesAreDistinct();
    NoRuleIsUnknown();
    hide Score, Candidate, RulesAhead, Before, Candidates, Impacted, StableSort, FallbackEvidence, Confidence, OfRule;
    var n := |Impacted(jobs)|;
    var r, s := Ranking(find, redacted, jobs), Candidates(find, RULES, redacted, n);
    RankingIsComplete(find, redacted, jobs);
    CandidatesAreDistinct(find, RULES, redacted, n);
    assert r[p] in multiset(s);
    assert OfRule(find, RULES, redacted, n, r[p]);
    var i := RuleOf(find, RULES, redacted, n, r[p]);
    assert i == k;
    RankOfRule(find, redacted, jobs, k);
    assert NoRepeats(s);
    Rearranged(s, r);
  }

  /** A rule is among the first `m` of the ranking exactly when it matches and fewer than `m`
      matching rules come before it. */
  lemma AmongFirstIff(find: Finder, redacted: string, jobs: seq<Job>, k: nat, m: nat)
    requires k < |RULES|
    ensures var r := Ranking(find, redacted, jobs);
            (exists p :: 0 <= p < |r| && p < m && r[p].category == RULES[k].category) <==>
            Score(find, RULES[k].patterns, redacted) > 0 && RulesAhead(find, RULES, redacted, k, |RULES|) < m
  {
    hide Score, Candidate, RulesAhead, Ranking, Impacted;
    var r := Ranking(find, redacted, jobs);
    if p :| 0 <= p < |r| && p < m && r[p].category == RULES[k].category {
      OnlyPlace(find, redacted, jobs, k, p);
    }
    if Score(find, RULES[k].patterns, redacted) > 0 {
      RankOfRule(find, redacted, jobs, k);
      CandidateCategory(find, RULES[k], redacted, |Impacted(jobs)|);
    }
  }

  lemma {:induction false} NoneAhead(find: Finder, rules: seq<Rule>, logs: string, k: nat, n: nat)
    requires k < |rules| && n <= |rules|
    requires forall i :: 0 <= i < |rules| && i != k ==> Score(find, rules[i].patterns, logs) == 0
    ensures RulesAhead(find, rules, logs, k, n) == 0
  {
    if n > 0 {
      hide Score, RuleAhead;
      NoneAhead(find, rules, logs, k, n - 1);
      NotAhead(find, rules, logs, n - 1, k);
    }
  }

  /** In the ranking every matched rule brings its own recommendations, the most confident first. */
  lemma RankedRecommend(find: Finder, redacted: string, jobs: seq<Job>, p: nat)
    requires p < |Ranking(find, redacted, jobs)| && Ranking(find, redacted, jobs)[p].category != UNKNOWN
    ensures RanksRecommendations(find, RULES, Ranking(find, redacted, jobs)[p])
  {
    RulesAreDistinct();
    hide Score, Candidate, RanksRecommendations, Candidates, Impacted, StableSort, FallbackEvidence, Confidence, OfRule;
    var n := |Impacted(jobs)|;
    var r, s := Ranking(find, redacted, jobs), Candidates(find, RULES, redacted, n);
    RankingIsComplete(find, redacted, jobs);
    CandidatesAreDistinct(find, RULES, redacted, n);
    assert r[p] in multiset(s);
    assert OfRule(find, RULES, redacted, n, r[p]);
    var k := RuleOf(find, RULES, redacted, n, r[p]);
    CandidateRecommends(find, RULES, k, redacted, n);
  }
}
