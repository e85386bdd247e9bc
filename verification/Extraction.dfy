/**
Evidence lines for a set of matches. The extraction walks the lines of the logs by
byte position; what it returns is stated by counting newlines before each match.
*/
module Extraction {
  import opened Text

  datatype EvidenceRef = EvidenceRef(source: string, line: int, snippet: string)

  /** An index pair as the regular-expression engine reports it. */
  datatype Span = Span(start: nat, end: nat)

  // ----- Lines -----

  function FirstNewline(s: string): (i: nat)
    ensures i <= |s| && (forall k :: 0 <= k < i ==> s[k] != '\n') && (i < |s| ==> s[i] == '\n')
  {
    if s == [] || s[0] == '\n' then 0 else 1 + FirstNewline(s[1..])
  }

  /** `strings.Split(s, "\n")`. */
  function Lines(s: string): (r: seq<string>)
    ensures r != []
    decreases |s|
  {
    var i := FirstNewline(s);
    if i == |s| then [s] else [s[..i]] + Lines(s[i + 1..])
  }

  function Newlines(s: string): nat {
    if s == [] then 0 else Newlines(s[..|s| - 1]) + (if s[|s| - 1] == '\n' then 1 else 0)
  }

  /** The index of the line that position `p` belongs to; a newline ends its own line. */
  function LineOf(logs: string, p: nat): nat
    requires p <= |logs|
  {
    Newlines(logs[..p])
  }

  lemma {:induction false} NewlinesAppend(a: string, b: string)
    ensures Newlines(a + b) == Newlines(a) + Newlines(b)
  {
    if b == [] {
      assert a + b == a;
    } else {
      assert (a + b)[..|a + b| - 1] == a + b[..|b| - 1];
      NewlinesAppend(a, b[..|b| - 1]);
    }
  }

  lemma {:induction false} NoNewlines(s: string)
    requires forall k :: 0 <= k < |s| ==> s[k] != '\n'
    ensures Newlines(s) == 0
  {
    if s != [] { NoNewlines(s[..|s| - 1]); }
  }

  lemma LineOfGrows(logs: string, p: nat, q: nat)
    requires p <= q <= |logs|
    ensures LineOf(logs, q) == LineOf(logs, p) + Newlines(logs[p..q])
  {
    assert logs[..q] == logs[..p] + logs[p..q];
    NewlinesAppend(logs[..p], logs[p..q]);
  }

  /** `pos` is where line number `idx` of `logs` starts. */
  ghost predicate LineStart(logs: string, pos: nat, idx: nat) {
    && pos <= |logs| && LineOf(logs, pos) == idx
    && (pos == 0 || logs[pos - 1] == '\n')
  }

  /** The positions from the start to the end of a line, both included, are those of the line. */
  lemma LineHolds(logs: string, pos: nat, idx: nat, p: nat)
    requires LineStart(logs, pos, idx) && p <= |logs|
    ensures var end := pos + FirstNewline(logs[pos..]);
            pos <= p <= end <==> LineOf(logs, p) == idx
  {
    var n := FirstNewline(logs[pos..]);
    var end := pos + n;
    if p < pos {
      LineOfGrows(logs, p, pos);
      assert Newlines(logs[p..pos]) > 0;
    } else if p <= end {
      LineOfGrows(logs, pos, p);
      forall k | 0 <= k < p - pos ensures logs[pos..p][k] != '\n' { assert logs[pos..p][k] == logs[pos..][k]; }
      NoNewlines(logs[pos..p]);
    } else {
      assert logs[end] == logs[pos..][n] == '\n';
      LineOfGrows(logs, pos, end + 1);
      assert logs[pos..end + 1][n] == '\n';
      LineOfGrows(logs, end + 1, p);
    }
  }

  lemma NextLine(logs: string, pos: nat, idx: nat)
    requires LineStart(logs, pos, idx)
    ensures var s := logs[pos..]; var n := FirstNewline(s);
            && Lines(s)[0] == s[..n]
            && (n == |s| ==> |Lines(s)| == 1)
            && (n < |s| ==> LineStart(logs, pos + n + 1, idx + 1) && Lines(s)[1..] == Lines(logs[pos + n + 1..]))
  {
    hide FirstNewline, Lines, Newlines;
    var s := logs[pos..];
    var n := FirstNewline(s);
    FirstLine(s);
    if n < |s| {
      assert logs[pos + n] == s[n];
      assert s[n + 1..] == logs[pos + n + 1..];
      LineOfGrows(logs, pos, pos + n + 1);
      var t := logs[pos..pos + n + 1];
      assert t[..n] == s[..n] && t[n] == '\n';
      OneNewline(t, n);
    }
  }

  lemma FirstLine(s: string)
    ensures var n := FirstNewline(s);
            && Lines(s)[0] == s[..n]
            && (n == |s| ==> |Lines(s)| == 1)
            && (n < |s| ==> Lines(s)[1..] == Lines(s[n + 1..]))
  {
    hide FirstNewline;
  }

  lemma OneNewline(t: string, n: nat)
    requires |t| == n + 1 && t[n] == '\n' && forall k :: 0 <= k < n ==> t[k] != '\n'
    ensures Newlines(t) == 1
  {
    NoNewlines(t[..n]);
  }

  /** There is one line more than there are newlines. */
  lemma {:induction false} LineCount(logs: string, pos: nat, idx: nat)
    requires LineStart(logs, pos, idx)
    ensures idx + |Lines(logs[pos..])| == LineOf(logs, |logs|) + 1
    decreases |logs| - pos
  {
    hide FirstNewline, Lines, LineOf;
    var n := FirstNewline(logs[pos..]);
    NextLine(logs, pos, idx);
    if pos + n < |logs| {
      LineCount(logs, pos + n + 1, idx + 1);
    } else {
      LineHolds(logs, pos, idx, |logs|);
    }
  }

  // ----- What is extracted -----

  ghost predicate HoldsMatch(logs: string, matches: seq<Span>, line: nat) {
    exists m :: m in matches && m.start <= |logs| && LineOf(logs, m.start) == line
  }

  /** The line numbers in `from..count` that hold the start of a match, in order. */
  ghost function MatchedLines(logs: string, matches: seq<Span>, from: nat, count: nat): seq<nat>
    decreases count - from
  {
    if from >= count then []
    else (if HoldsMatch(logs, matches, from) then [from] else []) + MatchedLines(logs, matches, from + 1, count)
  }

  ghost function EvidenceAt(lines: seq<string>, n: nat): EvidenceRef {
    EvidenceRef("run_logs", n + 1, if n < |lines| then TrimSpace(lines[n]) else "")
  }

  ghost function EvidenceFor(lines: seq<string>, numbers: seq<nat>): (r: seq<EvidenceRef>)
    ensures |r| == |numbers|
  {
    if numbers == [] then []
    else EvidenceFor(lines, numbers[..|numbers| - 1]) + [EvidenceAt(lines, numbers[|numbers| - 1])]
  }

  lemma {:induction false} EvidenceForAt(lines: seq<string>, numbers: seq<nat>, i: nat)
    requires i < |numbers|
    ensures EvidenceFor(lines, numbers)[i] == EvidenceAt(lines, numbers[i])
  {
    hide EvidenceAt;
    if i < |numbers| - 1 { EvidenceForAt(lines, numbers[..|numbers| - 1], i); }
  }

  function Take<T>(s: seq<T>, n: int): seq<T> {
    if n <= 0 then [] else if n < |s| then s[..n] else s
  }

  /** The first `limit` distinct lines that hold the start of a match. */
  ghost function Evidence(logs: string, matches: seq<Span>, limit: int): seq<EvidenceRef> {
    EvidenceFor(Lines(logs), Take(MatchedLines(logs, matches, 0, |Lines(logs)|), limit))
  }

  /** The scan of the matches for one line, left at the first hit. */
  method AnyStartsIn(matches: seq<Span>, start: nat, end: nat) returns (hit: bool)
    ensures hit <==> exists m :: m in matches && start <= m.start <= end
  {
    for k := 0 to |matches|
      invariant forall i :: 0 <= i < k ==> !(start <= matches[i].start <= end)
    {
      if start <= matches[k].start <= end { return true; }
    }
    hit := false;
  }

  /** The state of the walk: `found` holds the numbers of the lines extracted so far. */
  ghost predicate Walked(logs: string, matches: seq<Span>, found: seq<nat>, pos: nat, idx: nat) {
    var lines := Lines(logs);
    && idx <= |lines|
    && MatchedLines(logs, matches, 0, |lines|) == found + MatchedLines(logs, matches, idx, |lines|)
    && (idx < |lines| ==> LineStart(logs, pos, idx) && lines[idx..] == Lines(logs[pos..]))
  }

  method ExtractEvidence(logs: string, matches: seq<Span>, limit: int) returns (out: seq<EvidenceRef>)
    ensures out == Evidence(logs, matches, limit)
  {
    hide *;
    if limit <= 0 || |matches| == 0 {
      NoEvidence(logs, matches, limit);
      return [];
    }
    var lines := Lines(logs);
    out := [];
    ghost var found: seq<nat> := [];
    var pos: nat := 0;
    var idx: nat := 0;
    WalkStarts(logs, matches);
    while idx < |lines|
      invariant idx <= |lines| && |found| < limit
      invariant out == EvidenceFor(lines, found) && Walked(logs, matches, found, pos, idx)
    {
      var line := lines[idx];
      var start := pos;
      var end := start + |line|;
      pos := end + 1;
      var hit := AnyStartsIn(matches, start, end);
      WalkStep(logs, matches, found, start, idx);
      if hit {
        out := out + [EvidenceRef("run_logs", idx + 1, TrimSpace(line))];
        EvidenceGrows(lines, found, idx, line);
        found := found + [idx];
      }
      idx := idx + 1;
      if |out| >= limit {
        WalkCut(logs, matches, found, pos, idx, limit);
        return;
      }
    }
    WalkEnds(logs, matches, found, pos, idx, limit);
  }

  lemma WalkStarts(logs: string, matches: seq<Span>)
    ensures Walked(logs, matches, [], 0, 0) && EvidenceFor(Lines(logs), []) == []
  {
    assert logs[..0] == [] && logs[0..] == logs && Lines(logs)[0..] == Lines(logs);
  }

  lemma WalkStep(logs: string, matches: seq<Span>, found: seq<nat>, pos: nat, idx: nat)
    requires Walked(logs, matches, found, pos, idx) && idx < |Lines(logs)|
    ensures var end := pos + |Lines(logs)[idx]|;
            var hit := exists m :: m in matches && pos <= m.start <= end;
            Walked(logs, matches, if hit then found + [idx] else found, end + 1, idx + 1)
  {
    hide Lines, MatchedLines, HoldsMatch, LineStart;
    var lines := Lines(logs);
    assert lines[idx..][0] == lines[idx] && lines[idx..][1..] == lines[idx + 1..] && |lines[idx..]| == |lines| - idx;
    LineStep(logs, pos, idx);
    MatchesOnLine(logs, matches, pos, idx);
    MatchedStep(logs, matches, found, idx, |lines|);
  }

  lemma WalkCut(logs: string, matches: seq<Span>, found: seq<nat>, pos: nat, idx: nat, limit: int)
    requires Walked(logs, matches, found, pos, idx) && |found| == limit > 0
    ensures Evidence(logs, matches, limit) == EvidenceFor(Lines(logs), found)
  {
    hide EvidenceFor;
    FoundAreFirst(found, MatchedLines(logs, matches, idx, |Lines(logs)|), limit);
  }

  lemma WalkEnds(logs: string, matches: seq<Span>, found: seq<nat>, pos: nat, idx: nat, limit: int)
    requires Walked(logs, matches, found, pos, idx) && idx >= |Lines(logs)| && |found| < limit
    ensures Evidence(logs, matches, limit) == EvidenceFor(Lines(logs), found)
  {
    hide EvidenceFor;
    assert MatchedLines(logs, matches, idx, |Lines(logs)|) == [];
    assert found + [] == found;
  }

  lemma NoEvidence(logs: string, matches: seq<Span>, limit: int)
    requires limit <= 0 || matches == []
    ensures Evidence(logs, matches, limit) == []
  {
    hide Lines;
    NoMatchNoLines(logs, matches, 0, |Lines(logs)|);
  }

  lemma EvidenceGrows(lines: seq<string>, found: seq<nat>, idx: nat, line: string)
    requires idx < |lines| && line == lines[idx]
    ensures EvidenceFor(lines, found + [idx]) == EvidenceFor(lines, found) + [EvidenceRef("run_logs", idx + 1, TrimSpace(line))]
  {
    hide TrimSpace;
    assert (found + [idx])[..|found|] == found;
  }

  lemma MatchedStep(logs: string, matches: seq<Span>, found: seq<nat>, idx: nat, count: nat)
    requires idx < count
    ensures found + MatchedLines(logs, matches, idx, count) ==
            (if HoldsMatch(logs, matches, idx) then found + [idx] else found) + MatchedLines(logs, matches, idx + 1, count)
  {
    hide HoldsMatch;
    var rest := MatchedLines(logs, matches, idx + 1, count);
    if HoldsMatch(logs, matches, idx) {
      assert found + ([idx] + rest) == (found + [idx]) + rest;
    } else {
      assert [] + rest == rest;
    }
  }

  /** One step over a line: where the next line starts. */
  lemma LineStep(logs: string, start: nat, idx: nat)
    requires LineStart(logs, start, idx)
    ensures var s := Lines(logs[start..]);
            var end := start + |s[0]|;
            |s| > 1 ==> LineStart(logs, end + 1, idx + 1) && s[1..] == Lines(logs[end + 1..])
  {
    NextLine(logs, start, idx);
  }

  lemma MatchesOnLine(logs: string, matches: seq<Span>, start: nat, idx: nat)
    requires LineStart(logs, start, idx)
    ensures HoldsMatch(logs, matches, idx) <==>
            exists m :: m in matches && start <= m.start <= start + |Lines(logs[start..])[0]|
  {
    NextLine(logs, start, idx);
    hide Lines, LineOf;
    var end := start + |Lines(logs[start..])[0]|;
    if m :| m in matches && start <= m.start <= end {
      LineHolds(logs, start, idx, m.start);
    }
    if HoldsMatch(logs, matches, idx) {
      var m :| m in matches && m.start <= |logs| && LineOf(logs, m.start) == idx;
      LineHolds(logs, start, idx, m.start);
    }
  }

  lemma FoundAreFirst(found: seq<nat>, rest: seq<nat>, limit: int)
    requires |found| == limit > 0
    ensures Take(found + rest, limit) == found
  {
  }

  lemma {:induction false} NoMatchNoLines(logs: string, matches: seq<Span>, from: nat, count: nat)
    ensures matches == [] ==> MatchedLines(logs, matches, from, count) == []
    decreases count - from
  {
    if from < count { NoMatchNoLines(logs, matches, from + 1, count); }
  }

  // ----- Exactness -----

  predicate Increasing(s: seq<nat>) {
    forall i, j :: 0 <= i < j < |s| ==> s[i] < s[j]
  }

  lemma ConsIncreasing(x: nat, s: seq<nat>)
    requires Increasing(s) && forall y :: y in s ==> x < y
    ensures Increasing([x] + s)
  {
    assert forall j :: 0 <= j < |s| ==> s[j] in s;
    assert forall j :: 1 <= j < |s| + 1 ==> ([x] + s)[j] == s[j - 1];
  }

  /** The matched lines are strictly increasing, and are exactly those that hold a match. */
  lemma {:induction false} MatchedLinesExact(logs: string, matches: seq<Span>, from: nat, count: nat)
    ensures Increasing(MatchedLines(logs, matches, from, count))
    ensures forall line :: line in MatchedLines(logs, matches, from, count) <==>
                           from <= line < count && HoldsMatch(logs, matches, line)
    decreases count - from
  {
    if from < count {
      hide HoldsMatch;
      MatchedLinesExact(logs, matches, from + 1, count);
      var rest := MatchedLines(logs, matches, from + 1, count);
      if HoldsMatch(logs, matches, from) {
        ConsIncreasing(from, rest);
        assert MatchedLines(logs, matches, from, count) == [from] + rest;
      } else {
        assert MatchedLines(logs, matches, from, count) == [] + rest == rest;
      }
    }
  }

  /** A match that starts inside the text is on one of its lines. */
  lemma MatchIsOnALine(logs: string, m: Span)
    requires m.start <= |logs|
    ensures LineOf(logs, m.start) < |Lines(logs)|
  {
    assert logs[..0] == [] && logs[0..] == logs;
    LineCount(logs, 0, 0);
    LineOfGrows(logs, m.start, |logs|);
  }

  /** Line `n` is among the evidence, or the limit was reached before it. */
  ghost predicate ExtractedOrCut(r: seq<EvidenceRef>, limit: int, n: nat) {
    || (exists i :: 0 <= i < |r| && r[i].line == n + 1)
    || (limit <= |r| && forall i :: 0 <= i < |r| ==> r[i].line < n + 1)
  }

  lemma MatchOnItsLine(logs: string, matches: seq<Span>, m: Span)
    requires m in matches && m.start <= |logs|
    ensures HoldsMatch(logs, matches, LineOf(logs, m.start))
  {
  }

  /** The evidence shows the first matched lines, in order. */
  lemma EvidenceLine(logs: string, matches: seq<Span>, limit: int, i: nat)
    requires i < |Evidence(logs, matches, limit)|
    ensures var all := MatchedLines(logs, matches, 0, |Lines(logs)|);
            && |Evidence(logs, matches, limit)| == |Take(all, limit)| && i < |all|
            && Evidence(logs, matches, limit)[i] == EvidenceAt(Lines(logs), all[i])
  {
    hide Lines, MatchedLines, EvidenceFor, EvidenceAt;
    EvidenceForAt(Lines(logs), Take(MatchedLines(logs, matches, 0, |Lines(logs)|), limit), i);
  }

  /** Each piece of evidence is a line that holds a match start, numbered one more than the
      newlines before that match. */
  lemma EvidenceIsSound(logs: string, matches: seq<Span>, limit: int, i: nat)
    requires i < |Evidence(logs, matches, limit)|
    ensures var e := Evidence(logs, matches, limit)[i];
            && 0 < e.line <= |Lines(logs)| && HoldsMatch(logs, matches, e.line - 1)
            && e == EvidenceRef("run_logs", e.line, TrimSpace(Lines(logs)[e.line - 1]))
  {
    hide Lines, MatchedLines, Evidence, HoldsMatch, TrimSpace;
    EvidenceLine(logs, matches, limit, i);
    MatchedLinesExact(logs, matches, 0, |Lines(logs)|);
    assert MatchedLines(logs, matches, 0, |Lines(logs)|)[i] in MatchedLines(logs, matches, 0, |Lines(logs)|);
  }

  /** Evidence is at most `limit` lines, strictly increasing. */
  lemma EvidenceIsOrdered(logs: string, matches: seq<Span>, limit: int)
    ensures var r := Evidence(logs, matches, limit);
            |r| <= (if limit < 0 then 0 else limit) && forall i, j :: 0 <= i < j < |r| ==> r[i].line < r[j].line
  {
    var r := Evidence(logs, matches, limit);
    MatchedLinesExact(logs, matches, 0, |Lines(logs)|);
    hide Lines, MatchedLines, Evidence;
    var all := MatchedLines(logs, matches, 0, |Lines(logs)|);
    EvidenceSize(logs, matches, limit);
    forall i | 0 <= i < |r| ensures i < |all| && r[i].line == all[i] + 1 {
      EvidenceLine(logs, matches, limit, i);
    }
  }

  lemma EvidenceSize(logs: string, matches: seq<Span>, limit: int)
    ensures |Evidence(logs, matches, limit)| == |Take(MatchedLines(logs, matches, 0, |Lines(logs)|), limit)|
    ensures |Evidence(logs, matches, limit)| <= (if limit < 0 then 0 else limit)
  {
    hide Lines, MatchedLines, EvidenceFor;
  }

  /** Every match inside the text has its line in the evidence unless the limit was reached before. */
  lemma EvidenceIsComplete(logs: string, matches: seq<Span>, limit: int, m: Span)
    requires m in matches && m.start <= |logs|
    ensures ExtractedOrCut(Evidence(logs, matches, limit), limit, LineOf(logs, m.start))
  {
    hide Lines, LineOf, MatchedLines, HoldsMatch, Evidence;
    var r := Evidence(logs, matches, limit);
    var n := LineOf(logs, m.start);
    MatchIsOnALine(logs, m);
    MatchOnItsLine(logs, matches, m);
    MatchedLinesExact(logs, matches, 0, |Lines(logs)|);
    var all := MatchedLines(logs, matches, 0, |Lines(logs)|);
    EvidenceSize(logs, matches, limit);
    forall i | 0 <= i < |r| ensures i < |all| && r[i].line == all[i] + 1 {
      EvidenceLine(logs, matches, limit, i);
    }
    var k :| 0 <= k < |all| && all[k] == n;
    assert k < |r| ==> r[k].line == n + 1;
  }

  lemma EvidenceNonEmpty(logs: string, matches: seq<Span>, limit: int)
    requires limit > 0 && matches != [] && matches[0].start <= |logs|
    ensures Evidence(logs, matches, limit) != []
  {
    EvidenceIsComplete(logs, matches, limit, matches[0]);
  }
}
