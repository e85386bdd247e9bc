/**
Secret redaction: five rewriting passes, applied in order. The main results say
what the output can no longer contain and that redacting twice changes nothing.
*/
module Redaction {
  import opened Regex

  const MARK: string := "[REDACTED]"

  /** One alternative of a pattern: the leading groups that survive, then what is masked. */
  datatype Alt = Alt(kept: Rx, masked: Rx) {
    function All(): Rx { Append(kept, masked) }
  }

  type Pattern = seq<Alt>

  const CLASSIC_TOKEN: Pattern :=
    [Alt(End, Next(Word("gh"), Next(Run(OneOf({'p', 'o', 'u', 's', 'r'}), 1, Some(1)), Next(Word("_"), Next(Run(WordChar, 20, None), End)))))]

  const FINE_GRAINED_TOKEN: Pattern :=
    [Alt(End, Next(Word("github_pat_"), Next(Run(WordChar, 20, None), End)))]

  const ACCESS_KEY: Pattern :=
    [Alt(End, Next(Word("AKIA"), Next(Run(UpperOrDigit, 16, Some(16)), End)))]

  const SEPARATOR: Rx :=
    Next(Run(Space, 0, None), Next(Run(OneOf({':', '='}), 1, Some(1)), Next(Run(Space, 0, None), End)))

  const VALUE: Rx := Next(Run(SecretValue, 1, None), End)

  const DASH: Item := Run(OneOf({'_', '-'}), 0, Some(1))

  const API_KEY: Rx := Next(FoldWord("api"), Next(DASH, Next(FoldWord("key"), End)))

  const KEY_VALUE: Pattern :=
    [ Alt(Append(Next(FoldWord("token"), End), SEPARATOR), VALUE),
      Alt(Append(Next(FoldWord("password"), End), SEPARATOR), VALUE),
      Alt(Append(Next(FoldWord("secret"), End), SEPARATOR), VALUE),
      Alt(Append(API_KEY, SEPARATOR), VALUE) ]

  const BEARER: Pattern :=
    [Alt(End, Next(FoldWord("authorization:"), Next(Run(Space, 0, None), Next(FoldWord("bearer"),
         Next(Run(Space, 1, None), Next(Run(BearerChar, 1, None), End))))))]

  const PATTERNS: seq<Pattern> := [CLASSIC_TOKEN, FINE_GRAINED_TOKEN, ACCESS_KEY, KEY_VALUE, BEARER]

  // ----- Matching and replacing -----

  /** A match at the start of a text: the length of the kept groups, and of the whole. */
  datatype Hit = Hit(kept: nat, total: nat)

  predicate Productive(p: Pattern) {
    forall a :: a in p ==> a.masked.Next? && NonEmpty(a.masked.first)
  }

  function MatchAlt(a: Alt, t: string): (r: Option<Hit>)
    ensures r.Some? ==> r.value.kept <= r.value.total <= |t|
    ensures r.Some? && a.masked.Next? && NonEmpty(a.masked.first) ==> r.value.kept < r.value.total
  {
    match Match(a.kept, t)
    case None => None
    case Some(k) =>
      match Match(a.masked, t[k..])
      case None => None
      case Some(m) => Some(Hit(k, k + m))
  }

  /** Alternatives are tried in order. */
  function MatchHere(p: Pattern, t: string): (r: Option<Hit>)
    ensures r.Some? ==> r.value.kept <= r.value.total <= |t|
    ensures r.Some? && Productive(p) ==> r.value.kept < r.value.total
  {
    if p == [] then None
    else if MatchAlt(p[0], t).Some? then
      assert p[0] in p;
      MatchAlt(p[0], t)
    else
      assert p == [p[0]] + p[1..];
      MatchHere(p[1..], t)
  }

  lemma {:induction false} HereIsSomeAlt(p: Pattern, t: string) returns (a: Alt)
    requires MatchHere(p, t).Some?
    ensures a in p && MatchAlt(a, t) == MatchHere(p, t)
  {
    if MatchAlt(p[0], t).Some? { a := p[0]; } else { a := HereIsSomeAlt(p[1..], t); }
  }

  lemma {:induction false} AltIsHere(p: Pattern, t: string, a: Alt)
    requires a in p && MatchAlt(a, t).Some?
    ensures MatchHere(p, t).Some?
  {
    if MatchAlt(p[0], t).None? { AltIsHere(p[1..], t, a); }
  }

  /** The replacement callback: it searches the matched text again, from its start. */
  function Mask(p: Pattern, matched: string): string {
    if matched == [] then MARK
    else
      match MatchHere(p, matched)
      case Some(h) => matched[..h.kept] + MARK
      case None => Mask(p, matched[1..])
  }

  /** Leftmost, non-overlapping replacement. */
  function ReplaceAll(p: Pattern, t: string): string
    requires Productive(p)
    decreases |t|
  {
    if t == [] then []
    else
      match MatchHere(p, t)
      case Some(h) => Mask(p, t[..h.total]) + ReplaceAll(p, t[h.total..])
      case None => [t[0]] + ReplaceAll(p, t[1..])
  }

  function Passes(ps: seq<Pattern>, t: string): string
    requires forall p :: p in ps ==> Productive(p)
  {
    if ps == [] then t
    else ReplaceAll(ps[|ps| - 1], Passes(ps[..|ps| - 1], t))
  }

  lemma PatternsProductive()
    ensures forall p :: p in PATTERNS ==> Productive(p)
  {
  }

  function Redact(raw: string): string {
    PatternsProductive();
    Passes(PATTERNS, raw)
  }

  method RedactSecrets(raw: string) returns (redacted: string)
    ensures redacted == Redact(raw)
  {
    PatternsProductive();
    redacted := raw;
    for i := 0 to |PATTERNS|
      invariant redacted == Passes(PATTERNS[..i], raw)
    {
      assert PATTERNS[..i + 1][..i] == PATTERNS[..i];
      redacted := ReplaceAll(PATTERNS[i], redacted);
    }
    assert PATTERNS[..|PATTERNS|] == PATTERNS;
  }

  // ----- What a pattern denotes -----

  ghost predicate Denotes(p: Pattern, w: string) {
    exists a :: a in p && Lang(a.All(), w)
  }

  ghost predicate OccursAt(p: Pattern, t: string, i: nat, j: nat) {
    i <= j <= |t| && Denotes(p, t[i..j])
  }

  ghost predicate Occurs(p: Pattern, t: string) {
    exists i: nat, j: nat :: OccursAt(p, t, i, j)
  }

  ghost predicate WellFormed(p: Pattern) {
    Productive(p) && forall a :: a in p ==> Deterministic(a.All())
  }

  /** Members of a closed pattern are longer than the mark and contain no bracket. */
  ghost predicate Closed(p: Pattern) {
    forall a :: a in p ==>
      && a.kept == End
      && LongerThan(a.masked, |MARK|)
      && AllAvoid(a.masked, '[') && AllAvoid(a.masked, ']')
  }

  /** A member of a closed pattern is longer than the mark and free of brackets. */
  lemma ClosedMember(p: Pattern, w: string)
    requires Closed(p) && Denotes(p, w)
    ensures |MARK| < |w| && '[' !in w && ']' !in w
  {
    var a :| a in p && Lang(a.All(), w);
    assert a.All() == a.masked;
    MemberLength(a.masked, w, |MARK|);
    MembersAvoid(a.masked, w, '[');
    MembersAvoid(a.masked, w, ']');
  }

  lemma AltIsMember(a: Alt, t: string)
    requires MatchAlt(a, t).Some?
    ensures Lang(a.kept, t[..MatchAlt(a, t).value.kept])
    ensures Lang(a.All(), t[..MatchAlt(a, t).value.total])
  {
    MatchIsMember(a.kept, t);
    MatchAppend(a.kept, a.masked, t);
    MatchIsMember(a.All(), t);
  }

  lemma HereIsMember(p: Pattern, t: string) returns (a: Alt)
    requires MatchHere(p, t).Some?
    ensures a in p && MatchAlt(a, t) == MatchHere(p, t)
    ensures Lang(a.kept, t[..MatchHere(p, t).value.kept])
    ensures Lang(a.All(), t[..MatchHere(p, t).value.total])
  {
    a := HereIsSomeAlt(p, t);
    AltIsMember(a, t);
  }

  lemma MemberIsFound(p: Pattern, t: string, n: nat)
    requires WellFormed(p) && n <= |t| && Denotes(p, t[..n])
    ensures MatchHere(p, t).Some?
  {
    var a :| a in p && Lang(a.All(), t[..n]);
    GreedyIsLongest(a.All(), t, n);
    MatchAppend(a.kept, a.masked, t);
    AltIsHere(p, t, a);
  }

  /** The callback finds the same groups in the matched text as in the whole text. */
  lemma MaskKeepsGroups(p: Pattern, t: string)
    requires WellFormed(p) && MatchHere(p, t).Some?
    ensures var h := MatchHere(p, t).value; Mask(p, t[..h.total]) == t[..h.kept] + MARK
  {
    var h := MatchHere(p, t).value;
    MatchHereAlone(p, t, h);
    assert t[..h.total][..h.kept] == t[..h.kept];
  }

  lemma AltFromParts(a: Alt, t: string, k: nat, n: nat)
    requires Match(a.kept, t) == Some(k) && Match(a.masked, t[k..]) == Some(n)
    ensures MatchAlt(a, t) == Some(Hit(k, k + n))
  {
  }

  lemma HitAlone(a: Alt, t: string, m: nat)
    requires MatchAlt(a, t).Some? && MatchAlt(a, t).value.total <= m <= |t|
    ensures MatchAlt(a, t[..m]) == MatchAlt(a, t)
  {
    hide Match;
    var h := MatchAlt(a, t).value;
    MatchAlone(a.kept, t, m);
    SlicePrefix(t, h.kept, m);
    MatchAlone(a.masked, t[h.kept..], m - h.kept);
    AltFromParts(a, t[..m], h.kept, h.total - h.kept);
  }

  lemma MissAlone(a: Alt, t: string, m: nat)
    requires Deterministic(a.All()) && m <= |t| && MatchAlt(a, t[..m]).Some?
    ensures MatchAlt(a, t).Some?
  {
    var n := MatchAlt(a, t[..m]).value.total;
    AltIsMember(a, t[..m]);
    SlicePrefix(t, n, m);
    GreedyIsLongest(a.All(), t, n);
    MatchAppend(a.kept, a.masked, t);
  }

  lemma AltAlone(a: Alt, t: string, m: nat)
    requires Deterministic(a.All()) && m <= |t|
    requires MatchAlt(a, t).None? || MatchAlt(a, t).value.total <= m
    ensures MatchAlt(a, t[..m]) == MatchAlt(a, t)
  {
    if MatchAlt(a, t).Some? {
      HitAlone(a, t, m);
    } else if MatchAlt(a, t[..m]).Some? {
      MissAlone(a, t, m);
    }
  }

  lemma {:induction false} MatchHereAlone(p: Pattern, t: string, h: Hit)
    requires WellFormed(p) && MatchHere(p, t) == Some(h)
    ensures MatchHere(p, t[..h.total]) == Some(h)
  {
    assert p[0] in p;
    AltAlone(p[0], t, h.total);
    if MatchAlt(p[0], t).None? {
      MatchHereAlone(p[1..], t, h);
    }
  }

  // ----- Masking never uncovers a closed secret -----

  lemma OccursInPart(p: Pattern, x: string, y: string, z: string)
    requires Occurs(p, y)
    ensures Occurs(p, x + y + z)
  {
    var i: nat, j: nat :| OccursAt(p, y, i, j);
    assert (x + y + z)[|x| + i..|x| + j] == y[i..j];
    assert OccursAt(p, x + y + z, |x| + i, |x| + j);
  }

  lemma SliceAvoids(t: string, i: nat, j: nat, c: char)
    requires i <= j <= |t| && c !in t[i..j]
    ensures forall k :: i <= k < j ==> t[k] != c
  {
    forall k | i <= k < j ensures t[k] != c {
      assert t[k] == t[i..j][k - i];
    }
  }

  lemma OccursBesideMark(p: Pattern, x: string, y: string)
    requires Closed(p) && Occurs(p, x + MARK + y)
    ensures Occurs(p, x) || Occurs(p, y)
  {
    var t := x + MARK + y;
    var i: nat, j: nat :| OccursAt(p, t, i, j);
    ClosedMember(p, t[i..j]);
    SliceAvoids(t, i, j, '[');
    SliceAvoids(t, i, j, ']');
    var l, r := |x|, |x| + |MARK| - 1;
    assert t[l] == '[' && t[r] == ']';
    if j <= l {
      assert t[i..j] == x[i..j];
      assert OccursAt(p, x, i, j);
    } else {
      assert i > r;
      assert t[i..j] == y[i - r - 1..j - r - 1];
      assert OccursAt(p, y, i - r - 1, j - r - 1);
    }
  }

  lemma MaskingCreatesNone(p: Pattern, head: string, secret: string, rest: string, rest': string)
    requires Closed(p) && !Occurs(p, head + secret + rest)
    requires !Occurs(p, rest) ==> !Occurs(p, rest')
    ensures !Occurs(p, head + MARK + rest')
  {
    assert [] + head + (secret + rest) == head + secret + rest;
    assert (head + secret) + rest + [] == head + secret + rest;
    if Occurs(p, head) { OccursInPart(p, [], head, secret + rest); }
    if Occurs(p, rest) { OccursInPart(p, head + secret, rest, []); }
    if Occurs(p, head + MARK + rest') { OccursBesideMark(p, head, rest'); }
  }

  lemma ReplaceUnfolded(q: Pattern, t: string)
    requires WellFormed(q) && MatchHere(q, t).Some?
    ensures var h := MatchHere(q, t).value;
            ReplaceAll(q, t) == t[..h.kept] + MARK + ReplaceAll(q, t[h.total..])
  {
    MaskKeepsGroups(q, t);
  }

  lemma ReplaceAtHit(q: Pattern, gap: string, t: string)
    requires WellFormed(q) && MatchHere(q, t).Some?
    ensures var h := MatchHere(q, t).value;
            && gap + t == (gap + t[..h.kept]) + t[h.kept..h.total] + t[h.total..]
            && gap + ReplaceAll(q, t) == (gap + t[..h.kept]) + MARK + ReplaceAll(q, t[h.total..])
  {
    var h := MatchHere(q, t).value;
    ReplaceUnfolded(q, t);
    GlueHit(gap, t, h, ReplaceAll(q, t), ReplaceAll(q, t[h.total..]));
  }

  lemma GlueHit(gap: string, t: string, h: Hit, out: string, rest: string)
    requires h.kept <= h.total <= |t| && out == t[..h.kept] + MARK + rest
    ensures gap + t == (gap + t[..h.kept]) + t[h.kept..h.total] + t[h.total..]
    ensures gap + out == (gap + t[..h.kept]) + MARK + rest
  {
  }

  lemma ReplaceAtMiss(q: Pattern, gap: string, t: string)
    requires WellFormed(q) && t != [] && MatchHere(q, t).None?
    ensures gap + t == (gap + [t[0]]) + t[1..]
    ensures gap + ReplaceAll(q, t) == (gap + [t[0]]) + ReplaceAll(q, t[1..])
  {
    GlueMiss(gap, t, ReplaceAll(q, t), ReplaceAll(q, t[1..]));
  }

  lemma GlueMiss(gap: string, t: string, out: string, rest: string)
    requires t != [] && out == [t[0]] + rest
    ensures gap + t == (gap + [t[0]]) + t[1..]
    ensures gap + out == (gap + [t[0]]) + rest
  {
  }

  /** A pass of `q` creates no occurrence of a closed pattern `p`; `gap` is text already copied. */
  lemma {:induction false} PassCreatesNone(p: Pattern, q: Pattern, gap: string, t: string)
    requires Closed(p) && WellFormed(q) && !Occurs(p, gap + t)
    ensures !Occurs(p, gap + ReplaceAll(q, t))
    decreases |t|
  {
    if t != [] {
      match MatchHere(q, t) {
        case Some(h) =>
          ReplaceAtHit(q, gap, t);
          var rest := t[h.total..];
          assert [] + rest == rest && [] + ReplaceAll(q, rest) == ReplaceAll(q, rest);
          if !Occurs(p, rest) { PassCreatesNone(p, q, [], rest); }
          MaskingCreatesNone(p, gap + t[..h.kept], t[h.kept..h.total], rest, ReplaceAll(q, rest));
        case None =>
          ReplaceAtMiss(q, gap, t);
          PassCreatesNone(p, q, gap + [t[0]], t[1..]);
      }
    }
  }

  /** Nothing starts at a position of `gap`, even when the text `t` follows. */
  ghost predicate Quiet(p: Pattern, gap: string, t: string) {
    forall i :: 0 <= i < |gap| ==> MatchHere(p, (gap + t)[i..]).None?
  }

  lemma QuietGap(p: Pattern, gap: string, t: string)
    requires WellFormed(p) && Closed(p) && Quiet(p, gap, t)
    ensures !Occurs(p, gap)
  {
    if Occurs(p, gap) {
      var i: nat, j: nat :| OccursAt(p, gap, i, j);
      ClosedMember(p, gap[i..j]);
      assert (gap + t)[i..][..j - i] == gap[i..j];
      MemberIsFound(p, (gap + t)[i..], j - i);
    }
  }

  /** The pass of a closed pattern removes every occurrence of it. */
  lemma {:induction false} PassRemovesAll(p: Pattern, gap: string, t: string)
    requires WellFormed(p) && Closed(p) && Quiet(p, gap, t)
    ensures !Occurs(p, gap + ReplaceAll(p, t))
    decreases |t|
  {
    QuietGap(p, gap, t);
    if t == [] {
      assert gap + ReplaceAll(p, t) == gap;
    } else {
      match MatchHere(p, t) {
        case Some(h) =>
          ReplaceAtHit(p, gap, t);
          var rest := t[h.total..];
          var a := HereIsMember(p, t);
          assert h.kept == 0 && gap + t[..0] == gap;
          PassRemovesAll(p, [], rest);
          assert [] + ReplaceAll(p, rest) == ReplaceAll(p, rest);
          if Occurs(p, gap + MARK + ReplaceAll(p, rest)) { OccursBesideMark(p, gap, ReplaceAll(p, rest)); }
        case None =>
          ReplaceAtMiss(p, gap, t);
          QuietGrows(p, gap, t);
          PassRemovesAll(p, gap + [t[0]], t[1..]);
      }
    }
  }

  lemma QuietGrows(p: Pattern, gap: string, t: string)
    requires t != [] && Quiet(p, gap, t) && MatchHere(p, t).None?
    ensures Quiet(p, gap + [t[0]], t[1..])
  {
    assert (gap + [t[0]]) + t[1..] == gap + t && (gap + t)[|gap|..] == t;
  }

  /** A pass over a text without occurrences is the identity. */
  lemma {:induction false} PassIdle(p: Pattern, t: string)
    requires Productive(p) && !Occurs(p, t)
    ensures ReplaceAll(p, t) == t
    decreases |t|
  {
    if t != [] {
      if MatchHere(p, t).Some? {
        var a := HereIsMember(p, t);
        assert t[0..MatchHere(p, t).value.total] == t[..MatchHere(p, t).value.total];
        assert OccursAt(p, t, 0, MatchHere(p, t).value.total);
      }
      assert [t[0]] + t[1..] + [] == t;
      if Occurs(p, t[1..]) { OccursInPart(p, [t[0]], t[1..], []); }
      PassIdle(p, t[1..]);
    }
  }
}
