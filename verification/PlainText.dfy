/** Text that redaction leaves alone: it lacks the characters every secret's pattern needs. */
module PlainText {
  import opened Regex
  import opened Text
  import opened Redaction

  /** Without one of these characters no pattern matches. */
  const NEEDED: set<char> := {'_', 'A', ':', '='}

  predicate IsPlain(t: string) {
    forall i :: 0 <= i < |t| ==> t[i] !in NEEDED
  }

  /** The item consumes a needed character. */
  predicate Consumes(it: Item) {
    match it
    case Word(word) => exists i :: 0 <= i < |word| && word[i] in NEEDED
    case FoldWord(lower) => exists i :: 0 <= i < |lower| && lower[i] == ':'
    case Run(cls, lo, _) => lo > 0 && cls.OneOf? && cls.chars <= NEEDED
  }

  predicate Needs(r: Rx) {
    r.Next? && (Consumes(r.first) || Needs(r.rest))
  }

  lemma {:induction false} NeedsAppend(a: Rx, b: Rx)
    requires Needs(a) || Needs(b)
    ensures Needs(Append(a, b))
    decreases a
  {
    if a.Next? && !Consumes(a.first) { NeedsAppend(a.rest, b); }
  }

  lemma PrefixAt(word: string, t: string, i: int)
    requires word <= t && 0 <= i < |word|
    ensures t[i] == word[i]
  {
  }

  lemma FoldedAt(lower: string, t: string, i: int)
    requires |lower| <= |t| && FoldsTo(t[..|lower|], lower) && 0 <= i < |lower|
    ensures FoldChar(t[i]) == lower[i]
  {
    assert t[..|lower|][i] == t[i];
  }

  lemma ItemFails(it: Item, t: string)
    requires Consumes(it) && IsPlain(t)
    ensures Take(it, t).None?
  {
    match it {
      case Word(word) =>
        var i :| 0 <= i < |word| && word[i] in NEEDED;
        if word <= t { PrefixAt(word, t, i); }
      case FoldWord(lower) =>
        var i :| 0 <= i < |lower| && lower[i] == ':';
        if |lower| <= |t| && FoldsTo(t[..|lower|], lower) { FoldedAt(lower, t, i); }
      case Run(cls, lo, hi) =>
        var n := Span(cls, t, hi);
        assert n > 0 ==> In(cls, t[0]);
    }
  }

  lemma {:induction false} MatchFails(r: Rx, t: string)
    requires Needs(r) && IsPlain(t)
    ensures Match(r, t).None?
    decreases r
  {
    hide Consumes;
    if Consumes(r.first) {
      ItemFails(r.first, t);
    } else if Take(r.first, t).Some? {
      MatchFails(r.rest, t[Take(r.first, t).value..]);
    }
  }

  predicate AltNeeds(a: Alt) { Needs(a.kept) || Needs(a.masked) }

  lemma AltFails(a: Alt, t: string)
    requires AltNeeds(a) && IsPlain(t)
    ensures MatchAlt(a, t).None?
  {
    hide Needs, Match;
    if Needs(a.kept) {
      MatchFails(a.kept, t);
    } else if Match(a.kept, t).Some? {
      MatchFails(a.masked, t[Match(a.kept, t).value..]);
    }
  }

  lemma {:induction false} HereFails(p: Pattern, t: string)
    requires (forall a :: a in p ==> AltNeeds(a)) && IsPlain(t)
    ensures MatchHere(p, t).None?
  {
    if p != [] {
      AltFails(p[0], t);
      HereFails(p[1..], t);
    }
  }

  lemma {:induction false} PassKeepsPlain(p: Pattern, t: string)
    requires Productive(p) && (forall a :: a in p ==> AltNeeds(a)) && IsPlain(t)
    ensures ReplaceAll(p, t) == t
    decreases |t|
  {
    if t != [] {
      hide AltNeeds, MatchHere, Productive;
      HereFails(p, t);
      PassKeepsPlain(p, t[1..]);
    }
  }

  lemma SeparatorNeeds()
    ensures Needs(SEPARATOR)
  {
    assert Consumes(SEPARATOR.rest.first);
  }

  lemma KeyValueNeeds(a: Alt)
    requires a in KEY_VALUE
    ensures AltNeeds(a)
  {
    SeparatorNeeds();
    NeedsAppend(Next(FoldWord("token"), End), SEPARATOR);
    NeedsAppend(Next(FoldWord("password"), End), SEPARATOR);
    NeedsAppend(Next(FoldWord("secret"), End), SEPARATOR);
    NeedsAppend(API_KEY, SEPARATOR);
  }

  lemma TokensNeed(p: Pattern, a: Alt)
    requires p in [CLASSIC_TOKEN, FINE_GRAINED_TOKEN, ACCESS_KEY, BEARER] && a in p
    ensures AltNeeds(a)
  {
    assert "_"[0] == '_' && "github_pat_"[6] == '_' && "AKIA"[0] == 'A' && "authorization:"[13] == ':';
    assert Consumes(Word("_")) && Consumes(Word("github_pat_")) && Consumes(Word("AKIA")) && Consumes(FoldWord("authorization:"));
  }

  lemma PatternsNeed(p: Pattern)
    requires p in PATTERNS
    ensures Productive(p) && forall a :: a in p ==> AltNeeds(a)
  {
    PatternsProductive();
    hide AltNeeds, Productive;
    forall a | a in p ensures AltNeeds(a) {
      if p == KEY_VALUE { KeyValueNeeds(a); } else { TokensNeed(p, a); }
    }
  }

  lemma {:induction false} PassesKeepPlain(ps: seq<Pattern>, t: string)
    requires (forall p :: p in ps ==> p in PATTERNS) && IsPlain(t)
    ensures forall p :: p in ps ==> Productive(p)
    ensures Passes(ps, t) == t
  {
    hide Productive, ReplaceAll, PATTERNS;
    forall p | p in ps ensures Productive(p) { PatternsNeed(p); }
    if ps != [] {
      var n := |ps| - 1;
      PassesKeepPlain(ps[..n], t);
      PatternsNeed(ps[n]);
      PassKeepsPlain(ps[n], t);
    }
  }

  /** Redaction changes no text without `_`, `A`, `:` and `=`. */
  lemma PlainTextIsKept(t: string)
    requires IsPlain(t)
    ensures Redact(t) == t
  {
    hide Passes, PATTERNS;
    PassesKeepPlain(PATTERNS, t);
  }
}
