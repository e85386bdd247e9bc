/**
What redaction removes, in plain words: the four kinds of secrets masked as a whole and the
values of keys, each described by its characters. A text is left unchanged by redaction
exactly when it holds none of them.
*/
module Secrets {
  import opened Text
  import opened Regex
  import opened Redaction
  import opened Settling
  import opened RedactionLaws

  // ----- Plain descriptions -----

  predicate IsLetter(c: char) { 'a' <= c <= 'z' || 'A' <= c <= 'Z' }

  /** `gh`, one of `p o u s r`, `_`, and at least twenty letters, digits or underscores. */
  predicate IsClassicToken(w: string) {
    && |w| >= 24 && w[0] == 'g' && w[1] == 'h'
    && (w[2] == 'p' || w[2] == 'o' || w[2] == 'u' || w[2] == 's' || w[2] == 'r') && w[3] == '_'
    && forall k :: 4 <= k < |w| ==> IsLetter(w[k]) || '0' <= w[k] <= '9' || w[k] == '_'
  }

  /** `github_pat_` and at least twenty letters, digits or underscores. */
  predicate IsFineGrainedToken(w: string) {
    && |w| >= 31 && w[..11] == "github_pat_"
    && forall k :: 11 <= k < |w| ==> IsLetter(w[k]) || '0' <= w[k] <= '9' || w[k] == '_'
  }

  /** `AKIA` and exactly sixteen digits or capital letters. */
  predicate IsAccessKey(w: string) {
    && |w| == 20 && w[..4] == "AKIA"
    && forall k :: 4 <= k < 20 ==> '0' <= w[k] <= '9' || 'A' <= w[k] <= 'Z'
  }

  /** The white space of a pattern. */
  predicate IsWhite(c: char) { c == ' ' || c == '\t' || c == '\n' || c == '\r' || c == '\U{000C}' }

  predicate WhiteBetween(w: string, i: int, j: int) {
    0 <= i <= j <= |w| && forall k :: i <= k < j ==> IsWhite(w[k])
  }

  /** A letter up to case; two characters outside ASCII fold to a letter. */
  predicate IsAnyLetter(c: char) { IsLetter(c) || c == '\U{017F}' || c == '\U{212A}' }

  predicate BearerAt(w: string, i: int, j: int) {
    && 14 <= i && i + 6 < j < |w|
    && FoldsTo(w[..14], "authorization:") && WhiteBetween(w, 14, i)
    && FoldsTo(w[i..i + 6], "bearer") && WhiteBetween(w, i + 6, j)
    && forall k :: j <= k < |w| ==> IsAnyLetter(w[k]) || '0' <= w[k] <= '9' || w[k] == '.' || w[k] == '_' || w[k] == '-'
  }

  /** `authorization:`, `bearer` and a credential, with white space between, in any case. */
  ghost predicate IsBearerHeader(w: string) {
    exists i, j :: BearerAt(w, i, j)
  }

  predicate IsKeyWord(w: string) {
    || FoldsTo(w, "token") || FoldsTo(w, "password") || FoldsTo(w, "secret")
    || FoldsTo(w, "apikey") || FoldsTo(w, "api_key") || FoldsTo(w, "api-key")
  }

  /** In `t`: a key word from `i` to `k`, a `:` or `=` at `c` with white space around it, and
      from `v` on a value, which starts with neither white space nor a quote. */
  predicate KeyedValue(t: string, i: int, k: int, c: int, v: int) {
    && 0 <= i <= k <= c < v < |t| && IsKeyWord(t[i..k])
    && WhiteBetween(t, k, c) && (t[c] == ':' || t[c] == '=') && WhiteBetween(t, c + 1, v)
    && !IsWhite(t[v]) && t[v] != '\"' && t[v] != '\''
  }

  /** The value at `v` is the mask, up to its end. */
  predicate IsMasked(t: string, v: int) {
    && 0 <= v && v + 10 <= |t| && t[v..v + 10] == "[REDACTED]"
    && (v + 10 == |t| || IsWhite(t[v + 10]) || t[v + 10] == '\"' || t[v + 10] == '\'')
  }

  // ----- One item and the rest -----

  lemma SplitOf(r: Rx, w: string) returns (n: nat)
    requires r.Next? && Lang(r, w)
    ensures SplitsAt(r, w, n)
  {
    n :| SplitsAt(r, w, n);
  }

  lemma WordThen(word: string, rest: Rx, w: string)
    ensures Lang(Next(Word(word), rest), w) <==> word <= w && Lang(rest, w[|word|..])
  {
    var r := Next(Word(word), rest);
    if Lang(r, w) {
      var n := SplitOf(r, w);
    }
    if word <= w && Lang(rest, w[|word|..]) {
      assert SplitsAt(r, w, |word|);
    }
  }

  lemma FoldThen(lower: string, rest: Rx, w: string)
    ensures Lang(Next(FoldWord(lower), rest), w) <==>
            |lower| <= |w| && FoldsTo(w[..|lower|], lower) && Lang(rest, w[|lower|..])
  {
    var r := Next(FoldWord(lower), rest);
    if Lang(r, w) {
      var n := SplitOf(r, w);
      assert n == |lower|;
    }
    if |lower| <= |w| && FoldsTo(w[..|lower|], lower) && Lang(rest, w[|lower|..]) {
      assert SplitsAt(r, w, |lower|);
    }
  }

  lemma OneThen(cls: Class, rest: Rx, w: string)
    ensures Lang(Next(Run(cls, 1, Some(1)), rest), w) <==> w != "" && In(cls, w[0]) && Lang(rest, w[1..])
  {
    hide In;
    var r := Next(Run(cls, 1, Some(1)), rest);
    if Lang(r, w) {
      var n := SplitOf(r, w);
      assert n == 1 && w[..1][0] == w[0];
    }
    if w != "" && In(cls, w[0]) && Lang(rest, w[1..]) {
      assert SplitsAt(r, w, 1);
    }
  }

  lemma RunEnds(cls: Class, lo: nat, hi: Option<nat>, w: string)
    ensures Lang(Next(Run(cls, lo, hi), End), w) <==>
            lo <= |w| && (hi.Some? ==> |w| <= hi.value) && forall k :: 0 <= k < |w| ==> In(cls, w[k])
  {
    SingleLang(Run(cls, lo, hi), w);
  }

  lemma OnePattern(r: Rx, w: string)
    ensures Denotes([Alt(End, r)], w) <==> Lang(r, w)
  {
    hide Lang;
    var p := [Alt(End, r)];
    assert p[0] in p && p[0].All() == r;
  }

  // ----- The patterns denote what the descriptions say -----

  /** Two-letter word, one character, one-letter word. */
  lemma ClassicStart(cls: Class, tail: Rx, w: string)
    ensures Lang(Next(Word("gh"), Next(Run(cls, 1, Some(1)), Next(Word("_"), tail))), w) <==>
            |w| > 3 && w[0] == 'g' && w[1] == 'h' && In(cls, w[2]) && w[3] == '_' && Lang(tail, w[4..])
  {
    hide Lang, In;
    var last := Next(Word("_"), tail);
    var rest := Next(Run(cls, 1, Some(1)), last);
    WordThen("gh", rest, w);
    if |w| > 1 {
      OneThen(cls, rest.rest, w[2..]);
      if |w| > 2 {
        WordThen("_", tail, w[3..]);
        assert w[2..][1..] == w[3..] && w[2..][0] == w[2];
        if |w| > 3 { assert w[3..][1..] == w[4..] && w[3..][0] == w[3]; }
      }
    }
  }

  lemma WordTail(lo: nat, w: string, n: nat)
    requires n <= |w|
    ensures Lang(Next(Run(WordChar, lo, None), End), w[n..]) <==>
            lo + n <= |w| && forall k :: n <= k < |w| ==> IsLetter(w[k]) || '0' <= w[k] <= '9' || w[k] == '_'
  {
    hide Lang;
    var x := w[n..];
    RunEnds(WordChar, lo, None, x);
    assert forall k :: 0 <= k < |x| ==> x[k] == w[n + k];
    assert forall k :: n <= k < |w| ==> w[k] == x[k - n];
  }

  lemma ClassicIs()
    ensures CLASSIC_TOKEN ==
            [Alt(End, Next(Word("gh"), Next(Run(OneOf({'p', 'o', 'u', 's', 'r'}), 1, Some(1)),
                      Next(Word("_"), Next(Run(WordChar, 20, None), End)))))]
    ensures forall c :: In(OneOf({'p', 'o', 'u', 's', 'r'}), c) <==> c == 'p' || c == 'o' || c == 'u' || c == 's' || c == 'r'
  {
  }

  lemma ClassicTokenExact(w: string)
    ensures Denotes(CLASSIC_TOKEN, w) <==> IsClassicToken(w)
  {
    hide Lang, Denotes, CLASSIC_TOKEN, In;
    var kind, tail := OneOf({'p', 'o', 'u', 's', 'r'}), Next(Run(WordChar, 20, None), End);
    ClassicIs();
    OnePattern(Next(Word("gh"), Next(Run(kind, 1, Some(1)), Next(Word("_"), tail))), w);
    ClassicStart(kind, tail, w);
    if |w| > 3 { WordTail(20, w, 4); }
  }

  lemma FineGrainedTokenExact(w: string)
    ensures Denotes(FINE_GRAINED_TOKEN, w) <==> IsFineGrainedToken(w)
  {
    var r := FINE_GRAINED_TOKEN[0].masked;
    OnePattern(r, w);
    WordThen("github_pat_", r.rest, w);
    if |w| >= 11 { WordTail(20, w, 11); }
  }

  lemma AccessKeyExact(w: string)
    ensures Denotes(ACCESS_KEY, w) <==> IsAccessKey(w)
  {
    var r := ACCESS_KEY[0].masked;
    OnePattern(r, w);
    WordThen("AKIA", r.rest, w);
    if "AKIA" <= w {
      RunEnds(UpperOrDigit, 16, Some(16), w[4..]);
      assert forall k :: 4 <= k < |w| ==> w[4..][k - 4] == w[k];
    }
  }

  lemma BearerChars()
    ensures forall c :: In(BearerChar, c) <==> IsAnyLetter(c) || '0' <= c <= '9' || c == '.' || c == '_' || c == '-'
    ensures forall c :: In(Space, c) <==> IsWhite(c)
  {
  }

  /** A run of white space, then the rest. */
  lemma WhiteThen(lo: nat, rest: Rx, w: string, p: nat) returns (q: nat)
    requires p <= |w| && Lang(Next(Run(Space, lo, None), rest), w[p..])
    ensures p + lo <= q <= |w| && WhiteBetween(w, p, q) && Lang(rest, w[q..])
  {
    hide Lang, In;
    BearerChars();
    var x := w[p..];
    var n := SplitOf(Next(Run(Space, lo, None), rest), x);
    q := p + n;
    assert x[n..] == w[q..];
    forall k | p <= k < q ensures IsWhite(w[k]) {
      assert x[..n][k - p] == w[k];
    }
  }

  lemma WhiteBefore(lo: nat, rest: Rx, w: string, p: nat, q: nat)
    requires p + lo <= q <= |w| && WhiteBetween(w, p, q) && Lang(rest, w[q..])
    ensures Lang(Next(Run(Space, lo, None), rest), w[p..])
  {
    hide Lang, In;
    BearerChars();
    var x := w[p..];
    var n := q - p;
    assert x[n..] == w[q..];
    assert forall k :: 0 <= k < n ==> x[..n][k] == w[p + k];
    SplitIsMember(Next(Run(Space, lo, None), rest), x, n);
  }

  lemma FoldAt(lower: string, rest: Rx, w: string, p: nat)
    requires p <= |w|
    ensures Lang(Next(FoldWord(lower), rest), w[p..]) <==>
            p + |lower| <= |w| && FoldsTo(w[p..p + |lower|], lower) && Lang(rest, w[p + |lower|..])
  {
    hide Lang, FoldsTo;
    var x := w[p..];
    FoldThen(lower, rest, x);
    if |lower| <= |x| {
      assert x[..|lower|] == w[p..p + |lower|] && x[|lower|..] == w[p + |lower|..];
    }
  }

  lemma CredentialAt(w: string, j: nat)
    requires j <= |w|
    ensures Lang(Next(Run(BearerChar, 1, None), End), w[j..]) <==>
            j < |w| && forall k :: j <= k < |w| ==> IsAnyLetter(w[k]) || '0' <= w[k] <= '9' || w[k] == '.' || w[k] == '_' || w[k] == '-'
  {
    hide Lang, In, IsAnyLetter;
    BearerChars();
    var x := w[j..];
    RunEnds(BearerChar, 1, None, x);
    assert forall k :: 0 <= k < |x| ==> x[k] == w[j + k];
    assert forall k :: j <= k < |w| ==> w[k] == x[k - j];
  }

  const CREDENTIAL: Rx := Next(Run(BearerChar, 1, None), End)
  const SPACED: Rx := Next(Run(Space, 1, None), CREDENTIAL)
  const NAMED: Rx := Next(FoldWord("bearer"), SPACED)
  const HEADED: Rx := Next(Run(Space, 0, None), NAMED)
  const HEADER: Rx := Next(FoldWord("authorization:"), HEADED)

  lemma BearerIs()
    ensures BEARER == [Alt(End, HEADER)] && |"authorization:"| == 14 && |"bearer"| == 6
  {
  }

  lemma HeaderIsBearer(w: string)
    requires Lang(HEADER, w)
    ensures IsBearerHeader(w)
  {
    hide Lang, FoldsTo, IsAnyLetter, WhiteBetween;
    assert w[0..] == w;
    FoldAt("authorization:", HEADED, w, 0);
    var i := WhiteThen(0, NAMED, w, 14);
    FoldAt("bearer", SPACED, w, i);
    var j := WhiteThen(1, CREDENTIAL, w, i + 6);
    CredentialAt(w, j);
    assert BearerAt(w, i, j);
  }

  lemma BearerIsHeader(w: string, i: nat, j: nat)
    requires BearerAt(w, i, j)
    ensures Lang(HEADER, w)
  {
    hide Lang, FoldsTo, IsAnyLetter, WhiteBetween;
    CredentialAt(w, j);
    WhiteBefore(1, CREDENTIAL, w, i + 6, j);
    FoldAt("bearer", SPACED, w, i);
    WhiteBefore(0, NAMED, w, 14, i);
    FoldAt("authorization:", HEADED, w, 0);
    assert w[0..] == w;
  }

  lemma BearerHeaderExact(w: string)
    ensures Denotes(BEARER, w) <==> IsBearerHeader(w)
  {
    hide Lang, BEARER, HEADER, Denotes, BearerAt;
    BearerIs();
    OnePattern(HEADER, w);
    if Lang(HEADER, w) { HeaderIsBearer(w); }
    if i, j :| BearerAt(w, i, j) {
      BearerIndices(w, i, j);
      BearerIsHeader(w, i, j);
    }
  }

  lemma BearerIndices(w: string, i: int, j: int)
    requires BearerAt(w, i, j)
    ensures 0 <= i <= j
  {
  }

  // ----- Keys and their values -----

  lemma KeyWordExact(w: string)
    ensures IsKey(w) <==> IsKeyWord(w)
  {
    if IsApiKey(w) { ApiKeyWord(w); }
    if FoldsTo(w, "apikey") || FoldsTo(w, "api_key") || FoldsTo(w, "api-key") { ApiWordKey(w); }
  }

  lemma ApiKeyWord(w: string)
    requires IsApiKey(w)
    ensures FoldsTo(w, "apikey") || FoldsTo(w, "api_key") || FoldsTo(w, "api-key")
  {
    var n := |w| - 3;
    assert forall k :: 0 <= k < 3 ==> w[..3][k] == w[k] && w[n..][k] == w[n + k];
  }

  lemma ApiWordKey(w: string)
    requires FoldsTo(w, "apikey") || FoldsTo(w, "api_key") || FoldsTo(w, "api-key")
    ensures IsApiKey(w)
  {
    var n := |w| - 3;
    assert forall k :: 0 <= k < 3 ==> w[..3][k] == w[k] && w[n..][k] == w[n + k];
  }

  lemma ValueChars()
    ensures forall c :: In(SecretValue, c) <==> !IsWhite(c) && c != '\"' && c != '\''
    ensures forall c :: IsBlank(c) <==> IsWhite(c)
    ensures MARK == "[REDACTED]" && |MARK| == 10
  {
  }

  lemma KeyedIsHead(t: string, i: nat, k: nat, c: nat, v: nat)
    requires KeyedValue(t, i, k, c, v)
    ensures HeadAt(IsHead, t, i, v - i)
  {
    ValueChars();
    hide IsKeyWord, IsKey, In, IsWhite, IsBlank, IsMark;
    var w := t[i..v];
    assert w[..k - i] == t[i..k];
    KeyWordExact(t[i..k]);
    assert forall x :: 0 <= x < |w| ==> w[x] == t[i + x];
    MarkIs();
    assert HeadShape(w, k - i, c - i);
    assert t[i..i + (v - i)] == w;
  }

  lemma MarkIs()
    ensures forall c :: IsMark(c) <==> c == ':' || c == '='
  {
  }

  lemma HeadIsKeyed(t: string, i: nat, n: nat) returns (k: nat, c: nat)
    requires HeadAt(IsHead, t, i, n)
    ensures KeyedValue(t, i, k, c, i + n)
  {
    ValueChars();
    MarkIs();
    hide IsKeyWord, IsKey, In, IsWhite, IsBlank, IsMark;
    k, c := HeadFacts(t, i, n);
    KeyWordExact(t[i..k]);
  }

  lemma MaskedExact(t: string, v: nat)
    ensures MaskedAt(t, v) <==> IsMasked(t, v)
  {
    ValueChars();
    hide In, IsWhite, MARK;
  }

  // ----- Main results -----

  /** The text holds no secret in plain sight. */
  ghost predicate NoSecret(t: string) {
    && (forall i, j :: 0 <= i <= j <= |t| ==> NoToken(t[i..j]))
    && (forall i, k, c, v :: KeyedValue(t, i, k, c, v) ==> IsMasked(t, v))
  }

  ghost predicate NoToken(w: string) {
    !IsClassicToken(w) && !IsFineGrainedToken(w) && !IsAccessKey(w) && !IsBearerHeader(w)
  }

  lemma NoTokenExact(w: string)
    ensures NoToken(w) <==>
            !Denotes(CLASSIC_TOKEN, w) && !Denotes(FINE_GRAINED_TOKEN, w) && !Denotes(ACCESS_KEY, w) && !Denotes(BEARER, w)
  {
    hide Denotes, IsClassicToken, IsFineGrainedToken, IsAccessKey, IsBearerHeader;
    ClassicTokenExact(w);
    FineGrainedTokenExact(w);
    AccessKeyExact(w);
    BearerHeaderExact(w);
  }

  ghost predicate NoneOccurs(t: string) {
    !Occurs(CLASSIC_TOKEN, t) && !Occurs(FINE_GRAINED_TOKEN, t) && !Occurs(ACCESS_KEY, t) && !Occurs(BEARER, t)
  }

  lemma NoneOccursExact(t: string)
    ensures NoneOccurs(t) <==> forall i, j :: 0 <= i <= j <= |t| ==> NoToken(t[i..j])
  {
    hide Denotes, NoToken;
    if NoneOccurs(t) {
      forall i, j | 0 <= i <= j <= |t| ensures NoToken(t[i..j]) {
        NotAt(t, i, j);
        NoTokenExact(t[i..j]);
      }
    }
    if forall i, j :: 0 <= i <= j <= |t| ==> NoToken(t[i..j]) {
      forall i: nat, j: nat | i <= j <= |t|
        ensures !OccursAt(CLASSIC_TOKEN, t, i, j) && !OccursAt(FINE_GRAINED_TOKEN, t, i, j)
        ensures !OccursAt(ACCESS_KEY, t, i, j) && !OccursAt(BEARER, t, i, j)
      {
        NoTokenExact(t[i..j]);
      }
    }
  }

  lemma NotAt(t: string, i: int, j: int)
    requires 0 <= i <= j <= |t| && NoneOccurs(t)
    ensures var w := t[i..j];
            !Denotes(CLASSIC_TOKEN, w) && !Denotes(FINE_GRAINED_TOKEN, w) && !Denotes(ACCESS_KEY, w) && !Denotes(BEARER, w)
  {
    hide Denotes;
    assert OccursAt(CLASSIC_TOKEN, t, i, j) <==> Denotes(CLASSIC_TOKEN, t[i..j]);
    assert OccursAt(FINE_GRAINED_TOKEN, t, i, j) <==> Denotes(FINE_GRAINED_TOKEN, t[i..j]);
    assert OccursAt(ACCESS_KEY, t, i, j) <==> Denotes(ACCESS_KEY, t[i..j]);
    assert OccursAt(BEARER, t, i, j) <==> Denotes(BEARER, t[i..j]);
  }

  lemma SettledExact(t: string)
    ensures Settled(IsHead, t) <==> forall i, k, c, v :: KeyedValue(t, i, k, c, v) ==> IsMasked(t, v)
  {
    hide KeyedValue, IsMasked, MaskedAt, HeadAt;
    if Settled(IsHead, t) {
      forall i, k, c, v | KeyedValue(t, i, k, c, v) ensures IsMasked(t, v) {
        KeyedIndices(t, i, k, c, v);
        KeyedIsHead(t, i, k, c, v);
        MaskedExact(t, v);
      }
    }
    if forall i, k, c, v :: KeyedValue(t, i, k, c, v) ==> IsMasked(t, v) {
      forall i: nat, n: nat | HeadAt(IsHead, t, i, n) ensures MaskedAt(t, i + n) {
        var k, c := HeadIsKeyed(t, i, n);
        MaskedExact(t, i + n);
      }
    }
  }

  lemma KeyedIndices(t: string, i: int, k: int, c: int, v: int)
    requires KeyedValue(t, i, k, c, v)
    ensures 0 <= i <= k <= c < v < |t|
  {
  }

  lemma CleanIsNoSecret(t: string)
    ensures Clean(t) <==> NoSecret(t)
  {
    hide Occurs, Settled, NoToken, KeyedValue, IsMasked;
    NoneOccursExact(t);
    SettledExact(t);
  }

  /** No redacted text holds a token, an access key, a bearer header, or the value of a key. */
  lemma NothingSecretLeft(raw: string)
    ensures NoSecret(Redact(raw))
  {
    hide Clean, NoSecret, Redact;
    RedactedIsClean(raw);
    CleanIsNoSecret(Redact(raw));
  }

  /** Redaction changes exactly the texts that hold a secret. */
  lemma UnchangedIffNoSecret(raw: string)
    ensures Redact(raw) == raw <==> NoSecret(raw)
  {
    hide Clean, NoSecret, Redact;
    RedactedIsClean(raw);
    CleanIsNoSecret(raw);
    if Clean(raw) { CleanIsFixed(raw); }
  }
}
