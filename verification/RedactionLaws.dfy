/**
The laws of redaction: what no redacted text contains, and idempotence.
The key/separator/value pass keeps its key, so its law is about what follows a key.
*/
module RedactionLaws {
  import opened Text
  import opened Regex
  import opened Redaction
  import opened Settling

  // ----- Keys and separators, without the pattern language -----

  predicate IsKey(w: string) {
    FoldsTo(w, "token") || FoldsTo(w, "password") || FoldsTo(w, "secret") || IsApiKey(w)
  }

  ghost predicate BlankBetween(t: string, i: nat, j: nat) {
    i <= j <= |t| && forall k :: i <= k < j ==> IsBlank(t[k])
  }

  /** `w` is a key of length `k`, then blanks around a `:` or `=` at position `c`. */
  ghost predicate HeadShape(w: string, k: nat, c: nat) {
    && k <= c < |w|
    && IsKey(w[..k])
    && BlankBetween(w, k, c) && IsMark(w[c]) && BlankBetween(w, c + 1, |w|)
  }

  ghost predicate IsHead(w: string) {
    exists k: nat, c: nat :: HeadShape(w, k, c)
  }

  // ----- The pattern language agrees -----

  lemma SeparatorShape(w: string) returns (c: nat)
    requires Lang(SEPARATOR, w)
    ensures c < |w| && BlankBetween(w, 0, c) && IsMark(w[c]) && BlankBetween(w, c + 1, |w|)
  {
    c :| SplitsAt(SEPARATOR, w, c);
    var x := w[c..];
    var one: nat :| SplitsAt(SEPARATOR.rest, x, one);
    var y := x[one..];
    SingleLang(SEPARATOR.rest.rest.first, y);
    assert x[..1][0] == w[c];
    forall k | 0 <= k < c ensures IsBlank(w[k]) { assert w[k] == w[..c][k]; }
    forall k | c + 1 <= k < |w| ensures IsBlank(w[k]) { assert w[k] == y[k - c - 1]; }
  }

  lemma ShapeSeparator(w: string, c: nat)
    requires c < |w| && BlankBetween(w, 0, c) && IsMark(w[c]) && BlankBetween(w, c + 1, |w|)
    ensures Lang(SEPARATOR, w)
  {
    var x := w[c..];
    var y := x[1..];
    forall k | 0 <= k < |y| ensures IsBlank(y[k]) { assert y[k] == w[c + 1 + k]; }
    SingleLang(SEPARATOR.rest.rest.first, y);
    assert x[..1] == [w[c]];
    assert SplitsAt(SEPARATOR.rest, x, 1);
    assert SplitsAt(SEPARATOR, w, c);
  }

  predicate IsApiKey(w: string) {
    && 6 <= |w| <= 7
    && FoldsTo(w[..3], "api") && FoldsTo(w[|w| - 3..], "key")
    && (|w| == 7 ==> w[3] in {'_', '-'})
  }

  lemma ApiKeyIsMember(w: string, m: nat)
    requires |w| == 6 + m && m <= 1 && FoldsTo(w[..3], "api") && FoldsTo(w[3 + m..], "key")
    requires m == 1 ==> w[3] in {'_', '-'}
    ensures Lang(API_KEY, w)
  {
    var x := w[3..];
    assert x[m..] == w[3 + m..];
    SingleLang(FoldWord("key"), x[m..]);
    assert SplitsAt(API_KEY.rest, x, m);
    assert SplitsAt(API_KEY, w, 3);
  }

  lemma DashThenKey(x: string) returns (m: nat)
    requires Lang(API_KEY.rest, x)
    ensures m <= 1 && m <= |x| && FoldsTo(x[m..], "key")
    ensures m == 1 ==> x[0] in {'_', '-'}
  {
    m :| SplitsAt(API_KEY.rest, x, m);
    SingleMember(API_KEY.rest.rest, x[m..]);
    assert m == 1 ==> x[..m][0] == x[0];
  }

  lemma MemberIsApiKey(w: string) returns (m: nat)
    requires Lang(API_KEY, w)
    ensures m <= 1 && |w| == 6 + m && FoldsTo(w[..3], "api") && FoldsTo(w[3 + m..], "key")
    ensures m == 1 ==> w[3] in {'_', '-'}
  {
    var n: nat :| SplitsAt(API_KEY, w, n);
    assert n == 3;
    m := DashThenKey(w[3..]);
    assert w[3..][m..] == w[3 + m..];
  }

  lemma ApiKeyLang(w: string)
    ensures Lang(API_KEY, w) <==> IsApiKey(w)
  {
    if Lang(API_KEY, w) {
      var m := MemberIsApiKey(w);
    } else if IsApiKey(w) {
      ApiKeyIsMember(w, |w| - 6);
    }
  }

  function KeyItems(i: nat): Rx
    requires i < 4
  {
    if i == 0 then Next(FoldWord("token"), End)
    else if i == 1 then Next(FoldWord("password"), End)
    else if i == 2 then Next(FoldWord("secret"), End)
    else API_KEY
  }

  lemma KeyValueAlts()
    ensures |KEY_VALUE| == 4
    ensures forall i :: 0 <= i < 4 ==> KEY_VALUE[i] == Alt(Append(KeyItems(i), SEPARATOR), VALUE)
  {
  }

  lemma KeyLang(w: string)
    ensures IsKey(w) <==> exists i :: 0 <= i < 4 && Lang(KeyItems(i), w)
  {
    SingleLang(FoldWord("token"), w);
    SingleLang(FoldWord("password"), w);
    SingleLang(FoldWord("secret"), w);
    ApiKeyLang(w);
    assert KeyItems(0) == Next(FoldWord("token"), End) && KeyItems(1) == Next(FoldWord("password"), End);
    assert KeyItems(2) == Next(FoldWord("secret"), End) && KeyItems(3) == API_KEY;
    if FoldsTo(w, "token") { assert Lang(KeyItems(0), w); }
    if FoldsTo(w, "password") { assert Lang(KeyItems(1), w); }
    if FoldsTo(w, "secret") { assert Lang(KeyItems(2), w); }
    if Lang(API_KEY, w) { assert Lang(KeyItems(3), w); }
  }

  lemma Joined(a: Rx, b: Rx, w: string, k: nat)
    requires k <= |w| && Lang(a, w[..k]) && Lang(b, w[k..])
    ensures Lang(Append(a, b), w)
  {
    LangAppend(a, b, w[..k], w[k..]);
    assert w[..k] + w[k..] == w;
  }

  lemma ShapeMembers(w: string, k: nat, c: nat) returns (i: nat)
    requires HeadShape(w, k, c)
    ensures i < 4 && Lang(KeyItems(i), w[..k]) && Lang(SEPARATOR, w[k..])
  {
    KeyLang(w[..k]);
    i :| 0 <= i < 4 && Lang(KeyItems(i), w[..k]);
    ShapeSeparator(w[k..], c - k);
  }

  lemma HeadIsMember(w: string)
    requires IsHead(w)
    ensures exists i :: 0 <= i < 4 && Lang(Append(KeyItems(i), SEPARATOR), w)
  {
    var k: nat, c: nat :| HeadShape(w, k, c);
    var i := ShapeMembers(w, k, c);
    Joined(KeyItems(i), SEPARATOR, w, k);
  }

  lemma MemberIsHead(w: string, i: nat)
    requires i < 4 && Lang(Append(KeyItems(i), SEPARATOR), w)
    ensures IsHead(w)
  {
    var k := LangSplit(KeyItems(i), SEPARATOR, w);
    KeyLang(w[..k]);
    var c := SeparatorShape(w[k..]);
    assert w[k..][c] == w[k + c];
    forall j | k <= j < |w| ensures w[j] == w[k..][j - k] {}
    assert HeadShape(w, k, k + c);
  }

  lemma KeyValueWellFormed()
    ensures WellFormed(KEY_VALUE)
  {
    forall a | a in KEY_VALUE ensures Deterministic(a.All()) {
      var i := KeyValueIndex(a);
      SeparatorDeterministic();
      KeyThenDeterministic(i, Append(SEPARATOR, VALUE));
      AppendAssociative(KeyItems(i), SEPARATOR, VALUE);
    }
  }

  lemma SeparatorDeterministic()
    ensures Deterministic(Append(SEPARATOR, VALUE)) && Append(SEPARATOR, VALUE).Next?
  {
    var r := Append(SEPARATOR, VALUE);
    assert r.rest.rest.rest == VALUE;
  }

  lemma KeyThenDeterministic(i: nat, r: Rx)
    requires i < 4 && Deterministic(r)
    ensures Deterministic(Append(KeyItems(i), r))
  {
    assert Append(End, r) == r;
    var k := Next(FoldWord("key"), r);
    assert Deterministic(k);
    assert Append(API_KEY.rest.rest, r) == k;
    assert Append(API_KEY.rest, r) == Next(DASH, k);
    assert Append(API_KEY, r) == Next(FoldWord("api"), Next(DASH, k));
    assert Deterministic(Next(DASH, k));
  }

  lemma AppendAssociative(a: Rx, b: Rx, c: Rx)
    ensures Append(Append(a, b), c) == Append(a, Append(b, c))
  {
  }

  // ----- A match of the key/value pattern is a head followed by its value -----

  lemma ValueScan(v: string)
    requires Match(VALUE, v).Some?
    ensures Match(VALUE, v).value == Span(SecretValue, v, None) > 0
  {
    assert Match(End, v[Take(VALUE.first, v).value..]) == Some(0);
  }

  lemma ValueAfter(a: Alt, t: string)
    requires a.masked == VALUE && MatchAlt(a, t).Some?
    ensures var h := MatchAlt(a, t).value;
            && h.kept < h.total <= |t|
            && (forall j :: h.kept <= j < h.total ==> In(SecretValue, t[j]))
            && (h.total == |t| || !In(SecretValue, t[h.total]))
  {
    var h := MatchAlt(a, t).value;
    var v := t[h.kept..];
    ValueScan(v);
    var n := Span(SecretValue, v, None);
    assert h.total == h.kept + n;
    forall j | h.kept <= j < h.total ensures In(SecretValue, t[j]) {
      assert t[j] == v[j - h.kept];
    }
  }

  lemma HitIsHead(t: string)
    requires MatchHere(KEY_VALUE, t).Some?
    ensures var h := MatchHere(KEY_VALUE, t).value;
            && HeadAt(IsHead, t, 0, h.kept) && h.kept < h.total <= |t|
            && (forall j :: h.kept <= j < h.total ==> In(SecretValue, t[j]))
            && (h.total == |t| || !In(SecretValue, t[h.total]))
  {
    var h := MatchHere(KEY_VALUE, t).value;
    var a := HereIsMember(KEY_VALUE, t);
    var i := KeyValueIndex(a);
    MemberIsHead(t[..h.kept], i);
    assert t[0..0 + h.kept] == t[..h.kept];
    ValueAfter(a, t);
  }

  lemma KeyValueIndex(a: Alt) returns (i: nat)
    requires a in KEY_VALUE
    ensures i < 4 && a == KEY_VALUE[i] && a.kept == Append(KeyItems(i), SEPARATOR) && a.masked == VALUE
  {
    KeyValueAlts();
    i :| 0 <= i < 4 && KEY_VALUE[i] == a;
  }

  predicate IsKeyChar(c: char) { IsLower(FoldChar(c)) || c == '_' || c == '-' }

  lemma KeyChars(w: string)
    requires IsKey(w)
    ensures w != [] && FoldChar(w[0]) in {'t', 'p', 's', 'a'}
    ensures forall i :: 0 <= i < |w| ==> IsKeyChar(w[i])
  {
    if IsApiKey(w) {
      var m := |w| - 3;
      assert w[..3][0] == w[0];
      forall i | 0 <= i < |w| ensures IsKeyChar(w[i]) {
        assert i < 3 ==> w[i] == w[..3][i];
        assert i >= m ==> w[i] == w[m..][i - m];
      }
    }
  }

  /** Where the key of a head ends and where its mark is, in the text that holds it. */
  lemma HeadFacts(t: string, i: nat, n: nat) returns (k: nat, c: nat)
    requires i + n <= |t| && IsHead(t[i..i + n])
    ensures i < k <= c < i + n && IsKey(t[i..k]) && FoldChar(t[i]) in {'t', 'p', 's', 'a'}
    ensures forall p :: i <= p < k ==> IsKeyChar(t[p])
    ensures BlankBetween(t, k, c) && IsMark(t[c]) && BlankBetween(t, c + 1, i + n)
    ensures !IsKeyChar(t[k]) && !IsBlank(t[c])
  {
    var w := t[i..i + n];
    var x: nat, y: nat :| HeadShape(w, x, y);
    k, c := i + x, i + y;
    KeyChars(w[..x]);
    assert w[..x] == t[i..k] && w[..x][0] == t[i];
    forall p | i <= p < i + n ensures t[p] == w[p - i] {}
    forall p | i <= p < k ensures IsKeyChar(t[p]) { assert t[p] == w[..x][p - i]; }
  }

  /** Two heads at the start of a text, both followed by a value, are the same. */
  lemma HeadUnique(t: string, n: nat, m: nat)
    requires HeadAt(IsHead, t, 0, n) && HeadAt(IsHead, t, 0, m)
    ensures n == m
  {
    var k, c := HeadFacts(t, 0, n);
    var l, d := HeadFacts(t, 0, m);
    assert k == l;
    assert c == d;
  }

  lemma OneValueChar(x: string, n: nat)
    requires |x| == n + 1 && In(SecretValue, x[n])
    ensures Lang(VALUE, x[n..])
  {
    SingleLang(VALUE.first, x[n..]);
  }

  lemma HeadAndValueDenoted(t: string, n: nat)
    requires HeadAt(IsHead, t, 0, n)
    ensures Denotes(KEY_VALUE, t[..n + 1])
  {
    assert t[0..0 + n] == t[..n];
    HeadIsMember(t[..n]);
    var i :| 0 <= i < 4 && Lang(Append(KeyItems(i), SEPARATOR), t[..n]);
    KeyValueAlts();
    var a := KEY_VALUE[i];
    var x := t[..n + 1];
    assert x[..n] == t[..n];
    OneValueChar(x, n);
    Joined(a.kept, a.masked, x, n);
    assert a in KEY_VALUE && Lang(a.All(), x);
  }

  lemma HeadIsHit(t: string, n: nat)
    requires HeadAt(IsHead, t, 0, n)
    ensures MatchHere(KEY_VALUE, t).Some? && MatchHere(KEY_VALUE, t).value.kept == n
  {
    HeadAndValueDenoted(t, n);
    KeyValueWellFormed();
    MemberIsFound(KEY_VALUE, t, n + 1);
    HitIsHead(t);
    HeadUnique(t, MatchHere(KEY_VALUE, t).value.kept, n);
  }

  /** The letters that tell a key from the end of another one. */
  lemma KeyLetters(w: string)
    requires IsKey(w)
    ensures 5 <= |w| <= 8
    ensures |w| == 5 ==> FoldChar(w[0]) == 't' && FoldChar(w[1]) == 'o'
    ensures |w| == 6 ==> (FoldChar(w[0]) == 's' && FoldChar(w[1]) == 'e') || (FoldChar(w[0]) == 'a' && FoldChar(w[1]) == 'p')
    ensures |w| == 7 ==> FoldChar(w[0]) == 'a' && FoldChar(w[1]) == 'p'
  {
    if IsApiKey(w) { assert w[..3][0] == w[0] && w[..3][1] == w[1]; }
  }

  lemma LongKeyLetters(w: string)
    requires IsKey(w) && 6 <= |w|
    ensures |w| == 6 ==> FoldChar(w[1]) != 't'
    ensures |w| == 7 ==> FoldChar(w[1]) == 'p' && FoldChar(w[2]) == 'i'
    ensures |w| == 8 ==> FoldChar(w[1]) == 'a' && FoldChar(w[2]) == 's' && FoldChar(w[3]) == 's' && FoldChar(w[4]) == 'w'
  {
    if IsApiKey(w) { assert w[..3][1] == w[1] && w[..3][2] == w[2]; }
  }

  /** No key is a proper suffix of a key. */
  lemma NoKeySuffix(w: string, j: nat)
    requires IsKey(w) && 0 < j < |w|
    ensures !IsKey(w[j..])
  {
    var s := w[j..];
    KeyLetters(w);
    assert s[0] == w[j] && (|s| > 1 ==> s[1] == w[j + 1]);
    if 6 <= |w| { LongKeyLetters(w); }
    if IsKey(s) { KeyLetters(s); }
  }

  /** No head starts inside another one. */
  lemma NoInnerHead(t: string, i: nat, n: nat, j: nat, m: nat)
    requires i < j && j + m <= i + n <= |t| && IsHead(t[i..i + n])
    ensures !IsHead(t[j..j + m])
  {
    if IsHead(t[j..j + m]) {
      var k, c := HeadFacts(t, i, n);
      var l, d := HeadFacts(t, j, m);
      assert IsBlank(t[l]) || IsMark(t[l]);
      assert IsBlank(t[k]) || IsMark(t[k]);
      assert j < k;
      assert l == k;
      assert t[i..k][j - i..] == t[j..l];
      NoKeySuffix(t[i..k], j - i);
    }
  }

  /** The key/separator/value pattern matches exactly the heads followed by a value. */
  lemma KeyValueMatchesHeads()
    ensures MatchesHeads(IsHead, KEY_VALUE)
  {
    KeyValueWellFormed();
    forall w: string ensures HeadLike(IsHead, w) { HeadIsLike(w); }
    forall t: string, i: nat, n: nat, j: nat, m: nat ensures NoneInside(IsHead, t, i, n, j, m) {
      if i < j && j + m <= i + n <= |t| && IsHead(t[i..i + n]) { NoInnerHead(t, i, n, j, m); }
    }
    forall t: string ensures MatchesHeadIn(IsHead, KEY_VALUE, t) { KeyValueMatchesHeadIn(t); }
  }

  lemma HeadIsLike(w: string)
    ensures HeadLike(IsHead, w)
  {
    if IsHead(w) {
      assert w[0..0 + |w|] == w;
      var k, c := HeadFacts(w, 0, |w|);
      assert forall i :: 0 <= i < |w| ==> IsKeyChar(w[i]) || IsBlank(w[i]) || IsMark(w[i]);
    }
  }

  lemma KeyValueMatchesHeadIn(t: string)
    ensures MatchesHeadIn(IsHead, KEY_VALUE, t)
  {
    if MatchHere(KEY_VALUE, t).Some? { HitIsHead(t); }
    forall n: nat | HeadAt(IsHead, t, 0, n)
      ensures MatchHere(KEY_VALUE, t).Some? && MatchHere(KEY_VALUE, t).value.kept == n
    {
      HeadIsHit(t, n);
    }
  }

  // ----- Main results -----

  /** The patterns that mask a whole match. */
  predicate IsWholePattern(p: Pattern) {
    p == CLASSIC_TOKEN || p == FINE_GRAINED_TOKEN || p == ACCESS_KEY || p == BEARER
  }

  lemma WholeClosed(r: Rx)
    requires r.Next? && Deterministic(r) && LongerThan(r, |MARK|) && AllAvoid(r, '[') && AllAvoid(r, ']')
    requires NonEmpty(r.first) && forall c :: CanStart(r.first, c) ==> In(SecretValue, c)
    ensures var p := [Alt(End, r)]; WellFormed(p) && Closed(p) && StartsInValue(p)
  {
    assert Alt(End, r).All() == r;
  }

  lemma ClassicTokenClosed()
    ensures WellFormed(CLASSIC_TOKEN) && Closed(CLASSIC_TOKEN) && StartsInValue(CLASSIC_TOKEN)
  {
    var r := CLASSIC_TOKEN[0].masked;
    var last := r.rest.rest.rest;
    assert Deterministic(last) && LongerThan(last, |MARK|) && AllAvoid(last, '[') && AllAvoid(last, ']');
    assert Deterministic(r.rest) && LongerThan(r.rest, |MARK|) && AllAvoid(r.rest, '[') && AllAvoid(r.rest, ']');
    WholeClosed(r);
  }

  lemma FineGrainedTokenClosed()
    ensures WellFormed(FINE_GRAINED_TOKEN) && Closed(FINE_GRAINED_TOKEN) && StartsInValue(FINE_GRAINED_TOKEN)
  {
    WholeClosed(FINE_GRAINED_TOKEN[0].masked);
  }

  lemma AccessKeyClosed()
    ensures WellFormed(ACCESS_KEY) && Closed(ACCESS_KEY) && StartsInValue(ACCESS_KEY)
  {
    WholeClosed(ACCESS_KEY[0].masked);
  }

  ghost predicate Sound(r: Rx) {
    Deterministic(r) && AllAvoid(r, '[') && AllAvoid(r, ']')
  }

  lemma SoundNext(r: Rx)
    requires r.Next? && Avoids(r.first, '[') && Avoids(r.first, ']') && Sound(r.rest)
    requires r.rest.Next? ==> Separate(r.first, r.rest.first)
    ensures Sound(r)
  {
  }

  lemma BearerSound()
    ensures Sound(BEARER[0].masked)
  {
    var r := BEARER[0].masked;
    SoundNext(r.rest.rest.rest.rest);
    SoundNext(r.rest.rest.rest);
    SoundNext(r.rest.rest);
    SoundNext(r.rest);
    SoundNext(r);
  }

  lemma BearerClosed()
    ensures WellFormed(BEARER) && Closed(BEARER) && StartsInValue(BEARER)
  {
    BearerSound();
    hide Deterministic, AllAvoid;
    WholeClosed(BEARER[0].masked);
  }

  lemma WholePatternsClosed(p: Pattern)
    requires IsWholePattern(p)
    ensures WellFormed(p) && Closed(p) && StartsInValue(p)
  {
    if p == CLASSIC_TOKEN {
      ClassicTokenClosed();
    } else if p == FINE_GRAINED_TOKEN {
      FineGrainedTokenClosed();
    } else if p == ACCESS_KEY {
      AccessKeyClosed();
    } else {
      BearerClosed();
    }
  }

  ghost predicate Clean(t: string) {
    && !Occurs(CLASSIC_TOKEN, t) && !Occurs(FINE_GRAINED_TOKEN, t) && !Occurs(ACCESS_KEY, t)
    && !Occurs(BEARER, t) && Settled(IsHead, t)
  }

  lemma PassesUnrolled(raw: string)
    ensures forall p :: p in PATTERNS ==> Productive(p)
    ensures Redact(raw) ==
            ReplaceAll(BEARER, ReplaceAll(KEY_VALUE, ReplaceAll(ACCESS_KEY,
              ReplaceAll(FINE_GRAINED_TOKEN, ReplaceAll(CLASSIC_TOKEN, raw)))))
  {
    hide ReplaceAll;
    PatternsProductive();
    assert PATTERNS[..0] == [] && PATTERNS[..5] == PATTERNS;
    PassesStep(raw, 0);
    PassesStep(raw, 1);
    PassesStep(raw, 2);
    PassesStep(raw, 3);
    PassesStep(raw, 4);
  }

  lemma PassesStep(raw: string, i: nat)
    requires i < 5 && forall p :: p in PATTERNS ==> Productive(p)
    ensures Passes(PATTERNS[..i + 1], raw) == ReplaceAll(PATTERNS[i], Passes(PATTERNS[..i], raw))
  {
    assert PATTERNS[..i + 1][..i] == PATTERNS[..i];
  }

  lemma PassCleans(p: Pattern, t: string)
    requires IsWholePattern(p)
    ensures !Occurs(p, ReplaceAll(p, t))
  {
    WholePatternsClosed(p);
    PassRemovesAll(p, [], t);
    assert [] + ReplaceAll(p, t) == ReplaceAll(p, t);
  }

  lemma PassPreserves(p: Pattern, q: Pattern, t: string)
    requires IsWholePattern(p) && WellFormed(q) && !Occurs(p, t)
    ensures !Occurs(p, ReplaceAll(q, t))
  {
    WholePatternsClosed(p);
    assert [] + t == t && [] + ReplaceAll(q, t) == ReplaceAll(q, t);
    PassCreatesNone(p, q, [], t);
  }

  /** No token, access key or bearer header is left anywhere in the output, and every
      value that follows a key and a separator is exactly the mark. */
  lemma RedactedIsClean(raw: string)
    ensures Clean(Redact(raw))
  {
    PassesUnrolled(raw);
    KeyValueMatchesHeads();
    WholePatternsClosed(CLASSIC_TOKEN);
    WholePatternsClosed(FINE_GRAINED_TOKEN);
    WholePatternsClosed(ACCESS_KEY);
    WholePatternsClosed(BEARER);
    var t1 := ReplaceAll(CLASSIC_TOKEN, raw);
    var t2 := ReplaceAll(FINE_GRAINED_TOKEN, t1);
    var t3 := ReplaceAll(ACCESS_KEY, t2);
    var t4 := ReplaceAll(KEY_VALUE, t3);
    PassCleans(CLASSIC_TOKEN, raw);
    PassPreserves(CLASSIC_TOKEN, FINE_GRAINED_TOKEN, t1);
    PassPreserves(CLASSIC_TOKEN, ACCESS_KEY, t2);
    PassPreserves(CLASSIC_TOKEN, KEY_VALUE, t3);
    PassPreserves(CLASSIC_TOKEN, BEARER, t4);
    PassCleans(FINE_GRAINED_TOKEN, t1);
    PassPreserves(FINE_GRAINED_TOKEN, ACCESS_KEY, t2);
    PassPreserves(FINE_GRAINED_TOKEN, KEY_VALUE, t3);
    PassPreserves(FINE_GRAINED_TOKEN, BEARER, t4);
    PassCleans(ACCESS_KEY, t2);
    PassPreserves(ACCESS_KEY, KEY_VALUE, t3);
    PassPreserves(ACCESS_KEY, BEARER, t4);
    PassSettles(IsHead, KEY_VALUE, [], t3);
    assert [] + t4 == t4 && [] + ReplaceAll(BEARER, t4) == ReplaceAll(BEARER, t4);
    PassKeepsSettled(IsHead, BEARER, [], t4);
    PassCleans(BEARER, t4);
  }

  lemma CleanIsFixed(t: string)
    requires Clean(t)
    ensures Redact(t) == t
  {
    PassesUnrolled(t);
    KeyValueMatchesHeads();
    PassIdle(CLASSIC_TOKEN, t);
    PassIdle(FINE_GRAINED_TOKEN, t);
    PassIdle(ACCESS_KEY, t);
    SettledIsFixed(IsHead, KEY_VALUE, t);
    PassIdle(BEARER, t);
  }

  /** Redacting twice is redacting once, so redacting again before analysis changes nothing. */
  lemma RedactIdempotent(raw: string)
    ensures Redact(Redact(raw)) == Redact(raw)
  {
    RedactedIsClean(raw);
    CleanIsFixed(Redact(raw));
  }
}
