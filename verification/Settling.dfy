/**
The masking of values that follow a head (a key and its separator), for any notion
of head: after the pass every such value is exactly the mark, and later passes of
closed patterns leave it so.
*/
module Settling {
  import opened Regex
  import opened Redaction

  predicate IsMark(c: char) { c == ':' || c == '=' }

  /** A head of length `n` at `i`, followed by a value. */
  ghost predicate HeadAt(head: string -> bool, t: string, i: nat, n: nat) {
    i + n < |t| && head(t[i..i + n]) && In(SecretValue, t[i + n])
  }

  /** The whole value at `v` is the redaction mark. */
  predicate MaskedAt(t: string, v: nat) {
    && v + |MARK| <= |t| && t[v..v + |MARK|] == MARK
    && (v + |MARK| == |t| || !In(SecretValue, t[v + |MARK|]))
  }

  ghost predicate Settled(head: string -> bool, t: string) {
    forall i: nat, n: nat :: HeadAt(head, t, i, n) ==> MaskedAt(t, i + n)
  }

  ghost predicate HasMark(w: string) {
    exists c :: 0 <= c < |w| && IsMark(w[c])
  }

  ghost predicate HeadLike(head: string -> bool, w: string) {
    head(w) ==> w != [] && In(SecretValue, w[0]) && '[' !in w && ']' !in w && HasMark(w)
  }

  ghost predicate NoneInside(head: string -> bool, t: string, i: nat, n: nat, j: nat, m: nat) {
    i < j && j + m <= i + n <= |t| && head(t[i..i + n]) ==> !head(t[j..j + m])
  }

  ghost predicate HeadTheory(head: string -> bool) {
    && (forall w: string :: HeadLike(head, w))
    && (forall t: string, i: nat, n: nat, j: nat, m: nat :: NoneInside(head, t, i, n, j, m))
  }

  /** At the start of `t`, `p` matches a head and all of its value. */
  ghost predicate MatchesHeadIn(head: string -> bool, p: Pattern, t: string) {
    && (MatchHere(p, t).Some? ==>
          var h := MatchHere(p, t).value;
          && HeadAt(head, t, 0, h.kept) && h.kept < h.total <= |t|
          && (forall j :: h.kept <= j < h.total ==> In(SecretValue, t[j]))
          && (h.total == |t| || !In(SecretValue, t[h.total])))
    && (forall n: nat :: HeadAt(head, t, 0, n) ==> MatchHere(p, t).Some? && MatchHere(p, t).value.kept == n)
  }

  ghost predicate MatchesHeads(head: string -> bool, p: Pattern) {
    && WellFormed(p) && HeadTheory(head)
    && forall t: string :: MatchesHeadIn(head, p, t)
  }

  /** A head does not reach into a mark: it ends before it or starts after it. */
  lemma HeadBesideMark(head: string -> bool, x: string, y: string, i: nat, n: nat)
    requires HeadTheory(head)
    requires i + n <= |x + MARK + y| && head((x + MARK + y)[i..i + n])
    ensures i + n <= |x| || |x| + |MARK| <= i
  {
    var t := x + MARK + y;
    var w := t[i..i + n];
    assert HeadLike(head, w);
    SliceAvoids(t, i, i + n, '[');
    SliceAvoids(t, i, i + n, ']');
    assert forall j :: |x| <= j < |x| + |MARK| ==> t[j] == MARK[j - |x|];
    assert t[|x|] == '[' && t[|x| + |MARK| - 1] == ']';
    assert forall j :: 0 <= j < |MARK| ==> !IsMark(MARK[j]);
    var c :| 0 <= c < |w| && IsMark(w[c]);
    assert w[c] == t[i + c];
  }

  ghost predicate NoHeads(head: string -> bool, gap: string, t: string) {
    forall i: nat, n: nat :: i < |gap| ==> !HeadAt(head, gap + t, i, n)
  }

  /** Heads of `t` and heads of `gap + t` past the gap are the same. */
  lemma HeadPastGap(head: string -> bool, gap: string, t: string, i: nat, n: nat)
    requires |gap| <= i
    ensures HeadAt(head, gap + t, i, n) <==> HeadAt(head, t, i - |gap|, n)
  {
    var s := gap + t;
    if i + n < |s| {
      assert s[i..i + n] == t[i - |gap|..i - |gap| + n] && s[i + n] == t[i + n - |gap|];
    }
  }

  lemma MissIsNoHead(head: string -> bool, p: Pattern, gap: string, t: string)
    requires MatchesHeads(head, p) && t != [] && NoHeads(head, gap, t) && MatchHere(p, t).None?
    ensures NoHeads(head, gap + [t[0]], t[1..])
  {
    assert (gap + [t[0]]) + t[1..] == gap + t;
    assert MatchesHeadIn(head, p, t);
    forall i: nat, n: nat | i < |gap| + 1 ensures !HeadAt(head, gap + t, i, n) {
      if i == |gap| { HeadPastGap(head, gap, t, i, n); }
    }
  }

  lemma HeadStartsInValue(head: string -> bool, t: string, n: nat)
    requires HeadTheory(head) && HeadAt(head, t, 0, n)
    ensures In(SecretValue, t[0])
  {
    assert HeadLike(head, t[0..0 + n]);
  }

  lemma StopsBeforeKey(head: string -> bool, p: Pattern, t: string)
    requires MatchesHeads(head, p) && t != [] && !In(SecretValue, t[0])
    ensures var z := ReplaceAll(p, t); z != [] && z[0] == t[0]
  {
    assert MatchesHeadIn(head, p, t);
    if MatchHere(p, t).Some? {
      HeadStartsInValue(head, t, MatchHere(p, t).value.kept);
    }
  }

  lemma MaskedLater(x: string, z: string, v: nat)
    ensures MaskedAt(z, v) <==> MaskedAt(x + z, |x| + v)
  {
    if v + |MARK| <= |z| {
      assert (x + z)[|x| + v..|x| + v + |MARK|] == z[v..v + |MARK|];
    }
  }

  lemma MaskedHere(x: string, z: string)
    requires z == [] || !In(SecretValue, z[0])
    ensures MaskedAt(x + MARK + z, |x|)
  {
    assert (x + MARK + z)[|x|..|x| + |MARK|] == MARK;
  }

  /** A head in front of the mark that replaced `secret` was one in the original text. */
  lemma HeadBefore(head: string -> bool, x: string, secret: string, rest: string, z: string, i: nat, n: nat)
    requires HeadAt(head, x + MARK + z, i, n) && i + n <= |x|
    requires secret != [] && In(SecretValue, secret[0])
    ensures HeadAt(head, x + secret + rest, i, n)
  {
    var s', s := x + MARK + z, x + secret + rest;
    assert s'[i..i + n] == x[i..i + n] == s[i..i + n];
    assert i + n < |x| ==> s'[i + n] == x[i + n] == s[i + n];
    assert i + n == |x| ==> s[i + n] == secret[0];
  }

  /** A head found where `p` matched, or after, up to where its value starts, is the matched one. */
  lemma HeadWhereMatched(head: string -> bool, p: Pattern, gap: string, t: string, h: Hit, i: nat, n: nat)
    requires MatchesHeads(head, p) && MatchHere(p, t) == Some(h)
    requires HeadAt(head, gap + t, i, n) && |gap| <= i && i + n <= |gap| + h.kept
    ensures i == |gap| && n == h.kept
  {
    hide MatchHere;
    assert MatchesHeadIn(head, p, t);
    HeadPastGap(head, gap, t, i, n);
    assert NoneInside(head, t, 0, h.kept, i - |gap|, n);
  }

  /** The heads of `gap + kept + MARK + z` are the one just masked and those of `z`. */
  lemma {:induction false} HeadsAfterHit(head: string -> bool, p: Pattern, gap: string, t: string, h: Hit, z: string)
    requires MatchesHeads(head, p) && MatchHere(p, t) == Some(h) && NoHeads(head, gap, t)
    requires Settled(head, z) && (z == [] || !In(SecretValue, z[0]))
    ensures Settled(head, gap + t[..h.kept] + MARK + z)
  {
    var x := gap + t[..h.kept];
    forall i: nat, n: nat | HeadAt(head, x + MARK + z, i, n) ensures MaskedAt(x + MARK + z, i + n) {
      HeadBesideMark(head, x, z, i, n);
      if i + n <= |x| {
        HeadInFrontIsMatched(head, p, gap, t, h, z, i, n);
        MaskedHere(x, z);
      } else {
        HeadAfterMark(head, x, z, i, n);
      }
    }
  }

  lemma HeadInFrontIsMatched(head: string -> bool, p: Pattern, gap: string, t: string, h: Hit, z: string, i: nat, n: nat)
    requires MatchesHeads(head, p) && MatchHere(p, t) == Some(h) && NoHeads(head, gap, t)
    requires HeadAt(head, gap + t[..h.kept] + MARK + z, i, n) && i + n <= |gap| + h.kept
    ensures i == |gap| && n == h.kept
  {
    var x, secret, rest := gap + t[..h.kept], t[h.kept..h.total], t[h.total..];
    assert MatchesHeadIn(head, p, t);
    Reassembled(gap, t, h);
    HeadBefore(head, x, secret, rest, z, i, n);
    HeadWhereMatched(head, p, gap, t, h, i, n);
  }

  lemma Reassembled(gap: string, t: string, h: Hit)
    requires h.kept < h.total <= |t|
    ensures (gap + t[..h.kept]) + t[h.kept..h.total] + t[h.total..] == gap + t
    ensures t[h.kept..h.total][0] == t[h.kept]
  {
  }

  lemma HeadAfterMark(head: string -> bool, x: string, z: string, i: nat, n: nat)
    requires Settled(head, z) && HeadAt(head, x + MARK + z, i, n) && |x| + |MARK| <= i
    ensures MaskedAt(x + MARK + z, i + n)
  {
    assert x + MARK + z == (x + MARK) + z;
    HeadPastGap(head, x + MARK, z, i, n);
    MaskedLater(x + MARK, z, i + n - |x + MARK|);
  }

  /** The pass masks the value of every head, and leaves no other head before a value. */
  lemma {:induction false} PassSettles(head: string -> bool, p: Pattern, gap: string, t: string)
    requires MatchesHeads(head, p) && NoHeads(head, gap, t)
    ensures Settled(head, gap + ReplaceAll(p, t))
    decreases |t|
  {
    if t == [] {
      assert gap + ReplaceAll(p, t) == gap == gap + t;
    } else {
      match MatchHere(p, t) {
        case Some(h) =>
          ReplaceAtHit(p, gap, t);
          var rest := t[h.total..];
          assert MatchesHeadIn(head, p, t);
          PassSettles(head, p, [], rest);
          assert [] + ReplaceAll(p, rest) == ReplaceAll(p, rest);
          if rest != [] { StopsBeforeKey(head, p, rest); }
          HeadsAfterHit(head, p, gap, t, h, ReplaceAll(p, rest));
        case None =>
          ReplaceAtMiss(p, gap, t);
          MissIsNoHead(head, p, gap, t);
          PassSettles(head, p, gap + [t[0]], t[1..]);
      }
    }
  }

  lemma MaskEndsValue(t: string, h: Hit)
    requires MaskedAt(t, h.kept) && h.kept < h.total <= |t|
    requires forall j :: h.kept <= j < h.total ==> In(SecretValue, t[j])
    requires h.total == |t| || !In(SecretValue, t[h.total])
    ensures t[h.kept..h.total] == MARK
  {
    var e := h.kept + |MARK|;
    forall j | h.kept <= j < e ensures In(SecretValue, t[j]) {
      assert t[j] == t[h.kept..e][j - h.kept] == MARK[j - h.kept];
    }
    assert h.total == e;
  }

  lemma SettledSuffix(head: string -> bool, x: string, z: string)
    requires Settled(head, x + z)
    ensures Settled(head, z)
  {
    forall i: nat, n: nat | HeadAt(head, z, i, n) ensures MaskedAt(z, i + n) {
      HeadPastGap(head, x, z, |x| + i, n);
      MaskedLater(x, z, i + n);
    }
  }

  lemma GlueFixed(t: string, h: Hit, out: string, rest: string)
    requires h.kept <= h.total <= |t| && t[h.kept..h.total] == MARK
    requires out == t[..h.kept] + MARK + rest && rest == t[h.total..]
    ensures out == t
  {
  }

  /** On a settled text the pass rewrites every value to itself. */
  lemma {:induction false} SettledIsFixed(head: string -> bool, p: Pattern, t: string)
    requires MatchesHeads(head, p) && Settled(head, t)
    ensures ReplaceAll(p, t) == t
    decreases |t|
  {
    if t != [] {
      hide MatchHere, HeadTheory;
      match MatchHere(p, t) {
        case Some(h) =>
          ReplaceUnfolded(p, t);
          assert MatchesHeadIn(head, p, t);
          assert MaskedAt(t, 0 + h.kept);
          MaskEndsValue(t, h);
          assert t == t[..h.total] + t[h.total..];
          SettledSuffix(head, t[..h.total], t[h.total..]);
          SettledIsFixed(head, p, t[h.total..]);
          GlueFixed(t, h, ReplaceAll(p, t), ReplaceAll(p, t[h.total..]));
        case None =>
          assert t == [t[0]] + t[1..];
          SettledSuffix(head, [t[0]], t[1..]);
          SettledIsFixed(head, p, t[1..]);
      }
    }
  }

  /** Masking a bracket-free secret that itself could be a value keeps a text settled. */
  lemma MaskingKeepsSettled(head: string -> bool, x: string, secret: string, rest: string, z: string)
    requires HeadTheory(head) && Settled(head, x + secret + rest) && Settled(head, z)
    requires |MARK| < |secret| && In(SecretValue, secret[0]) && '[' !in secret && ']' !in secret
    ensures Settled(head, x + MARK + z)
  {
    var s, s' := x + secret + rest, x + MARK + z;
    forall i: nat, n: nat | HeadAt(head, s', i, n) ensures MaskedAt(s', i + n) {
      HeadBesideMark(head, x, z, i, n);
      if i + n <= |x| {
        HeadBefore(head, x, secret, rest, z, i, n);
        MarkBeforeSecret(x, secret, rest, z, i + n);
      } else {
        HeadAfterMark(head, x, z, i, n);
      }
    }
  }

  lemma MarkBeforeSecret(x: string, secret: string, rest: string, z: string, v: nat)
    requires MaskedAt(x + secret + rest, v) && v <= |x|
    requires |MARK| < |secret| && In(SecretValue, secret[0]) && '[' !in secret && ']' !in secret
    ensures MaskedAt(x + MARK + z, v)
  {
    var s, s' := x + secret + rest, x + MARK + z;
    var e := v + |MARK|;
    assert s[v..e][0] == s[v] && s[v..e][|MARK| - 1] == s[e - 1];
    assert forall j :: |x| <= j < |x| + |secret| ==> s[j] == secret[j - |x|];
    assert e < |x|;
    assert s[v..e] == x[v..e] == s'[v..e];
    assert s[e] == x[e] == s'[e];
  }

  /** A later pass of a closed pattern keeps the text settled. */
  lemma {:induction false} PassKeepsSettled(head: string -> bool, p: Pattern, gap: string, t: string)
    requires HeadTheory(head) && WellFormed(p) && Closed(p) && StartsInValue(p)
    requires Settled(head, gap + t)
    ensures Settled(head, gap + ReplaceAll(p, t))
    decreases |t|
  {
    if t != [] {
      match MatchHere(p, t) {
        case Some(h) =>
          ReplaceAtHit(p, gap, t);
          var rest := t[h.total..];
          ClosedHit(p, t);
          assert gap + t[..0] == gap && gap + t == (gap + t[..h.total]) + rest == gap + t[..h.total] + rest;
          SettledSuffix(head, gap + t[..h.total], rest);
          assert [] + rest == rest && [] + ReplaceAll(p, rest) == ReplaceAll(p, rest);
          PassKeepsSettled(head, p, [], rest);
          MaskingKeepsSettled(head, gap, t[..h.total], rest, ReplaceAll(p, rest));
        case None =>
          ReplaceAtMiss(p, gap, t);
          PassKeepsSettled(head, p, gap + [t[0]], t[1..]);
      }
    }
  }

  ghost predicate StartsInValue(p: Pattern) {
    forall a :: a in p ==>
      a.masked.Next? && NonEmpty(a.masked.first) && forall c :: CanStart(a.masked.first, c) ==> In(SecretValue, c)
  }

  lemma ClosedHit(p: Pattern, t: string)
    requires Closed(p) && StartsInValue(p) && MatchHere(p, t).Some?
    ensures var h := MatchHere(p, t).value;
            && h.kept == 0 && |MARK| < h.total <= |t|
            && In(SecretValue, t[..h.total][0]) && '[' !in t[..h.total] && ']' !in t[..h.total]
  {
    var a := HereIsMember(p, t);
    var w := t[..MatchHere(p, t).value.total];
    assert a.All() == a.masked && Denotes(p, w);
    ClosedMember(p, w);
    StartOfMember(a.masked, w);
  }
}
