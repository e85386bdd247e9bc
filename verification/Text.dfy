/** The string routines of the standard library the analyses call. */
module Text {
  /** `unicode.IsSpace`. */
  predicate IsSpace(c: char) {
    || '\U{0009}' <= c <= '\U{000D}' || c == ' ' || c == '\U{0085}' || c == '\U{00A0}' || c == '\U{1680}'
    || '\U{2000}' <= c <= '\U{200A}' || c == '\U{2028}' || c == '\U{2029}' || c == '\U{202F}'
    || c == '\U{205F}' || c == '\U{3000}'
  }

  function TrimLeft(s: string): (r: string)
    ensures r == [] || !IsSpace(r[0])
    ensures |r| <= |s| && r == s[|s| - |r|..] && forall i :: 0 <= i < |s| - |r| ==> IsSpace(s[i])
  {
    if s != [] && IsSpace(s[0]) then TrimLeft(s[1..]) else s
  }

  function TrimRight(s: string): (r: string)
    ensures r == [] || !IsSpace(r[|r| - 1])
    ensures r <= s && forall i :: |r| <= i < |s| ==> IsSpace(s[i])
  {
    if s != [] && IsSpace(s[|s| - 1]) then TrimRight(s[..|s| - 1]) else s
  }

  function TrimSpace(s: string): string { TrimRight(TrimLeft(s)) }

  lemma TrimIdle(s: string)
    requires s != [] && !IsSpace(s[0]) && !IsSpace(s[|s| - 1])
    ensures TrimSpace(s) == s
  {
    assert TrimLeft(s) == s;
  }

  /** Around a character that is no space, the two sides are trimmed separately. */
  lemma TrimAround(a: string, c: char, b: string)
    requires !IsSpace(c)
    ensures TrimSpace(a + [c] + b) == TrimLeft(a) + [c] + TrimRight(b)
  {
    hide IsSpace, TrimLeft, TrimRight;
    TrimLeftOf(a, c, b);
    TrimRightOf(TrimLeft(a), c, b);
  }

  lemma {:induction false} TrimLeftOf(a: string, c: char, b: string)
    requires !IsSpace(c)
    ensures TrimLeft(a + [c] + b) == TrimLeft(a) + [c] + b
  {
    hide IsSpace;
    var s := a + [c] + b;
    if a != "" && IsSpace(a[0]) {
      assert s[1..] == a[1..] + [c] + b;
      TrimLeftOf(a[1..], c, b);
    } else {
      assert s[0] == if a == "" then c else a[0];
    }
  }

  lemma {:induction false} TrimRightOf(a: string, c: char, b: string)
    requires !IsSpace(c)
    ensures TrimRight(a + [c] + b) == a + [c] + TrimRight(b)
  {
    hide IsSpace;
    var s := a + [c] + b;
    var n := |b| - 1;
    if b != "" && IsSpace(b[n]) {
      assert s[..|s| - 1] == a + [c] + b[..n];
      TrimRightOf(a, c, b[..n]);
    } else {
      assert s[|s| - 1] == if b == "" then c else b[n];
    }
  }

  lemma TrimIdleIff(s: string)
    ensures TrimLeft(s) == s <==> s == "" || !IsSpace(s[0])
    ensures TrimRight(s) == s <==> s == "" || !IsSpace(s[|s| - 1])
  {
    hide IsSpace;
  }

  lemma TrimmedBlank(s: string)
    ensures TrimLeft(s) == "" <==> Blank(s)
    ensures TrimRight(s) == "" <==> Blank(s)
  {
    hide IsSpace;
    var l := TrimLeft(s);
    if l != "" {
      var r := TrimRight(l);
      assert l[0] == s[|s| - |l|];
    }
    if TrimRight(s) != "" { assert TrimRight(s)[|TrimRight(s)| - 1] == s[|TrimRight(s)| - 1]; }
  }

  predicate Blank(s: string) { TrimSpace(s) == "" }

  lemma NotBlank(s: string)
    requires s != "" && !IsSpace(s[0])
    ensures !Blank(s)
  {
    assert TrimLeft(s) == s;
  }

  /** Lower case. Besides ASCII, only the dotted capital I and the Kelvin sign have an ASCII lower case. */
  function LowerChar(c: char): char {
    if 'A' <= c <= 'Z' then (c as int + 32) as char
    else if c == '\U{0130}' then 'i'
    else if c == '\U{212A}' then 'k'
    else c
  }

  function ToLower(s: string): (r: string)
    ensures |r| == |s| && forall i :: 0 <= i < |s| ==> r[i] == LowerChar(s[i])
  {
    if s == [] then [] else [LowerChar(s[0])] + ToLower(s[1..])
  }

  /** The representative of a character under simple case folding. */
  function FoldChar(c: char): char {
    if 'A' <= c <= 'Z' then (c as int + 32) as char
    else if c == '\U{017F}' then 's'
    else if c == '\U{212A}' then 'k'
    else c
  }

  predicate EqualFold(a: string, b: string) {
    |a| == |b| && forall i :: 0 <= i < |a| ==> FoldChar(a[i]) == FoldChar(b[i])
  }

  /** Two characters fold alike when they are the same, or one letter in both cases; the long s
      and the Kelvin sign fold to the letters they look like. */
  lemma FoldMeans(c: char, d: char)
    ensures FoldChar(c) == FoldChar(d) <==>
            || c == d
            || ('a' <= c <= 'z' && d as int + 32 == c as int) || ('a' <= d <= 'z' && c as int + 32 == d as int)
            || {c, d} <= {'s', 'S', '\U{017F}'} || {c, d} <= {'k', 'K', '\U{212A}'}
  {
    assert {c, d} <= {'s', 'S', '\U{017F}'} <==> c in {'s', 'S', '\U{017F}'} && d in {'s', 'S', '\U{017F}'};
    assert {c, d} <= {'k', 'K', '\U{212A}'} <==> c in {'k', 'K', '\U{212A}'} && d in {'k', 'K', '\U{212A}'};
  }

  /** Which characters become a given lower-case ASCII letter. */
  lemma LowerMeans(c: char, d: char)
    requires 'a' <= d <= 'z'
    ensures LowerChar(c) == d <==>
            c == d || c as int + 32 == d as int || (d == 'i' && c == '\U{0130}') || (d == 'k' && c == '\U{212A}')
  {
  }

  /** The white space within ASCII. */
  lemma AsciiSpaces(c: char)
    requires c < '\U{0080}'
    ensures IsSpace(c) <==> c in {' ', '\t', '\n', '\r', '\U{000B}', '\U{000C}'}
  {
  }
}
