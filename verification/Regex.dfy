/**
A deterministic fragment of regular expressions: sequences of literal words and
character runs, as used by the redaction patterns. `Lang` says which texts a
sequence denotes; `Match` is the greedy left-to-right scan without backtracking.
`GreedyIsLongest` connects the two for sequences in which no run can swallow the
start of the item that follows it.
*/
module Regex {
  import opened Text

  datatype Option<+T> = None | Some(value: T) {
    function Or(default: T): T {
      if Some? then value else default
    }
  }

  datatype Class =
    | OneOf(chars: set<char>)
    | WordChar                    // [A-Za-z0-9_]
    | UpperOrDigit                // [0-9A-Z]
    | Space                       // \s
    | SecretValue                 // [^\s"']
    | BearerChar                  // (?i)[a-z0-9._-]

  predicate IsUpper(c: char) { 'A' <= c <= 'Z' }

  predicate IsLower(c: char) { 'a' <= c <= 'z' }

  predicate IsDigit(c: char) { '0' <= c <= '9' }

  predicate IsBlank(c: char) {
    c == ' ' || c == '\t' || c == '\n' || c == '\r' || c == '\U{000C}'
  }

  predicate In(cls: Class, c: char) {
    match cls
    case OneOf(chars) => c in chars
    case WordChar => IsUpper(c) || IsLower(c) || IsDigit(c) || c == '_'
    case UpperOrDigit => IsUpper(c) || IsDigit(c)
    case Space => IsBlank(c)
    case SecretValue => !IsBlank(c) && c != '\"' && c != '\''
    case BearerChar =>
      IsLower(FoldChar(c)) || IsDigit(c) || c == '.' || c == '_' || c == '-'
  }

  predicate FoldsTo(text: string, lower: string) {
    |text| == |lower| && forall i :: 0 <= i < |text| ==> FoldChar(text[i]) == lower[i]
  }

  /** `Run(cls, lo, hi)` is `cls{lo,hi}`, without upper bound when `hi` is `None`. */
  datatype Item =
    | Word(word: string)
    | FoldWord(lower: string)
    | Run(cls: Class, lo: nat, hi: Option<nat>)

  /** Items in sequence. */
  datatype Rx = End | Next(first: Item, rest: Rx)

  function Append(a: Rx, b: Rx): Rx {
    match a
    case End => b
    case Next(it, rest) => Next(it, Append(rest, b))
  }

  ghost predicate ItemLang(it: Item, w: string) {
    match it
    case Word(word) => w == word
    case FoldWord(lower) => FoldsTo(w, lower)
    case Run(cls, lo, hi) =>
      && lo <= |w|
      && (hi.Some? ==> |w| <= hi.value)
      && forall i :: 0 <= i < |w| ==> In(cls, w[i])
  }

  /** `w` splits at `n` into a member of the first item and one of the others. */
  ghost predicate SplitsAt(r: Rx, w: string, n: nat)
    requires r.Next?
    decreases r, 0
  {
    n <= |w| && ItemLang(r.first, w[..n]) && Lang(r.rest, w[n..])
  }

  ghost predicate Lang(r: Rx, w: string)
    decreases r, 1
  {
    match r
    case End => w == []
    case Next(_, _) => exists n: nat :: SplitsAt(r, w, n)
  }

  /** Length of the longest prefix of `t` in `cls`, cut at `hi`. */
  function Span(cls: Class, t: string, hi: Option<nat>): (n: nat)
    ensures n <= |t| && (hi.Some? ==> n <= hi.value)
    ensures forall i :: 0 <= i < n ==> In(cls, t[i])
    ensures n == |t| || hi == Some(n) || !In(cls, t[n])
  {
    if t == [] || hi == Some(0) || !In(cls, t[0]) then 0
    else 1 + Span(cls, t[1..], if hi.Some? then Some(hi.value - 1) else None)
  }

  function Take(it: Item, t: string): (r: Option<nat>)
    ensures r.Some? ==> r.value <= |t|
  {
    match it
    case Word(word) => if word <= t then Some(|word|) else None
    case FoldWord(lower) =>
      if |lower| <= |t| && FoldsTo(t[..|lower|], lower) then Some(|lower|) else None
    case Run(cls, lo, hi) =>
      var n := Span(cls, t, hi);
      if lo <= n then Some(n) else None
  }

  /** The greedy scan: the length it consumes, if every item is found. */
  function Match(r: Rx, t: string): (n: Option<nat>)
    ensures n.Some? ==> n.value <= |t|
    decreases r
  {
    match r
    case End => Some(0)
    case Next(it, rest) =>
      match Take(it, t)
      case None => None
      case Some(k) =>
        match Match(rest, t[k..])
        case None => None
        case Some(m) => Some(k + m)
  }

  predicate Flexible(it: Item) { it.Run? && it.hi != Some(it.lo) }

  predicate CanStart(it: Item, c: char) {
    match it
    case Word(word) => word != [] && c == word[0]
    case FoldWord(lower) => lower != [] && FoldChar(c) == lower[0]
    case Run(cls, _, _) => In(cls, c)
  }

  predicate NonEmpty(it: Item) {
    match it
    case Word(word) => word != []
    case FoldWord(lower) => lower != []
    case Run(_, lo, _) => lo > 0
  }

  /** A flexible run never competes with what follows it. */
  ghost predicate Separate(a: Item, b: Item) {
    Flexible(a) ==> NonEmpty(b) && forall c :: CanStart(b, c) ==> !In(a.cls, c)
  }

  ghost predicate Deterministic(r: Rx) {
    r.Next? && r.rest.Next? ==> Separate(r.first, r.rest.first) && Deterministic(r.rest)
  }

  lemma SlicePrefix(w: string, k: nat, n: nat)
    requires k <= n <= |w|
    ensures w[..n][..k] == w[..k] && w[..n][k..] == w[k..][..n - k] == w[k..n]
    ensures w[k..][n - k..] == w[n..]
  {
  }

  lemma TakeIsMember(it: Item, t: string)
    requires Take(it, t).Some?
    ensures ItemLang(it, t[..Take(it, t).value])
  {
  }

  lemma EndIsMember(t: string)
    ensures Match(End, t) == Some(0) && Lang(End, t[..0])
  {
  }

  lemma TakeThenMatch(r: Rx, t: string)
    requires r.Next? && Match(r, t).Some?
    ensures Take(r.first, t).Some?
    ensures var n := Take(r.first, t).value;
            Match(r.rest, t[n..]).Some? && Match(r, t).value == n + Match(r.rest, t[n..]).value
  {
    hide Take;
  }

  lemma SplitIsMember(r: Rx, w: string, n: nat)
    requires r.Next? && n <= |w| && ItemLang(r.first, w[..n]) && Lang(r.rest, w[n..])
    ensures Lang(r, w)
  {
    hide ItemLang;
    assert SplitsAt(r, w, n);
  }

  lemma {:induction false} MatchIsMember(r: Rx, t: string)
    requires Match(r, t).Some?
    ensures Lang(r, t[..Match(r, t).value])
  {
    hide *;
    EndIsMember(t);
    if r.Next? {
      TakeThenMatch(r, t);
      var n := Take(r.first, t).value;
      TakeIsMember(r.first, t);
      MatchIsMember(r.rest, t[n..]);
      var m := Match(r.rest, t[n..]).value;
      SlicePrefix(t, n, n + m);
      SplitIsMember(r, t[..n + m], n);
    }
  }

  lemma StartOfMember(r: Rx, w: string)
    requires r.Next? && NonEmpty(r.first) && Lang(r, w)
    ensures w != [] && CanStart(r.first, w[0])
  {
    var n: nat :| SplitsAt(r, w, n);
    assert w[..n] != [];
    assert w[..n][0] == w[0];
  }

  /** The scan finds the longest prefix in the language whenever there is one. */
  lemma {:induction false} GreedyIsLongest(r: Rx, t: string, n: nat)
    requires Deterministic(r) && n <= |t| && Lang(r, t[..n])
    ensures Match(r, t).Some? && n <= Match(r, t).value
  {
    if r.Next? {
      var k: nat :| SplitsAt(r, t[..n], k);
      SlicePrefix(t, k, n);
      if r.first.Run? {
        RunTakesAtLeast(r.first, t, k);
      }
      if r.rest.Next? {
        if Flexible(r.first) {
          StartOfMember(r.rest, t[..n][k..]);
          assert t[..n][k..][0] == t[k];
        }
        assert Take(r.first, t) == Some(k);
        GreedyIsLongest(r.rest, t[k..], n - k);
      } else {
        assert Lang(End, t[..n][k..]);
        assert Match(End, t[Take(r.first, t).value..]) == Some(0);
      }
    }
  }

  lemma RunTakesAtLeast(it: Item, t: string, k: nat)
    requires it.Run? && k <= |t| && ItemLang(it, t[..k])
    ensures Take(it, t).Some? && k <= Take(it, t).value
    ensures !Flexible(it) || (k < |t| && !In(it.cls, t[k])) ==> Take(it, t) == Some(k)
  {
    var n := Span(it.cls, t, it.hi);
    forall i | 0 <= i < k ensures In(it.cls, t[i]) {
      assert t[..k][i] == t[i];
    }
  }

  lemma TakeAlone(it: Item, t: string, m: nat)
    requires Take(it, t).Some? && Take(it, t).value <= m <= |t|
    ensures Take(it, t[..m]) == Take(it, t)
  {
    match it {
      case Word(word) => assert word <= t[..m];
      case FoldWord(lower) => assert t[..m][..|lower|] == t[..|lower|];
      case Run(cls, lo, hi) => SpanAlone(cls, t, hi, m);
    }
  }

  /** Matching looks no further than what it consumes: the matched text matches alone. */
  lemma {:induction false} MatchAlone(r: Rx, t: string, m: nat)
    requires Match(r, t).Some? && Match(r, t).value <= m <= |t|
    ensures Match(r, t[..m]) == Match(r, t)
  {
    if r.Next? {
      var n := Take(r.first, t).value;
      TakeAlone(r.first, t, m);
      SlicePrefix(t, n, m);
      MatchAlone(r.rest, t[n..], m - n);
    }
  }

  lemma {:induction false} SpanAlone(cls: Class, t: string, hi: Option<nat>, m: nat)
    requires Span(cls, t, hi) <= m <= |t|
    ensures Span(cls, t[..m], hi) == Span(cls, t, hi)
  {
    var a, b := Span(cls, t, hi), Span(cls, t[..m], hi);
    forall i | 0 <= i < b ensures In(cls, t[i]) {
      assert t[..m][i] == t[i];
    }
  }

  lemma SliceDrop(t: string, n: nat, k: nat)
    requires n + k <= |t|
    ensures t[n..][k..] == t[n + k..]
  {
  }

  /** What is left of `t` after the scan. */
  function Rest(r: Rx, t: string): Option<string>
    decreases r
  {
    match r
    case End => Some(t)
    case Next(it, rest) =>
      match Take(it, t)
      case None => None
      case Some(k) => Rest(rest, t[k..])
  }

  lemma ScanStep(r: Rx, t: string)
    requires r.Next?
    ensures Take(r.first, t).None? ==> Match(r, t).None? && Rest(r, t).None?
    ensures Take(r.first, t).Some? ==>
              var n := Take(r.first, t).value;
              var m := Match(r.rest, t[n..]);
              && Match(r, t) == (if m.Some? then Some(n + m.value) else None)
              && Rest(r, t) == Rest(r.rest, t[n..])
  {
    hide Take;
  }

  lemma {:induction false} RestIsRest(r: Rx, t: string)
    ensures Rest(r, t) == if Match(r, t).Some? then Some(t[Match(r, t).value..]) else None
    ensures Rest(r, t).Some? ==> Match(r, t) == Some(|t| - |Rest(r, t).value|)
  {
    if r.Next? {
      hide Take, Match, Rest;
      ScanStep(r, t);
      if Take(r.first, t).Some? {
        var n := Take(r.first, t).value;
        RestIsRest(r.rest, t[n..]);
        if Match(r.rest, t[n..]).Some? { SliceDrop(t, n, Match(r.rest, t[n..]).value); }
      }
    }
  }

  lemma RestAppend(a: Rx, b: Rx, t: string)
    ensures Rest(Append(a, b), t) == if Rest(a, t).Some? then Rest(b, Rest(a, t).value) else None
  {
  }

  /** A scan of two parts is a scan of the first, then of the second from where it stopped. */
  lemma MatchAppend(a: Rx, b: Rx, t: string)
    ensures Match(Append(a, b), t) ==
            match Match(a, t)
            case None => None
            case Some(k) =>
              match Match(b, t[k..])
              case None => None
              case Some(m) => Some(k + m)
  {
    hide Match, Rest, Append;
    RestIsRest(Append(a, b), t);
    RestIsRest(a, t);
    RestAppend(a, b, t);
    if Match(a, t).Some? { RestIsRest(b, t[Match(a, t).value..]); }
  }

  /** Concatenated items denote exactly the concatenations of members. */
  lemma {:induction false} LangAppend(a: Rx, b: Rx, x: string, y: string)
    requires Lang(a, x) && Lang(b, y)
    ensures Lang(Append(a, b), x + y)
    decreases a
  {
    match a {
      case End => assert x + y == y;
      case Next(it, rest) =>
        var k: nat :| SplitsAt(a, x, k);
        LangAppend(rest, b, x[k..], y);
        SlicePast(x, y, k);
        assert SplitsAt(Append(a, b), x + y, k);
    }
  }

  lemma SlicePast(x: string, y: string, k: nat)
    requires k <= |x|
    ensures (x + y)[..k] == x[..k] && (x + y)[k..] == x[k..] + y
  {
  }

  lemma {:induction false} LangSplit(a: Rx, b: Rx, w: string) returns (n: nat)
    requires Lang(Append(a, b), w)
    ensures n <= |w| && Lang(a, w[..n]) && Lang(b, w[n..])
  {
    match a {
      case End =>
        assert w[0..] == w;
        n := 0;
      case Next(it, rest) =>
        var k: nat :| SplitsAt(Append(a, b), w, k);
        var m := LangSplit(rest, b, w[k..]);
        n := k + m;
        SlicePrefix(w, k, n);
        assert SplitsAt(a, w[..n], k);
    }
  }

  lemma SingleMember(r: Rx, w: string)
    requires r.Next? && r.rest.End? && Lang(r, w)
    ensures ItemLang(r.first, w)
  {
    var n: nat :| SplitsAt(r, w, n);
    assert Lang(End, w[n..]);
    assert w[..n] == w;
  }

  lemma SingleLang(it: Item, w: string)
    ensures Lang(Next(it, End), w) <==> ItemLang(it, w)
  {
    var r := Next(it, End);
    if Lang(r, w) {
      SingleMember(r, w);
    } else if ItemLang(it, w) {
      assert w[..|w|] == w && w[|w|..] == [];
      assert SplitsAt(r, w, |w|);
    }
  }

  /** No member of the language contains `c`. */
  predicate Avoids(it: Item, c: char) {
    match it
    case Word(word) => c !in word
    case FoldWord(lower) => FoldChar(c) !in lower
    case Run(cls, _, _) => !In(cls, c)
  }

  predicate AllAvoid(r: Rx, c: char) {
    r.Next? ==> Avoids(r.first, c) && AllAvoid(r.rest, c)
  }

  lemma {:induction false} MembersAvoid(r: Rx, w: string, c: char)
    requires Lang(r, w) && AllAvoid(r, c)
    ensures c !in w
  {
    if r.Next? {
      var n: nat :| SplitsAt(r, w, n);
      MembersAvoid(r.rest, w[n..], c);
      assert w == w[..n] + w[n..];
      assert c !in w[..n];
    }
  }

  function MinLen(it: Item): nat {
    match it
    case Word(word) => |word|
    case FoldWord(lower) => |lower|
    case Run(_, lo, _) => lo
  }

  /** Some item alone is longer than `n`. */
  predicate LongerThan(r: Rx, n: nat) {
    r.Next? && (n < MinLen(r.first) || LongerThan(r.rest, n))
  }

  lemma {:induction false} MemberLength(r: Rx, w: string, n: nat)
    requires Lang(r, w) && LongerThan(r, n)
    ensures n < |w|
  {
    var k: nat :| SplitsAt(r, w, k);
    if MinLen(r.first) <= n { MemberLength(r.rest, w[k..], n); }
  }
}
