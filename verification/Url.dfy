/**
The part of URL handling the locators rely on: splitting a reference into authority and
path as in section 3 of RFC 3986, percent-decoding of the path, and lexical cleaning of
slash-separated paths. How an authority yields a host is the parameter `hostOf`.
*/
module Url {
  import opened Regex

  type HostParser = string -> Option<string>

  datatype Url = Url(host: string, path: string)

  function IndexOf(s: string, c: char): (i: nat)
    ensures i <= |s| && (forall k :: 0 <= k < i ==> s[k] != c) && (i < |s| ==> s[i] == c)
  {
    if s == [] || s[0] == c then 0 else 1 + IndexOf(s[1..], c)
  }

  lemma IndexIn(s: string, c: char)
    ensures IndexOf(s, c) < |s| <==> c in s
  {
  }

  lemma IndexOfAppend(a: string, b: string, c: char)
    ensures c in a ==> IndexOf(a + b, c) == IndexOf(a, c)
    ensures c !in a ==> IndexOf(a + b, c) == |a| + IndexOf(b, c)
  {
    hide IndexOf;
    var i, j, l := IndexOf(a + b, c), IndexOf(a, c), IndexOf(b, c);
    IndexIn(a, c);
    if c in a {
      assert (a + b)[j] == c;
    } else {
      assert forall k :: 0 <= k < |a| ==> (a + b)[k] == a[k] && a[k] in a;
      assert forall k :: 0 <= k < l ==> (a + b)[|a| + k] == b[k];
      assert l < |b| ==> (a + b)[|a| + l] == b[l];
    }
  }

  predicate IsControl(c: char) { c < ' ' || c == '\U{007F}' }

  predicate HasControl(s: string) { exists i :: 0 <= i < |s| && IsControl(s[i]) }

  // ----- Percent-decoding -----

  predicate IsHex(c: char) { IsDigit(c) || 'a' <= c <= 'f' || 'A' <= c <= 'F' }

  function HexValue(c: char): (v: nat)
    requires IsHex(c)
    ensures v < 16
  {
    if IsDigit(c) then c as int - '0' as int
    else if c >= 'a' then c as int - 'a' as int + 10
    else c as int - 'A' as int + 10
  }

  /** Decoding fails on an incomplete escape. */
  function Decode(s: string): (r: Option<string>)
    ensures r.Some? ==> |r.value| <= |s|
  {
    if s == [] then Some("")
    else if s[0] != '%' then
      var rest := Decode(s[1..]);
      if rest.Some? then Some([s[0]] + rest.value) else None
    else if |s| >= 3 && IsHex(s[1]) && IsHex(s[2]) then
      var rest := Decode(s[3..]);
      if rest.Some? then Some([(16 * HexValue(s[1]) + HexValue(s[2])) as char] + rest.value) else None
    else None
  }

  lemma {:induction false} DecodePlain(s: string)
    requires '%' !in s
    ensures Decode(s) == Some(s)
  {
    if s != [] {
      DecodePlain(s[1..]);
      assert [s[0]] + s[1..] == s;
    }
  }

  /** Every escape makes the text shorter. */
  lemma {:induction false} DecodeShrinks(s: string)
    requires '%' in s && Decode(s).Some?
    ensures |Decode(s).value| < |s|
  {
    if s[0] != '%' { DecodeShrinks(s[1..]); }
  }

  lemma {:induction false} DecodeAppend(a: string, b: string)
    requires Decode(a).Some?
    ensures Decode(a + b) == if Decode(b).Some? then Some(Decode(a).value + Decode(b).value) else None
    decreases |a|
  {
    if a == [] {
      assert a + b == b;
      if Decode(b).Some? { assert "" + Decode(b).value == Decode(b).value; }
    } else {
      var n := if a[0] != '%' then 1 else 3;
      assert (a + b)[n..] == a[n..] + b;
      DecodeAppend(a[n..], b);
      var head := if a[0] != '%' then a[0] else (16 * HexValue(a[1]) + HexValue(a[2])) as char;
      assert a[0] == '%' ==> (a + b)[1] == a[1] && (a + b)[2] == a[2];
      if Decode(b).Some? {
        assert [head] + (Decode(a[n..]).value + Decode(b).value) == ([head] + Decode(a[n..]).value) + Decode(b).value;
      }
    }
  }

  // ----- Splitting a reference -----

  /** The end of the scheme: the position of its colon, or `None` without a scheme. */
  function SchemeEnd(s: string, i: nat): (r: Option<nat>)
    requires i <= |s|
    ensures r.Some? ==> i <= r.value < |s| && s[r.value] == ':'
    decreases |s| - i
  {
    if i == |s| then None
    else if 'a' <= s[i] <= 'z' || 'A' <= s[i] <= 'Z' then SchemeEnd(s, i + 1)
    else if IsDigit(s[i]) || s[i] in {'+', '-', '.'} then (if i == 0 then None else SchemeEnd(s, i + 1))
    else if s[i] == ':' then Some(i)
    else None
  }

  function Before(s: string, c: char): string { s[..IndexOf(s, c)] }

  /** `url.Parse`, keeping host and path. */
  function Parse(hostOf: HostParser, raw: string): Option<Url> {
    var u := Before(raw, '#');
    var fragment := if |u| < |raw| then raw[|u| + 1..] else "";
    match ParseReference(hostOf, u)
    case None => None
    case Some(url) => if Decode(fragment).None? then None else Some(url)
  }

  function ParseReference(hostOf: HostParser, u: string): Option<Url> {
    if HasControl(u) then None
    else if u == "*" then Some(Url("", "*"))
    else
      var colon := SchemeEnd(u, 0);
      if colon == Some(0) then None
      else
        var scheme := colon.Some?;
        var rest := Before(if scheme then u[colon.value + 1..] else u, '?');
        ParseHierarchy(hostOf, scheme, rest)
  }

  /** What follows the scheme, without the query. */
  function ParseHierarchy(hostOf: HostParser, scheme: bool, rest: string): Option<Url> {
    if !("/" <= rest) && scheme then Some(Url("", ""))
    else if !("/" <= rest) && ':' in Before(rest, '/') then None
    else if "//" <= rest && (scheme || !("///" <= rest)) then ParseAuthority(hostOf, rest[2..])
    else WithPath("", rest)
  }

  function ParseAuthority(hostOf: HostParser, a: string): Option<Url> {
    var slash := IndexOf(a, '/');
    match hostOf(a[..slash])
    case None => None
    case Some(host) => WithPath(host, a[slash..])
  }

  function WithPath(host: string, path: string): Option<Url> {
    match Decode(path)
    case None => None
    case Some(p) => Some(Url(host, p))
  }

  // ----- Paths -----

  function Split(s: string): (r: seq<string>)
    ensures r != [] && forall i :: 0 <= i < |r| ==> '/' !in r[i]
    decreases |s|
  {
    var i := IndexOf(s, '/');
    IndexIn(s, '/');
    if i == |s| then [s] else [s[..i]] + Split(s[i + 1..])
  }

  function Join(parts: seq<string>): string {
    if parts == [] then "" else if |parts| == 1 then parts[0] else parts[0] + "/" + Join(parts[1..])
  }

  lemma SplitStep(s: string, i: nat)
    requires i < |s| && i == IndexOf(s, '/')
    ensures Split(s) == [s[..i]] + Split(s[i + 1..])
  {
    hide IndexOf;
  }

  lemma SplitWhole(s: string)
    requires '/' !in s
    ensures Split(s) == [s]
  {
    IndexIn(s, '/');
  }

  lemma {:induction false} JoinSplit(s: string)
    ensures Join(Split(s)) == s
    decreases |s|
  {
    hide Split, IndexOf;
    var i := IndexOf(s, '/');
    IndexIn(s, '/');
    if i < |s| {
      SplitStep(s, i);
      JoinSplit(s[i + 1..]);
      assert s == s[..i] + "/" + s[i + 1..];
    } else {
      SplitWhole(s);
    }
  }

  lemma {:induction false} SplitAppend(a: string, b: string)
    ensures Split(a + "/" + b) == Split(a) + Split(b)
    decreases |a|
  {
    hide Split, IndexOf;
    var s := a + "/" + b;
    var i := IndexOf(a, '/');
    assert s == a + ("/" + b);
    IndexOfAppend(a, "/" + b, '/');
    IndexIn(a, '/');
    if i < |a| {
      SplitStep(a, i);
      SplitStep(s, i);
      assert s[..i] == a[..i] && s[i + 1..] == a[i + 1..] + "/" + b;
      SplitAppend(a[i + 1..], b);
    } else {
      SplitWhole(a);
      assert ("/" + b)[0] == '/';
      SplitStep(s, |a|);
      assert s[..|a|] == a && s[|a| + 1..] == b;
    }
  }

  predicate NoSlash(parts: seq<string>) { forall i :: 0 <= i < |parts| ==> '/' !in parts[i] }

  lemma {:induction false} SplitJoin(parts: seq<string>)
    requires parts != [] && NoSlash(parts)
    ensures Split(Join(parts)) == parts
  {
    var p := parts[0];
    SplitWhole(p);
    hide Split;
    if |parts| > 1 {
      SplitJoin(parts[1..]);
      SplitAppend(p, Join(parts[1..]));
      assert [p] + parts[1..] == parts;
    }
  }

  /** A segment that cleaning keeps. */
  predicate Plain(s: string) { s != "" && s != "." && s != ".." }

  predicate AllPlain(parts: seq<string>) { forall i :: 0 <= i < |parts| ==> Plain(parts[i]) }

  /** Dot segments resolved from left to right; above the root there is only the root. */
  function Resolve(parts: seq<string>, stack: seq<string>, rooted: bool): seq<string> {
    if parts == [] then stack
    else
      var p := parts[0];
      var next :=
        if p == "" || p == "." then stack
        else if p == ".." then
          if stack != [] && stack[|stack| - 1] != ".." then stack[..|stack| - 1]
          else if rooted then stack
          else stack + [".."]
        else stack + [p];
      Resolve(parts[1..], next, rooted)
  }

  /** `path.Clean`. */
  function Clean(path: string): string {
    if path == "" then "."
    else
      var rooted := path[0] == '/';
      var stack := Resolve(Split(path), [], rooted);
      if rooted then "/" + Join(stack) else if stack == [] then "." else Join(stack)
  }

  function TrimSlashes(s: string): string {
    if s != [] && s[0] == '/' then TrimSlashes(s[1..])
    else if s != [] && s[|s| - 1] == '/' then TrimSlashes(s[..|s| - 1])
    else s
  }

  lemma {:induction false} ResolveAppend(a: seq<string>, b: seq<string>, stack: seq<string>, rooted: bool)
    ensures Resolve(a + b, stack, rooted) == Resolve(b, Resolve(a, stack, rooted), rooted)
    decreases |a|
  {
    if a == [] {
      assert a + b == b;
    } else {
      assert (a + b)[1..] == a[1..] + b && (a + b)[0] == a[0];
      var p := a[0];
      var next :=
        if p == "" || p == "." then stack
        else if p == ".." then
          if stack != [] && stack[|stack| - 1] != ".." then stack[..|stack| - 1]
          else if rooted then stack
          else stack + [".."]
        else stack + [p];
      ResolveAppend(a[1..], b, next, rooted);
    }
  }

  lemma {:induction false} ResolvePlain(parts: seq<string>, stack: seq<string>, rooted: bool)
    requires AllPlain(parts)
    ensures Resolve(parts, stack, rooted) == stack + parts
    decreases |parts|
  {
    if parts == [] {
      assert stack + parts == stack;
    } else {
      ResolvePlain(parts[1..], stack + [parts[0]], rooted);
      assert stack + [parts[0]] + parts[1..] == stack + parts;
    }
  }

  /** From the root, cleaning leaves only plain segments. */
  lemma {:induction false} ResolvedIsPlain(parts: seq<string>, stack: seq<string>)
    requires AllPlain(stack) && NoSlash(stack) && NoSlash(parts)
    ensures AllPlain(Resolve(parts, stack, true)) && NoSlash(Resolve(parts, stack, true))
    decreases |parts|
  {
    if parts != [] {
      var p := parts[0];
      var next :=
        if p == "" || p == "." then stack
        else if p == ".." then (if stack != [] && stack[|stack| - 1] != ".." then stack[..|stack| - 1] else stack)
        else stack + [p];
      ResolvedIsPlain(parts[1..], next);
    }
  }

  lemma {:induction false} JoinEnds(parts: seq<string>)
    requires parts != [] && AllPlain(parts) && NoSlash(parts)
    ensures var j := Join(parts); j != "" && j[0] != '/' && j[|j| - 1] != '/'
  {
    assert parts[0][0] in parts[0] && parts[0][|parts[0]| - 1] in parts[0];
    if |parts| > 1 { JoinEnds(parts[1..]); }
  }

  /** The segments of a cleaned absolute path. */
  lemma CleanSegments(path: string)
    requires path != "" && path[0] == '/'
    ensures var stack := Resolve(Split(path), [], true);
            && AllPlain(stack) && NoSlash(stack)
            && TrimSlashes(Clean(path)) == Join(stack)
            && (stack != [] ==> Split(TrimSlashes(Clean(path))) == stack)
            && (stack == [] ==> Split(TrimSlashes(Clean(path))) == [""])
  {
    hide Split, Resolve;
    var stack := Resolve(Split(path), [], true);
    ResolvedIsPlain(Split(path), []);
    SplitWhole("");
    var c := "/" + Join(stack);
    assert c[1..] == Join(stack);
    if stack != [] {
      JoinEnds(stack);
      SplitJoin(stack);
    }
  }

  function TotalLength(parts: seq<string>): nat {
    if parts == [] then 0 else |parts[0]| + 1 + TotalLength(parts[1..])
  }

  lemma {:induction false} SplitLength(s: string)
    ensures TotalLength(Split(s)) == |s| + 1
    decreases |s|
  {
    var i := IndexOf(s, '/');
    if i < |s| {
      SplitLength(s[i + 1..]);
      assert ([s[..i]] + Split(s[i + 1..]))[1..] == Split(s[i + 1..]);
    }
  }

  lemma {:induction false} TotalLengthAppend(a: seq<string>, b: seq<string>)
    ensures TotalLength(a + b) == TotalLength(a) + TotalLength(b)
  {
    if a == [] {
      assert a + b == b;
    } else {
      assert (a + b)[1..] == a[1..] + b;
      TotalLengthAppend(a[1..], b);
    }
  }

  /** Cleaning from the root never makes segments longer. */
  lemma {:induction false} ResolveShrinks(parts: seq<string>, stack: seq<string>)
    ensures TotalLength(Resolve(parts, stack, true)) <= TotalLength(stack) + TotalLength(parts)
    decreases |parts|
  {
    if parts != [] {
      var p := parts[0];
      if p == "" || p == "." {
        ResolveShrinks(parts[1..], stack);
      } else if p == ".." {
        if stack != [] && stack[|stack| - 1] != ".." {
          var n := |stack| - 1;
          TotalLengthAppend(stack[..n], [stack[n]]);
          assert stack == stack[..n] + [stack[n]];
          ResolveShrinks(parts[1..], stack[..n]);
        } else {
          ResolveShrinks(parts[1..], stack);
        }
      } else {
        TotalLengthAppend(stack, [p]);
        ResolveShrinks(parts[1..], stack + [p]);
      }
    }
  }
}
