/**
Canonicalisation of run URLs, exactly, and the round trip of check-run URLs below any
configured API base.
*/
module LocatorLaws {
  import opened Regex
  import opened Text
  import opened Int64
  import opened Decimal
  import opened Url
  import opened Locator

  // ----- What an accepted URL looks like -----

  /** A URL with a host has an empty or absolute path. */
  lemma HostedPath(hostOf: HostParser, raw: string)
    requires Parse(hostOf, raw).Some? && Parse(hostOf, raw).value.host != ""
    ensures var p := Parse(hostOf, raw).value.path; p == "" || p[0] == '/'
  {
    hide HasControl, SchemeEnd;
  }

  lemma AcceptedNames(hostOf: HostParser, raw: string)
    requires ParseRunURL(hostOf, raw).Ok?
    ensures var l := ParseRunURL(hostOf, raw).value;
            && Plain(l.owner) && Plain(l.repo) && '/' !in l.owner && '/' !in l.repo && Fits(l.runId)
            && l.runUrl == RunUrlOf(l.owner, l.repo, l.runId)
  {
    hide Parse, Split, Clean, TrimSlashes, Plain, RunUrlOf, TrimSpace;
    var u := Parse(hostOf, TrimSpace(raw)).value;
    assert u.host != "";
    HostedPath(hostOf, TrimSpace(raw));
    DotPath();
    CleanSegments(u.path);
  }

  lemma DotPath()
    ensures |Split(TrimSlashes(Clean("")))| == 1
  {
  }

  // ----- Canonical URLs -----

  /** Five segments that name the run take up at least the length of its canonical path. */
  lemma SegmentsAreLong(stack: seq<string>, owner: string, repo: string, runId: int)
    requires |stack| >= 5 && stack[0] == owner && stack[1] == repo && stack[2] == "actions" && stack[3] == "runs"
    requires ParseInt(stack[4]) == Some(runId)
    ensures |PathOf(owner, repo, runId)| <= TotalLength(stack)
  {
    hide *;
    PrintedIsShortest(stack[4], runId);
    assert stack == [stack[0], stack[1], stack[2], stack[3], stack[4]] + stack[5..];
    TotalLengthAppend([stack[0], stack[1], stack[2], stack[3], stack[4]], stack[5..]);
    LengthOfFive(stack[0], stack[1], stack[2], stack[3], stack[4]);
    PathLength(owner, repo, runId);
  }

  lemma LengthOfFive(a: string, b: string, c: string, d: string, e: string)
    ensures TotalLength([a, b, c, d, e]) == |a| + |b| + |c| + |d| + |e| + 5
  {
    var five := [a, b, c, d, e];
    assert five[1..] == [b, c, d, e] && five[1..][1..] == [c, d, e];
    assert five[1..][1..][1..] == [d, e] && five[1..][1..][1..][1..] == [e] && [e][1..] == [];
    assert TotalLength([e]) == |e| + 1;
    assert TotalLength(five[1..][1..][1..]) == |d| + 1 + TotalLength([e]);
    assert TotalLength(five[1..][1..]) == |c| + 1 + TotalLength(five[1..][1..][1..]);
  }

  lemma PathLength(owner: string, repo: string, runId: int)
    ensures |PathOf(owner, repo, runId)| == |owner| + |repo| + |Print(runId)| + 16
  {
  }

  lemma SegmentsFitPath(path: string)
    requires path != "" && path[0] == '/'
    ensures TotalLength(Resolve(Split(path), [], true)) <= |path|
  {
    hide Split, Resolve, TotalLength;
    var tail := path[1..];
    assert path == "" + "/" + tail;
    SplitAppend("", tail);
    SplitWhole("");
    EmptySegment(Split(tail));
    SplitLength(tail);
    ResolveShrinks(Split(tail), []);
    NoLength();
  }

  lemma NoLength()
    ensures TotalLength([]) == 0
  {
  }

  /** The path the parser sees in a canonical URL: cut at the first `#` or `?`, then decoded. */
  lemma SeenPath(hostOf: HostParser, p: string) returns (q: string)
    requires hostOf(GITHUB) == Some(GITHUB) && p != "" && p[0] == '/' && Parse(hostOf, PREFIX + p).Some?
    ensures Decode(q).Some? && Parse(hostOf, PREFIX + p).value == Url(GITHUB, Decode(q).value)
    ensures |q| <= |p| && q != "" && q[0] == '/'
    ensures |q| == |p| && '%' !in q ==> Verbatim(p)
  {
    hide Decode, ParseReference, Before;
    var p1 := Before(p, '#');
    BeforeAppend(PREFIX, p, '#');
    BeforeWhole(p, '#');
    PrefixStart(p, '#');
    WithoutControl(hostOf, p1);
    NotIn(p, '#');
    ParsePrefixed(hostOf, p1);
    q := Before(p1, '?');
    BeforeWhole(p1, '?');
    if |q| == |p| {
      assert q == p1 == p;
    }
  }

  lemma PrefixStart(p: string, c: char)
    requires p != "" && p[0] == '/' && c != '/'
    ensures Before(p, c) != "" && Before(p, c)[0] == '/'
  {
  }

  lemma NotIn(p: string, c: char)
    ensures c !in Before(p, c)
  {
  }

  lemma WithoutControl(hostOf: HostParser, p: string)
    requires ParseReference(hostOf, PREFIX + p).Some?
    ensures !HasControl(p)
  {
    forall i | 0 <= i < |p| ensures !IsControl(p[i]) {
      assert (PREFIX + p)[|PREFIX| + i] == p[i];
    }
  }

  /** Parsing a canonical URL gives the run back only if its names stand in the URL verbatim. */
  lemma OnlyVerbatim(hostOf: HostParser, owner: string, repo: string, runId: int)
    requires hostOf(GITHUB) == Some(GITHUB)
    requires ParseRunURL(hostOf, RunUrlOf(owner, repo, runId)) == Ok(RunLocator(owner, repo, runId, RunUrlOf(owner, repo, runId)))
    ensures Verbatim(owner) && Verbatim(repo)
  {
    var p := PathOf(owner, repo, runId);
    hide Split, Clean, TrimSlashes, TrimSpace, Parse, PathOf, Decode, Resolve, TotalLength, ParseInt, Verbatim;
    RunUrlIsTrimmed(owner, repo, runId);
    PathStart(owner, repo, runId);
    var q := SeenPath(hostOf, p);
    var d := Decode(q).value;
    DecodedStart(q);
    CleanSegments(d);
    var stack := Resolve(Split(d), [], true);
    SegmentsAreLong(stack, owner, repo, runId);
    SegmentsFitPath(d);
    if '%' in q { DecodeShrinks(q); }
    PathIsVerbatim(owner, repo, runId);
  }

  lemma DecodedStart(q: string)
    requires q != "" && q[0] == '/' && Decode(q).Some?
    ensures Decode(q).value != "" && Decode(q).value[0] == '/'
  {
  }

  /** Re-parsing the canonical URL of an accepted URL gives the same locator exactly when
      owner and repository contain no `#`, `?`, `%` or control character. */
  lemma ReparseIffVerbatim(hostOf: HostParser, raw: string)
    requires hostOf(GITHUB) == Some(GITHUB) && ParseRunURL(hostOf, raw).Ok?
    ensures var l := ParseRunURL(hostOf, raw).value;
            ParseRunURL(hostOf, l.runUrl) == Ok(l) <==> Verbatim(l.owner) && Verbatim(l.repo)
  {
    hide *;
    var l := ParseRunURL(hostOf, raw).value;
    AcceptedNames(hostOf, raw);
    if ParseRunURL(hostOf, l.runUrl) == Ok(l) {
      OnlyVerbatim(hostOf, l.owner, l.repo, l.runId);
    }
    if Verbatim(l.owner) && Verbatim(l.repo) {
      CanonicalParses(hostOf, l.owner, l.repo, l.runId);
    }
  }

  /** An escape, and the character it stands for. */
  predicate Escapes(e: string, c: char) {
    |e| == 3 && e[0] == '%' && IsHex(e[1]) && IsHex(e[2]) && c == (16 * HexValue(e[1]) + HexValue(e[2])) as char
  }

  /** The URL of a run whose owner is written as an escape. */
  function EscapedRunUrl(e: string, repo: string, runId: int): string {
    PREFIX + ("/" + e + "/" + repo + "/actions/runs/" + Print(runId))
  }

  /** An escaped character is accepted as an owner. */
  lemma EscapedOwnerAccepted(hostOf: HostParser, e: string, c: char, repo: string, runId: int)
    requires hostOf(GITHUB) == Some(GITHUB) && IsName(repo) && Fits(runId) && Escapes(e, c) && Plain([c]) && c != '/'
    ensures ParseRunURL(hostOf, EscapedRunUrl(e, repo, runId)) ==
            Ok(RunLocator([c], repo, runId, RunUrlOf([c], repo, runId)))
  {
    hide *;
    NamesAreVerbatim(repo);
    EscapedUrl(hostOf, e, c, repo, runId);
    RunSegments([c], repo, runId);
    ParsePrinted(runId);
    LocatorOfSegments(hostOf, EscapedRunUrl(e, repo, runId), PathOf([c], repo, runId), [c], repo, Print(runId), runId);
  }

  /** An accepted URL whose canonical URL is not accepted as the same run: an escaped
      question mark in the owner, for any repository name and run. */
  lemma EscapedOwnerNotStable(hostOf: HostParser, repo: string, runId: int)
    requires hostOf(GITHUB) == Some(GITHUB) && IsName(repo) && Fits(runId)
    ensures var raw := EscapedRunUrl("%3F", repo, runId);
            && ParseRunURL(hostOf, raw) == Ok(RunLocator("?", repo, runId, RunUrlOf("?", repo, runId)))
            && ParseRunURL(hostOf, RunUrlOf("?", repo, runId)) != ParseRunURL(hostOf, raw)
  {
    hide *;
    QuestionIsPlain();
    EscapedOwnerAccepted(hostOf, "%3F", '?', repo, runId);
    ReparseIffVerbatim(hostOf, EscapedRunUrl("%3F", repo, runId));
  }

  lemma QuestionIsPlain()
    ensures Escapes("%3F", '?') && Plain("?") && ['?'] == "?" && !Verbatim("?")
  {
  }

  /** An accepted URL whose repository the provider's adapter cannot read: an escaped space as owner. */
  lemma BlankOwnerUnreadable(hostOf: HostParser, repo: string, runId: int)
    requires hostOf(GITHUB) == Some(GITHUB) && IsName(repo) && Fits(runId)
    ensures ParseRunURL(hostOf, EscapedRunUrl("%20", repo, runId)) == Ok(RunLocator(" ", repo, runId, RunUrlOf(" ", repo, runId)))
    ensures ParseRepository(" " + "/" + repo).Err?
  {
    hide *;
    SpaceIsPlain();
    NamesAreVerbatim(repo);
    EscapedOwnerAccepted(hostOf, "%20", ' ', repo, runId);
    ReadBackIff(" ", repo);
  }

  lemma SpaceIsPlain()
    ensures Escapes("%20", ' ') && Plain(" ") && [' '] == " " && '/' !in " " && Blank(" ")
  {
    assert TrimLeft(" ") == "";
  }

  lemma EscapedUrl(hostOf: HostParser, e: string, c: char, repo: string, runId: int)
    requires hostOf(GITHUB) == Some(GITHUB) && IsName(repo) && Escapes(e, c)
    ensures var u := EscapedRunUrl(e, repo, runId);
            u != "" && TrimSpace(u) == u && Parse(hostOf, u) == Some(Url(GITHUB, PathOf([c], repo, runId)))
  {
    hide TrimSpace, Print, Decode, ParseReference, Before, Parse, HasControl, PathOf, Verbatim, Escapes;
    var head, tail := "/" + e, "/" + repo + "/actions/runs/" + Print(runId);
    var p := head + tail;
    assert p == "/" + e + "/" + repo + "/actions/runs/" + Print(runId);
    var u := PREFIX + p;
    assert u[0] == 'h' && u[|u| - 1] == Print(runId)[|Print(runId)| - 1];
    TrimIdle(u);
    TailIsVerbatim(repo, runId);
    EscapedPath(e, c, tail);
    EscapedTail(c, repo, runId);
    NoControlAppend(head, tail);
    EscapeIsPlainText(e, c);
    BeforeWhole(p, '?');
    BeforeWhole(p, '#');
    BeforeAppend(PREFIX, p, '#');
    ParsePrefixed(hostOf, p);
    ParseWithoutFragment(hostOf, u);
  }

  lemma ParseWithoutFragment(hostOf: HostParser, u: string)
    requires Before(u, '#') == u
    ensures Parse(hostOf, u) == ParseReference(hostOf, u)
  {
    hide ParseReference, Before;
    NoFragment();
  }

  lemma EscapeIsPlainText(e: string, c: char)
    requires Escapes(e, c)
    ensures var head := "/" + e; !HasControl(head) && '#' !in head && '?' !in head
  {
    var head := "/" + e;
    assert head[0] == '/' && head[1] == '%' && IsHex(head[2]) && IsHex(head[3]);
  }

  lemma TailIsVerbatim(repo: string, runId: int)
    requires IsName(repo)
    ensures var tail := "/" + repo + "/actions/runs/" + Print(runId);
            '#' !in tail && '?' !in tail && '%' !in tail && !HasControl(tail)
  {
    NamesAreVerbatim(repo);
    PrintedIsVerbatim(runId);
    SlashesAreVerbatim();
    hide Print;
    VerbatimConcat("/", repo);
    VerbatimConcat("/" + repo, "/actions/runs/");
    VerbatimConcat("/" + repo + "/actions/runs/", Print(runId));
  }

  lemma EscapedTail(c: char, repo: string, runId: int)
    ensures "/" + [c] + ("/" + repo + "/actions/runs/" + Print(runId)) == PathOf([c], repo, runId)
  {
  }

  lemma EscapedPath(e: string, c: char, tail: string)
    requires '%' !in tail && Escapes(e, c)
    ensures Decode("/" + e + tail) == Some("/" + [c] + tail)
  {
    DecodePlain(tail);
    DecodePlain("/");
    DecodeOne(e, c);
    hide Decode;
    DecodeAppend("/", e);
    DecodeAppend("/" + e, tail);
  }

  lemma DecodeOne(e: string, c: char)
    requires Escapes(e, c)
    ensures Decode(e) == Some([c])
  {
    assert e[3..] == "";
    assert Decode(e[3..]) == Some("");
    assert [c] + "" == [c];
  }

  // ----- Check-run URLs -----

  function CheckRunPath(owner: string, repo: string, id: int): string {
    "/repos/" + owner + "/" + repo + "/check-runs/" + Print(id)
  }

  lemma {:induction false} SchemeEndAppend(b: string, s: string, i: nat)
    requires i <= |b| && s != "" && s[0] == '/'
    ensures SchemeEnd(b + s, i) == SchemeEnd(b, i)
    decreases |b| - i
  {
    if i < |b| {
      SchemeEndAppend(b, s, i + 1);
    }
  }

  /** A path appended to a base URL is appended to its path. */
  lemma ParseAppend(hostOf: HostParser, b: string, s: string)
    requires hostOf("") == Some("")
    requires '#' !in b && '?' !in b && s != "" && s[0] == '/' && Verbatim(s)
    requires Parse(hostOf, b).Some? && Parse(hostOf, b).value.host != ""
    ensures var u := Parse(hostOf, b).value; Parse(hostOf, b + s) == Some(Url(u.host, u.path + s))
  {
    hide Decode, ParseReference, Verbatim, Before;
    VerbatimParts(s);
    BeforeWhole(b, '#');
    BeforeWhole(b + s, '#');
    assert '#' !in b + s;
    ParseWithoutFragment(hostOf, b);
    ParseWithoutFragment(hostOf, b + s);
    ReferenceAppend(hostOf, b, s);
  }

  lemma ReferenceAppend(hostOf: HostParser, b: string, s: string)
    requires hostOf("") == Some("")
    requires '?' !in b && s != "" && s[0] == '/' && '?' !in s && '%' !in s && !HasControl(s)
    requires ParseReference(hostOf, b).Some? && ParseReference(hostOf, b).value.host != ""
    ensures var u := ParseReference(hostOf, b).value; ParseReference(hostOf, b + s) == Some(Url(u.host, u.path + s))
  {
    hide Decode, ParseHierarchy, HasControl, SchemeEnd, Before;
    NoControlAppend(b, s);
    SchemeEndAppend(b, s, 0);
    var colon := SchemeEnd(b, 0);
    var rest := if colon.Some? then b[colon.value + 1..] else b;
    assert (if colon.Some? then (b + s)[colon.value + 1..] else b + s) == rest + s;
    assert '?' !in rest && '?' !in rest + s;
    BeforeWhole(rest, '?');
    BeforeWhole(rest + s, '?');
    HierarchyAppend(hostOf, colon.Some?, rest, s);
    NotStar(b, s);
  }

  lemma NotStar(b: string, s: string)
    requires s != "" && s[0] == '/'
    ensures b + s != "*"
  {
    assert (b + s)[|b|] == '/';
  }

  lemma NoFragment()
    ensures Decode("") == Some("")
  {
  }

  lemma VerbatimParts(s: string)
    requires Verbatim(s)
    ensures '#' !in s && '?' !in s && '%' !in s && !HasControl(s)
  {
  }

  lemma NoControlAppend(a: string, b: string)
    ensures HasControl(a + b) <==> HasControl(a) || HasControl(b)
  {
    if HasControl(a + b) {
      var i :| 0 <= i < |a + b| && IsControl((a + b)[i]);
      if i < |a| { assert IsControl(a[i]); } else { assert IsControl(b[i - |a|]); }
    }
    if HasControl(a) {
      var i :| 0 <= i < |a| && IsControl(a[i]);
      assert IsControl((a + b)[i]);
    }
    if HasControl(b) {
      var i :| 0 <= i < |b| && IsControl(b[i]);
      assert IsControl((a + b)[|a| + i]);
    }
  }

  lemma EmptyAuthority(a: string, slash: nat)
    requires slash <= |a|
    ensures a == "" ==> a[..slash] == ""
  {
  }

  lemma AuthorityAppend(hostOf: HostParser, a: string, s: string)
    requires hostOf("") == Some("") && s != "" && s[0] == '/' && '%' !in s
    requires ParseAuthority(hostOf, a).Some? && ParseAuthority(hostOf, a).value.host != ""
    ensures a != ""
    ensures var u := ParseAuthority(hostOf, a).value;
            ParseAuthority(hostOf, a + s) == Some(Url(u.host, u.path + s))
  {
    hide Decode, IndexOf;
    var slash := IndexOf(a, '/');
    IndexOfAppend(a, s, '/');
    IndexIn(a, '/');
    assert IndexOf(s, '/') == 0;
    assert (a + s)[..slash] == a[..slash] && (a + s)[slash..] == a[slash..] + s;
    EmptyAuthority(a, slash);
    DecodePlain(s);
    DecodeAppend(a[slash..], s);
  }

  lemma HierarchyAppend(hostOf: HostParser, scheme: bool, rest: string, s: string)
    requires hostOf("") == Some("") && s != "" && s[0] == '/' && '%' !in s
    requires ParseHierarchy(hostOf, scheme, rest).Some? && ParseHierarchy(hostOf, scheme, rest).value.host != ""
    ensures var u := ParseHierarchy(hostOf, scheme, rest).value;
            ParseHierarchy(hostOf, scheme, rest + s) == Some(Url(u.host, u.path + s))
  {
    hide Decode, IndexOf, ParseAuthority;
    assert "//" <= rest && (scheme || !("///" <= rest));
    var a := rest[2..];
    assert (rest + s)[2..] == a + s;
    AuthorityAppend(hostOf, a, s);
    assert "///" <= rest + s ==> "///" <= rest;
  }

  lemma {:induction false} JoinAppend(a: seq<string>, b: seq<string>)
    requires a != [] && b != []
    ensures Join(a + b) == Join(a) + "/" + Join(b)
  {
    assert (a + b)[0] == a[0] && (a + b)[1..] == a[1..] + b;
    if |a| > 1 {
      JoinAppend(a[1..], b);
      assert a[0] + "/" + (Join(a[1..]) + "/" + Join(b)) == (a[0] + "/" + Join(a[1..])) + "/" + Join(b);
    } else {
      assert a[1..] + b == b;
    }
  }

  /** The cleaned path below a base is the cleaned base followed by the appended segments. */
  lemma CleanBelowBase(path: string, parts: seq<string>)
    requires path == "" || path[0] == '/'
    requires parts != [] && AllPlain(parts) && NoSlash(parts)
    ensures var base := TrimSlashes(Clean(path));
            var full := TrimSlashes(Clean(path + "/" + Join(parts)));
            if base == "" || base == "." then full == Join(parts) else full == base + "/" + Join(parts)
  {
    hide Split, Resolve, Clean, TrimSlashes, Join, AllPlain;
    var stack := Resolve(Split(path), [], true);
    var p := path + "/" + Join(parts);
    SplitAppend(path, Join(parts));
    SplitJoin(parts);
    ResolveAppend(Split(path), parts, [], true);
    ResolvePlain(parts, stack, true);
    assert p != "" && p[0] == '/';
    CleanSegments(p);
    if path == "" {
      EmptyBase();
      assert [] + parts == parts;
    } else {
      CleanSegments(path);
      if stack == [] {
        assert [] + parts == parts;
        JoinNone();
      } else {
        JoinAppend(stack, parts);
        JoinEnds(stack);
        JoinIsNotDot(stack);
      }
    }
  }

  lemma EmptyBase()
    ensures TrimSlashes(Clean("")) == "." && Resolve(Split(""), [], true) == []
  {
    assert Clean("") == ".";
    assert Split("") == [""];
  }

  lemma JoinNone()
    ensures Join([]) == ""
  {
  }

  lemma JoinIsNotDot(stack: seq<string>)
    requires stack != [] && AllPlain(stack)
    ensures Join(stack) != "."
  {
  }

  lemma CheckRunIdBelow(base: string, parts: seq<string>, full: string)
    requires |parts| == 5 && NoSlash(parts)
    requires if base == "" || base == "." then full == Join(parts) else full == base + "/" + Join(parts)
    ensures CheckRunId(full, base) == CheckRunSegments(parts)
  {
    hide Split, Join, CheckRunSegments;
    SplitJoin(parts);
    if !(base == "" || base == ".") {
      var prefix := base + "/";
      assert prefix <= full && full[|prefix|..] == Join(parts);
    }
  }

  /** Below any API base with a host, the URL of a check run parses to its id. */
  lemma CheckRunRoundTrip(hostOf: HostParser, base: string, owner: string, repo: string, id: int)
    requires hostOf("") == Some("") && IsName(owner) && IsName(repo) && Fits(id)
    requires base != "" && TrimSpace(base) == base && '#' !in base && '?' !in base
    requires Parse(hostOf, base).Some? && Parse(hostOf, base).value.host != ""
    ensures ParseCheckRunURLForBase(hostOf, base + CheckRunPath(owner, repo, id), base) == Ok(id)
  {
    var s := CheckRunPath(owner, repo, id);
    var parts := ["repos", owner, repo, "check-runs", Print(id)];
    var u := Parse(hostOf, base).value;
    CheckRunPathShape(owner, repo, id);
    ParseAppend(hostOf, base, s);
    HostedPath(hostOf, base);
    CheckRunUrlTrimmed(base, owner, repo, id);
    hide *;
    assert u.path + s == u.path + "/" + Join(parts) by { assert s == "/" + Join(parts); Regroup(u.path, Join(parts)); }
    CleanBelowBase(u.path, parts);
    CheckRunIdBelow(TrimSlashes(Clean(u.path)), parts, TrimSlashes(Clean(u.path + s)));
    SegmentsGiveId(parts, id);
    CheckRunComposed(hostOf, base, base + s, u, Url(u.host, u.path + s));
  }

  lemma Regroup(a: string, b: string)
    ensures a + ("/" + b) == a + "/" + b
  {
  }

  lemma CheckRunUrlTrimmed(base: string, owner: string, repo: string, id: int)
    requires base != "" && TrimSpace(base) == base
    ensures var u := base + CheckRunPath(owner, repo, id); u != "" && TrimSpace(u) == u
  {
    hide Print;
    var u := base + CheckRunPath(owner, repo, id);
    TrimmedEnds(base);
    assert u[|u| - 1] == Print(id)[|Print(id)| - 1];
    hide TrimSpace;
    TrimIdle(u);
  }

  lemma TrimmedEnds(s: string)
    requires s != "" && TrimSpace(s) == s
    ensures !IsSpace(s[0]) && !IsSpace(s[|s| - 1])
  {
  }

  lemma CheckRunPathShape(owner: string, repo: string, id: int)
    requires IsName(owner) && IsName(repo)
    ensures var s := CheckRunPath(owner, repo, id);
            var parts := ["repos", owner, repo, "check-runs", Print(id)];
            && s != "" && s[0] == '/' && Verbatim(s) && s == "/" + Join(parts) && AllPlain(parts) && NoSlash(parts)
  {
    NamesAreVerbatim(owner);
    NamesAreVerbatim(repo);
    PrintedIsVerbatim(id);
    hide Print;
    JoinOfFive("repos", owner, repo, "check-runs", Print(id));
    var tail := "/check-runs/" + Print(id);
    RoutesAreVerbatim();
    hide Verbatim;
    VerbatimConcat("/check-runs/", Print(id));
    VerbatimConcat(repo, tail);
    VerbatimConcat("/", repo + tail);
    VerbatimConcat(owner, "/" + (repo + tail));
    VerbatimConcat("/repos/", owner + ("/" + (repo + tail)));
    RegroupPath(owner, repo, id);
  }

  lemma RegroupPath(owner: string, repo: string, id: int)
    ensures CheckRunPath(owner, repo, id) == "/repos/" + (owner + ("/" + (repo + ("/check-runs/" + Print(id)))))
    ensures CheckRunPath(owner, repo, id) == "/" + ("repos" + "/" + owner + "/" + repo + "/" + "check-runs" + "/" + Print(id))
  {
    hide Print;
  }

  lemma RoutesAreVerbatim()
    ensures Verbatim("/") && Verbatim("/repos/") && Verbatim("/check-runs/")
  {
  }

  lemma SegmentsGiveId(parts: seq<string>, id: int)
    requires |parts| == 5 && parts[0] == "repos" && parts[3] == "check-runs" && parts[4] == Print(id) && Fits(id)
    ensures CheckRunSegments(parts) == Ok(id)
  {
    ParsePrinted(id);
  }

  lemma CheckRunComposed(hostOf: HostParser, base: string, raw: string, u: Url, v: Url)
    requires raw != "" && TrimSpace(raw) == raw && TrimSpace(base) == base
    requires Parse(hostOf, base) == Some(u) && u.host != "" && Parse(hostOf, raw) == Some(v) && v.host == u.host
    ensures ParseCheckRunURLForBase(hostOf, raw, base) == CheckRunId(TrimSlashes(Clean(v.path)), TrimSlashes(Clean(u.path)))
  {
    hide Parse, TrimSpace, Clean, TrimSlashes, CheckRunId;
    FoldReflexive(u.host);
  }

  // ----- What is accepted -----

  /** A run URL is accepted, and gives this owner, repository and id, exactly when it is a URL
      on GitHub's host, up to case, whose cleaned path starts with these segments. */
  lemma RunUrlAcceptedIff(hostOf: HostParser, raw: string, owner: string, repo: string, id: int)
    ensures ParseRunURL(hostOf, raw) == Ok(RunLocator(owner, repo, id, RunUrlOf(owner, repo, id))) <==>
            && TrimSpace(raw) != ""
            && exists u, text, rest ::
                 && Parse(hostOf, TrimSpace(raw)) == Some(u) && EqualFold(u.host, "github.com")
                 && Split(TrimSlashes(Clean(u.path))) == [owner, repo, "actions", "runs", text] + rest
                 && ParseInt(text) == Some(id)
  {
    hide Parse, Split, Clean, TrimSlashes, ParseInt, EqualFold, TrimSpace, RunUrlOf;
    if ParseRunURL(hostOf, raw) == Ok(RunLocator(owner, repo, id, RunUrlOf(owner, repo, id))) {
      var u := Parse(hostOf, TrimSpace(raw)).value;
      var segments := Split(TrimSlashes(Clean(u.path)));
      assert segments == [owner, repo, "actions", "runs", segments[4]] + segments[5..];
    }
    if TrimSpace(raw) != "" {
      forall u, text, rest |
        && Parse(hostOf, TrimSpace(raw)) == Some(u) && EqualFold(u.host, "github.com")
        && Split(TrimSlashes(Clean(u.path))) == [owner, repo, "actions", "runs", text] + rest
        && ParseInt(text) == Some(id)
        ensures ParseRunURL(hostOf, raw) == Ok(RunLocator(owner, repo, id, RunUrlOf(owner, repo, id)))
      {
        var segments := Split(TrimSlashes(Clean(u.path)));
        assert segments[0] == owner && segments[1] == repo && segments[2] == "actions" && segments[3] == "runs" && segments[4] == text;
      }
    }
  }

  /** No URL on another host is a run URL. */
  lemma OtherHostsRefused(hostOf: HostParser, raw: string)
    requires Parse(hostOf, TrimSpace(raw)).Some? && !EqualFold(Parse(hostOf, TrimSpace(raw)).value.host, "github.com")
    ensures ParseRunURL(hostOf, raw).Err?
  {
    hide Parse, Split, Clean, TrimSlashes, ParseInt, EqualFold, TrimSpace;
  }

  /** Two URLs on one host, the first with the five segments of a check run below the second. */
  ghost predicate IsCheckRunBelow(u: Url, b: Url, id: int) {
    && b.host != "" && EqualFold(u.host, b.host)
    && exists owner, repo, text ::
         BelowBase(TrimSlashes(Clean(u.path)), TrimSlashes(Clean(b.path)), owner, repo, text) && ParseInt(text) == Some(id)
  }

  /** A check-run URL is accepted exactly when it is on the host of the base, up to case, and its
      cleaned path is that of the base followed by the five segments of a check run. */
  lemma CheckRunAcceptedIff(hostOf: HostParser, raw: string, base: string, id: int)
    ensures ParseCheckRunURLForBase(hostOf, raw, base) == Ok(id) <==>
            && TrimSpace(raw) != ""
            && exists u, b :: Parse(hostOf, TrimSpace(raw)) == Some(u) && Parse(hostOf, TrimSpace(base)) == Some(b) &&
                              IsCheckRunBelow(u, b, id)
  {
    hide Parse, Clean, TrimSlashes, ParseInt, EqualFold, TrimSpace, CheckRunId, BelowBase;
    var x, y := Parse(hostOf, TrimSpace(raw)), Parse(hostOf, TrimSpace(base));
    if x.Some? && y.Some? {
      CheckRunIdIff(TrimSlashes(Clean(x.value.path)), TrimSlashes(Clean(y.value.path)), id);
    }
  }

  /** The segments of a check run follow the cleaned base path, if that is not the root. */
  predicate BelowBase(path: string, basePath: string, owner: string, repo: string, text: string) {
    var before := if basePath == "" || basePath == "." then "" else basePath + "/";
    before <= path && Split(path[|before|..]) == ["repos", owner, repo, "check-runs", text]
  }

  lemma CheckRunIdIff(path: string, basePath: string, id: int)
    ensures CheckRunId(path, basePath) == Ok(id) <==>
            exists owner, repo, text :: BelowBase(path, basePath, owner, repo, text) && ParseInt(text) == Some(id)
  {
    hide Split, ParseInt;
    var before := if basePath == "" || basePath == "." then "" else basePath + "/";
    assert path[0..] == path;
    if before <= path {
      var segments := Split(path[|before|..]);
      if CheckRunId(path, basePath) == Ok(id) {
        assert segments == ["repos", segments[1], segments[2], "check-runs", segments[4]];
        assert BelowBase(path, basePath, segments[1], segments[2], segments[4]);
      }
      if owner, repo, text :| BelowBase(path, basePath, owner, repo, text) && ParseInt(text) == Some(id) {
        assert segments[0] == "repos" && segments[3] == "check-runs" && segments[4] == text;
      }
    }
  }
}
