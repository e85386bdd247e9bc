/**
Run and check-run locators: parsing of the two URL shapes, and the canonical run URL.
`hostOf` is how the URL library reads the host out of an authority.
*/
module Locator {
  import opened Regex
  import opened Text
  import opened Int64
  import opened Decimal
  import opened Url

  datatype RunLocator = RunLocator(owner: string, repo: string, runId: int, runUrl: string)

  datatype ParseError = Missing | BadUrl | BadHost | BadPath | BadId

  datatype Parsed<T> = Ok(value: T) | Err(error: ParseError)

  const GITHUB: string := "github.com"

  const PREFIX: string := "https://github.com"

  function PathOf(owner: string, repo: string, runId: int): string {
    "/" + owner + "/" + repo + "/actions/runs/" + Print(runId)
  }

  function RunUrlOf(owner: string, repo: string, runId: int): string {
    PREFIX + PathOf(owner, repo, runId)
  }

  function ParseRunURL(hostOf: HostParser, raw: string): Parsed<RunLocator> {
    if TrimSpace(raw) == "" then Err(Missing)
    else
      match Parse(hostOf, TrimSpace(raw))
      case None => Err(BadUrl)
      case Some(u) =>
        if !EqualFold(u.host, GITHUB) then Err(BadHost)
        else
          var segments := Split(TrimSlashes(Clean(u.path)));
          if |segments| < 5 || segments[2] != "actions" || segments[3] != "runs" then Err(BadPath)
          else
            match ParseInt(segments[4])
            case None => Err(BadId)
            case Some(runId) => Ok(RunLocator(segments[0], segments[1], runId, RunUrlOf(segments[0], segments[1], runId)))
  }

  datatype Repository = Repository(owner: string, name: string)

  function ParseRepository(repo: string): Parsed<Repository> {
    var parts := Split(TrimSpace(repo));
    if |parts| != 2 || parts[0] == "" || parts[1] == "" then Err(BadPath)
    else Ok(Repository(parts[0], parts[1]))
  }

  function RunURL(repository: string, runId: int): string {
    match ParseRepository(repository)
    case Err(_) => ""
    case Ok(r) => RunUrlOf(r.owner, r.name, runId)
  }

  function ParseCheckRunURLForBase(hostOf: HostParser, raw: string, baseUrl: string): Parsed<int> {
    if TrimSpace(raw) == "" then Err(Missing)
    else
      match Parse(hostOf, TrimSpace(raw))
      case None => Err(BadUrl)
      case Some(u) =>
        match Parse(hostOf, TrimSpace(baseUrl))
        case None => Err(BadUrl)
        case Some(base) =>
          if base.host == "" then Err(BadHost)
          else if !EqualFold(u.host, base.host) then Err(BadHost)
          else CheckRunId(TrimSlashes(Clean(u.path)), TrimSlashes(Clean(base.path)))
  }

  /** The check-run id of a cleaned path below a cleaned base path. */
  function CheckRunId(cleanPath: string, basePath: string): Parsed<int> {
    var prefix := basePath + "/";
    if basePath != "" && basePath != "." then
      if prefix <= cleanPath then CheckRunSegments(Split(cleanPath[|prefix|..])) else Err(BadPath)
    else CheckRunSegments(Split(cleanPath))
  }

  function CheckRunSegments(segments: seq<string>): Parsed<int> {
    if |segments| != 5 then Err(BadPath)
    else if segments[0] != "repos" || segments[3] != "check-runs" then Err(BadPath)
    else
      match ParseInt(segments[4])
      case None => Err(BadId)
      case Some(id) => Ok(id)
  }

  /** The adapter's choice of base: the public API unless one is configured. */
  function ParseCheckRunURL(hostOf: HostParser, raw: string, apiBaseUrl: string): Parsed<int> {
    if TrimSpace(apiBaseUrl) == "" then ParseCheckRunURLForBase(hostOf, raw, "https://api.github.com")
    else ParseCheckRunURLForBase(hostOf, raw, apiBaseUrl)
  }

  // ----- Names that can stand in a URL as they are -----

  predicate IsNameChar(c: char) {
    'a' <= c <= 'z' || 'A' <= c <= 'Z' || IsDigit(c) || c == '-' || c == '_' || c == '.'
  }

  /** Letters, digits, `-`, `_` and `.`, and not a dot segment. */
  predicate IsName(s: string) {
    Plain(s) && forall i :: 0 <= i < |s| ==> IsNameChar(s[i])
  }

  /** Free of the characters that a URL gives another meaning. */
  predicate Verbatim(s: string) {
    '#' !in s && '?' !in s && '%' !in s && !HasControl(s)
  }

  lemma NamesAreVerbatim(s: string)
    requires IsName(s)
    ensures Verbatim(s) && '/' !in s && Plain(s)
  {
  }

  lemma VerbatimConcat(a: string, b: string)
    ensures Verbatim(a + b) <==> Verbatim(a) && Verbatim(b)
  {
    assert forall c :: c in a + b <==> c in a || c in b;
    if HasControl(a + b) {
      var i :| 0 <= i < |a + b| && IsControl((a + b)[i]);
      if i < |a| { assert IsControl(a[i]); } else { assert IsControl(b[i - |a|]); }
    }
    if HasControl(a) {
      var i :| 0 <= i < |a| && IsControl(a[i]);
      assert IsControl((a + b)[i]);
    }
    if HasControl(b) {
      var i :| 0 <= i < |b| && IsControl(b[i]);
      assert IsControl((a + b)[|a| + i]);
    }
  }

  lemma PrintedIsVerbatim(i: int)
    ensures Verbatim(Print(i)) && '/' !in Print(i) && Plain(Print(i))
  {
    var s := Print(i);
    assert forall k :: 0 <= k < |s| ==> IsDigit(s[k]) || s[k] == '-';
  }

  // ----- Parsing an absolute GitHub URL -----

  lemma RunUrlIsTrimmed(owner: string, repo: string, runId: int)
    ensures RunUrlOf(owner, repo, runId) != ""
    ensures TrimSpace(RunUrlOf(owner, repo, runId)) == RunUrlOf(owner, repo, runId)
  {
    hide TrimSpace, Print;
    var u := RunUrlOf(owner, repo, runId);
    assert u[0] == 'h' && u[|u| - 1] == Print(runId)[|Print(runId)| - 1];
    TrimIdle(u);
  }

  lemma SchemeOfPrefix(p: string)
    ensures SchemeEnd(PREFIX + p, 0) == Some(5)
  {
    var u := PREFIX + p;
    assert SchemeEnd(u, 5) == Some(5);
    assert SchemeEnd(u, 4) == Some(5);
    assert SchemeEnd(u, 3) == Some(5);
    assert SchemeEnd(u, 2) == Some(5);
    assert SchemeEnd(u, 1) == Some(5);
  }

  /** The text before the first `c`, when there is one only after `a`. */
  lemma BeforeAppend(a: string, b: string, c: char)
    requires c !in a
    ensures Before(a + b, c) == a + Before(b, c)
  {
    IndexOfAppend(a, b, c);
    assert (a + b)[..|a| + IndexOf(b, c)] == a + b[..IndexOf(b, c)];
  }

  lemma BeforeWhole(s: string, c: char)
    ensures Before(s, c) <= s && (Before(s, c) == s <==> c !in s)
  {
    IndexIn(s, c);
  }

  /** An absolute GitHub URL is read as host and decoded path. */
  lemma ParsePrefixed(hostOf: HostParser, p: string)
    requires hostOf(GITHUB) == Some(GITHUB) && p != "" && p[0] == '/' && !HasControl(p) && '#' !in p
    ensures ParseReference(hostOf, PREFIX + p) == WithPath(GITHUB, Before(p, '?'))
    ensures Before(p, '?') != "" && Before(p, '?')[0] == '/'
  {
    hide Decode, WithPath;
    var u := PREFIX + p;
    SchemeOfPrefix(p);
    NoControlPrefix(p);
    var q := Before(p, '?');
    assert p == "/" + p[1..];
    BeforeAppend("/", p[1..], '?');
    assert u[6..] == "//github.com" + p;
    BeforeAppend("//github.com", p, '?');
    HierarchyOfPrefix(hostOf, q);
  }

  lemma NoControlPrefix(p: string)
    requires !HasControl(p)
    ensures !HasControl(PREFIX + p)
  {
    forall i | 0 <= i < |PREFIX + p| ensures !IsControl((PREFIX + p)[i]) {
      if i < |PREFIX| {
        assert (PREFIX + p)[i] == PREFIX[i];
      } else {
        assert (PREFIX + p)[i] == p[i - |PREFIX|];
      }
    }
  }

  lemma HierarchyOfPrefix(hostOf: HostParser, q: string)
    requires hostOf(GITHUB) == Some(GITHUB) && q != "" && q[0] == '/'
    ensures ParseHierarchy(hostOf, true, "//github.com" + q) == WithPath(GITHUB, q)
  {
    hide ParseAuthority;
    var rest := "//github.com" + q;
    assert rest[2..] == GITHUB + q;
    AuthorityOf(hostOf, GITHUB, q);
  }

  lemma AuthorityOf(hostOf: HostParser, host: string, q: string)
    requires hostOf(host) == Some(host) && '/' !in host && q != "" && q[0] == '/'
    ensures ParseAuthority(hostOf, host + q) == WithPath(host, q)
  {
    hide WithPath;
    IndexOfAppend(host, q, '/');
    assert IndexOf(q, '/') == 0;
    assert (host + q)[..|host|] == host && (host + q)[|host|..] == q;
  }

  // ----- Round trip -----

  lemma RunSegments(owner: string, repo: string, runId: int)
    requires '/' !in owner && '/' !in repo && Plain(owner) && Plain(repo)
    ensures var path := PathOf(owner, repo, runId);
            Split(TrimSlashes(Clean(path))) == [owner, repo, "actions", "runs", Print(runId)]
  {
    var parts := [owner, repo, "actions", "runs", Print(runId)];
    PrintedIsVerbatim(runId);
    hide Clean, Split, TrimSlashes, Print;
    assert NoSlash(parts) && AllPlain(parts);
    JoinOfFive(owner, repo, "actions", "runs", Print(runId));
    assert PathOf(owner, repo, runId) == "" + "/" + Join(parts);
    SplitAppend("", Join(parts));
    SplitJoin(parts);
    SplitWhole("");
    ResolvePlain(parts, [], true);
    assert [""] + parts == Split(PathOf(owner, repo, runId));
    EmptySegment(parts);
    CleanSegments(PathOf(owner, repo, runId));
  }

  lemma EmptySegment(parts: seq<string>)
    ensures Resolve([""] + parts, [], true) == Resolve(parts, [], true)
  {
    assert ([""] + parts)[1..] == parts;
  }

  lemma JoinOfFive(a: string, b: string, c: string, d: string, e: string)
    ensures Join([a, b, c, d, e]) == a + "/" + b + "/" + c + "/" + d + "/" + e
  {
    var five := [a, b, c, d, e];
    var four, three, two := five[1..], five[1..][1..], five[1..][1..][1..];
    assert four == [b, c, d, e] && three == [c, d, e] && two == [d, e] && two[1..] == [e];
    assert Join(two) == d + "/" + e;
    assert Join(three) == c + "/" + Join(two);
    assert Join(four) == b + "/" + Join(three);
  }

  lemma PathIsVerbatim(owner: string, repo: string, runId: int)
    ensures Verbatim(PathOf(owner, repo, runId)) <==> Verbatim(owner) && Verbatim(repo)
  {
    hide Verbatim;
    PrintedIsVerbatim(runId);
    SlashesAreVerbatim();
    var tail := "/actions/runs/" + Print(runId);
    VerbatimConcat("/actions/runs/", Print(runId));
    VerbatimConcat(repo, tail);
    VerbatimConcat("/", repo + tail);
    VerbatimConcat(owner, "/" + (repo + tail));
    VerbatimConcat("/", owner + ("/" + (repo + tail)));
    assert PathOf(owner, repo, runId) == "/" + (owner + ("/" + (repo + tail)));
  }

  lemma SlashesAreVerbatim()
    ensures Verbatim("/") && Verbatim("/actions/runs/")
  {
  }

  /** The canonical URL of any run parses back to it. */
  lemma CanonicalParses(hostOf: HostParser, owner: string, repo: string, runId: int)
    requires hostOf(GITHUB) == Some(GITHUB) && Fits(runId)
    requires Plain(owner) && Plain(repo) && '/' !in owner && '/' !in repo && Verbatim(owner) && Verbatim(repo)
    ensures ParseRunURL(hostOf, RunUrlOf(owner, repo, runId)) ==
            Ok(RunLocator(owner, repo, runId, RunUrlOf(owner, repo, runId)))
  {
    hide *;
    RunUrlIsTrimmed(owner, repo, runId);
    CanonicalUrl(hostOf, owner, repo, runId);
    RunSegments(owner, repo, runId);
    ParsePrinted(runId);
    LocatorOfSegments(hostOf, RunUrlOf(owner, repo, runId), PathOf(owner, repo, runId), owner, repo, Print(runId), runId);
  }

  lemma LocatorOfSegments(hostOf: HostParser, raw: string, path: string, owner: string, repo: string, id: string, runId: int)
    requires raw != "" && TrimSpace(raw) == raw && Parse(hostOf, raw) == Some(Url(GITHUB, path))
    requires Split(TrimSlashes(Clean(path))) == [owner, repo, "actions", "runs", id] && ParseInt(id) == Some(runId)
    ensures ParseRunURL(hostOf, raw) == Ok(RunLocator(owner, repo, runId, RunUrlOf(owner, repo, runId)))
  {
    hide Clean, Split, TrimSlashes, RunUrlOf, TrimSpace, ParseInt, Parse;
    FoldReflexive(GITHUB);
  }

  lemma CanonicalUrl(hostOf: HostParser, owner: string, repo: string, runId: int)
    requires hostOf(GITHUB) == Some(GITHUB) && Verbatim(owner) && Verbatim(repo)
    ensures Parse(hostOf, RunUrlOf(owner, repo, runId)) == Some(Url(GITHUB, PathOf(owner, repo, runId)))
  {
    var path := PathOf(owner, repo, runId);
    PathIsVerbatim(owner, repo, runId);
    PathStart(owner, repo, runId);
    BeforeWhole(path, '?');
    BeforeWhole(path, '#');
    BeforeAppend(PREFIX, path, '#');
    DecodePlain(path);
    ParsePrefixed(hostOf, path);
    hide PathOf, ParseReference, Before;
    assert Decode("") == Some("");
  }

  lemma PathStart(owner: string, repo: string, runId: int)
    ensures PathOf(owner, repo, runId) != "" && PathOf(owner, repo, runId)[0] == '/'
  {
  }

  lemma FoldReflexive(s: string)
    ensures EqualFold(s, s)
  {
  }

  /** Printing the URL of a repository's run and parsing it gives the run back. */
  lemma RunUrlRoundTrip(hostOf: HostParser, owner: string, repo: string, runId: int)
    requires hostOf(GITHUB) == Some(GITHUB) && IsName(owner) && IsName(repo) && Fits(runId)
    ensures ParseRunURL(hostOf, RunURL(owner + "/" + repo, runId)) ==
            Ok(RunLocator(owner, repo, runId, RunURL(owner + "/" + repo, runId)))
  {
    NamesAreVerbatim(owner);
    NamesAreVerbatim(repo);
    RepositoryRoundTrip(owner, repo);
    CanonicalParses(hostOf, owner, repo, runId);
  }

  /** How the adapter reads back the repository of a locator: the outer spaces of owner and
      name are lost, and a blank one makes the repository unreadable. */
  lemma ReadBack(owner: string, repo: string)
    requires '/' !in owner && '/' !in repo
    ensures ParseRepository(owner + "/" + repo) ==
            if Blank(owner) || Blank(repo) then Err(BadPath) else Ok(Repository(TrimLeft(owner), TrimRight(repo)))
  {
    hide *;
    var a, b := TrimLeft(owner), TrimRight(repo);
    SlashIsNoSpace();
    TrimAround(owner, '/', repo);
    TrimmedLacks(owner, '/');
    TrimmedLacks(repo, '/');
    TwoParts(owner + ['/'] + repo, a, b);
    TrimmedBlank(owner);
    TrimmedBlank(repo);
  }

  lemma SlashIsNoSpace()
    ensures !IsSpace('/')
  {
  }

  lemma TrimmedLacks(s: string, c: char)
    requires c !in s
    ensures c !in TrimLeft(s) && c !in TrimRight(s)
  {
    hide IsSpace;
    var l := TrimLeft(s);
    assert l == s[|s| - |l|..];
  }

  lemma TwoParts(raw: string, a: string, b: string)
    requires TrimSpace(raw) == a + ['/'] + b && '/' !in a && '/' !in b
    ensures ParseRepository(raw) == if a == "" || b == "" then Err(BadPath) else Ok(Repository(a, b))
  {
    hide TrimSpace, Split;
    assert a + ['/'] + b == a + "/" + b;
    SplitAppend(a, b);
    SplitWhole(a);
    SplitWhole(b);
  }

  /** The provider is asked about the run's own repository exactly when the owner does not
      start, and the name does not end, with a space. */
  lemma ReadBackIff(owner: string, repo: string)
    requires Plain(owner) && Plain(repo) && '/' !in owner && '/' !in repo
    ensures ParseRepository(owner + "/" + repo) == Ok(Repository(owner, repo)) <==>
            !IsSpace(owner[0]) && !IsSpace(repo[|repo| - 1])
    ensures ParseRepository(owner + "/" + repo).Err? <==> Blank(owner) || Blank(repo)
  {
    ReadBack(owner, repo);
    TrimIdleIff(owner);
    TrimIdleIff(repo);
    hide ParseRepository, TrimSpace, TrimLeft, TrimRight, IsSpace;
  }

  /** The URL of a repository's run, written out. */
  lemma RunUrlText(owner: string, repo: string, runId: int)
    requires IsName(owner) && IsName(repo)
    ensures RunURL(owner + "/" + repo, runId) == "https://github.com/" + owner + "/" + repo + "/actions/runs/" + Print(runId)
  {
    RepositoryRoundTrip(owner, repo);
    hide ParseRepository, IsName, Print;
    WrittenOut(owner, repo, runId);
  }

  lemma WrittenOut(owner: string, repo: string, runId: int)
    ensures RunUrlOf(owner, repo, runId) == "https://github.com/" + owner + "/" + repo + "/actions/runs/" + Print(runId)
  {
    hide Print;
    var tail := owner + "/" + repo + "/actions/runs/" + Print(runId);
    assert PathOf(owner, repo, runId) == "/" + tail;
    assert "https://github.com/" == PREFIX + "/";
    assert PREFIX + ("/" + tail) == "https://github.com/" + tail;
  }

  lemma RepositoryRoundTrip(owner: string, repo: string)
    requires IsName(owner) && IsName(repo)
    ensures ParseRepository(owner + "/" + repo) == Ok(Repository(owner, repo))
  {
    var s := owner + "/" + repo;
    NamesAreVerbatim(owner);
    NamesAreVerbatim(repo);
    assert s[0] == owner[0] && s[|s| - 1] == repo[|repo| - 1];
    assert IsNameChar(owner[0]) && IsNameChar(repo[|repo| - 1]);
    hide TrimSpace, Split;
    TrimIdle(s);
    SplitAppend(owner, repo);
    SplitWhole(owner);
    SplitWhole(repo);
  }
}
