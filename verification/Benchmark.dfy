/**
The benchmark: one case per fixture, diagnosed through the service, and the report over
all cases. Latencies are whole microseconds as the clock gives them.
*/
module Benchmark {
  import opened Regex
  import opened Text
  import opened Sorting
  import opened Diagnosis
  import DiagnosisLaws
  import Placement
  import PlainText
  import Redaction
  import Gates
  import Int64
  import Locator
  import LocatorLaws
  import Url
  import Service
  import Transport
  import Telemetry

  datatype Fixture = Fixture(
    name: string, runUrl: string, logs: string, expectedCategory: string, jobs: seq<Job>,
    deployment: Option<Gates.Deployment>, annotations: seq<Gates.Annotation>, policies: seq<string>)

  datatype CaseResult = CaseResult(
    name: string, expectedCategory: string, topCategory: string, topCategories: seq<string>,
    matchedTop1: bool, matchedTop3: bool, latencyUs: int)

  const MAX_LOG_BYTES: int := 20 * 1024 * 1024

  const API_HOST: string := "api.github.com"

  const HTTPS: string := "https://"

  const API: string := HTTPS + API_HOST

  /** The adapter reads the located repository again before every call. */
  predicate Readable(l: Locator.RunLocator) {
    Locator.ParseRepository(l.owner + "/" + l.repo).Ok?
  }

  function Served(fixture: Fixture): seq<Job> {
    if fixture.jobs != [] then fixture.jobs else [Job("job", "", "failure", "", "", 0)]
  }

  function FirstOf(s: seq<string>): string {
    if s == [] then "" else s[0]
  }

  /** What adapter and client answer: no run when the repository cannot be read; otherwise
      the fixture's own jobs, or one failed job if it has none. */
  function RemoteOf(hostOf: Url.HostParser, l: Locator.RunLocator, fixture: Fixture): Service.Remote {
    Service.Remote(
      if Readable(l) then None else Some(Transport.Other("repository must be in owner/repo format")),
      Service.Got(Served(fixture)),
      Gates.Provider(
        raw => match Locator.ParseCheckRunURL(hostOf, raw, API) case Ok(id) => Some(id) case Err(_) => None,
        _ => Some(fixture.annotations), _ => fixture.deployment, _ => Some(fixture.policies)),
      _ => Service.Got(fixture.logs))
  }

  ghost function OutcomeFor(find: Finder, hostOf: Url.HostParser, l: Locator.RunLocator, fixture: Fixture): Service.Outcome {
    Service.OutcomeOf(find, MAX_LOG_BYTES, RemoteOf(hostOf, l, fixture), MAX_LOG_BYTES)
  }

  function FirstThree(s: seq<string>): seq<string> {
    if |s| > 3 then s[..3] else s
  }

  /** The categories a case is checked against. */
  ghost function TopOf(find: Finder, fixture: Fixture, category: string): seq<string> {
    if Blank(fixture.logs) then (if Blank(category) then [] else [category])
    else FirstThree(DiagnosisLaws.Categories(Ranking(find, Redaction.Redact(fixture.logs), fixture.jobs)))
  }

  method TopCategories(find: Finder, fixture: Fixture, category: string) returns (top: seq<string>)
    ensures top == TopOf(find, fixture, category)
  {
    hide Ranking, Redaction.Redact, TrimSpace;
    if TrimSpace(fixture.logs) == "" {
      if TrimSpace(category) == "" { return []; }
      return [category];
    }
    var ranked, _ := RankFailureDiagnoses(find, fixture.logs, fixture.jobs);
    ghost var all := DiagnosisLaws.Categories(ranked);
    top := [];
    for i := 0 to |ranked|
      invariant i < 3 && top == all[..i]
    {
      top := top + [ranked[i].category];
      if |top| == 3 { break; }
    }
    if |top| == 0 && TrimSpace(category) != "" {
      return [category];
    }
  }

  method ContainsCategory(categories: seq<string>, want: string) returns (found: bool)
    ensures found <==> want in categories
  {
    for i := 0 to |categories|
      invariant want !in categories[..i]
    {
      if categories[i] == want { return true; }
    }
    found := false;
  }

  /** The run URL is accepted and its repository can be read back. */
  predicate Reachable(hostOf: Url.HostParser, fixture: Fixture) {
    var parsed := Locator.ParseRunURL(hostOf, fixture.runUrl);
    parsed.Ok? && Readable(parsed.value)
  }

  ghost function ResultOf(find: Finder, hostOf: Url.HostParser, fixture: Fixture, latencyUs: int): CaseResult
    requires Reachable(hostOf, fixture)
  {
    var l := Locator.ParseRunURL(hostOf, fixture.runUrl).value;
    var category := Service.CategoryOf(OutcomeFor(find, hostOf, l, fixture));
    var top := TopOf(find, fixture, category);
    CaseResult(fixture.name, fixture.expectedCategory, category, top,
               category == fixture.expectedCategory, fixture.expectedCategory in top, latencyUs)
  }

  /** One case; `None` when the service gives an error. */
  method EvaluateFixture(find: Finder, hostOf: Url.HostParser, fixture: Fixture, latencyUs: int)
    returns (result: Option<CaseResult>)
    ensures result.Some? <==> Reachable(hostOf, fixture)
    ensures result.Some? ==> result.value == ResultOf(find, hostOf, fixture, latencyUs)
  {
    hide Locator.ParseRunURL, RemoteOf, Service.OutcomeOf, TopOf, Readable, Service.CategoryOf;
    var located := Locator.ParseRunURL(hostOf, fixture.runUrl);
    if located.Err? { return None; }
    var remote := RemoteOf(hostOf, located.value, fixture);
    var outcome := Service.DiagnoseRun(find, MAX_LOG_BYTES, remote, MAX_LOG_BYTES);
    RefusedIff(find, hostOf, located.value, fixture);
    if outcome.Refused? { return None; }
    var category := Service.CategoryOf(outcome);
    var top := TopCategories(find, fixture, category);
    var found := ContainsCategory(top, fixture.expectedCategory);
    result := Some(CaseResult(fixture.name, fixture.expectedCategory, category, top,
                              category == fixture.expectedCategory, found, latencyUs));
  }

  // ----- Laws of one case -----

  /** The service fails a located case exactly when the repository cannot be read back. */
  lemma RefusedIff(find: Finder, hostOf: Url.HostParser, l: Locator.RunLocator, fixture: Fixture)
    ensures OutcomeFor(find, hostOf, l, fixture).Refused? <==> !Readable(l)
  {
    hide Ranking, Redaction.Redact, Gates.FirstDiagnosis, DiagnosisOf, Readable;
  }

  /** A case has a result exactly when its URL is accepted and neither owner nor name is blank. */
  lemma ReachableIff(hostOf: Url.HostParser, fixture: Fixture)
    ensures var parsed := Locator.ParseRunURL(hostOf, fixture.runUrl);
            Reachable(hostOf, fixture) <==> parsed.Ok? && !Blank(parsed.value.owner) && !Blank(parsed.value.repo)
  {
    hide Locator.ParseRunURL, Locator.ParseRepository, Blank;
    var parsed := Locator.ParseRunURL(hostOf, fixture.runUrl);
    if parsed.Ok? {
      LocatorLaws.AcceptedNames(hostOf, fixture.runUrl);
      Locator.ReadBackIff(parsed.value.owner, parsed.value.repo);
    }
  }

  /** An accepted run URL without a result: an escaped space as owner. */
  lemma BlankOwnerHasNoResult(hostOf: Url.HostParser, fixture: Fixture)
    requires hostOf(Locator.GITHUB) == Some(Locator.GITHUB) && fixture.runUrl == LocatorLaws.EscapedRunUrl("%20", "r", 1)
    ensures Locator.ParseRunURL(hostOf, fixture.runUrl).Ok? && !Reachable(hostOf, fixture)
  {
    hide *;
    ShortName();
    LocatorLaws.BlankOwnerUnreadable(hostOf, "r", 1);
    Unreachable(hostOf, fixture);
  }

  lemma ShortName()
    ensures Locator.IsName("r") && Int64.Fits(1)
  {
  }

  lemma Unreachable(hostOf: Url.HostParser, fixture: Fixture)
    requires var parsed := Locator.ParseRunURL(hostOf, fixture.runUrl);
             parsed.Ok? && Locator.ParseRepository(parsed.value.owner + "/" + parsed.value.repo).Err?
    ensures !Reachable(hostOf, fixture)
  {
    hide Locator.ParseRunURL, Locator.ParseRepository;
  }

  /** What a result says: its flags compare the expected category with the named one and with
      the top categories, of which there are at most three. */
  lemma ResultMeans(find: Finder, hostOf: Url.HostParser, fixture: Fixture, latencyUs: int)
    requires Reachable(hostOf, fixture)
    ensures var r := ResultOf(find, hostOf, fixture, latencyUs);
            && r.name == fixture.name && r.expectedCategory == fixture.expectedCategory && r.latencyUs == latencyUs
            && (r.matchedTop1 <==> r.topCategory == fixture.expectedCategory)
            && (r.matchedTop3 <==> fixture.expectedCategory in r.topCategories)
            && |r.topCategories| <= 3
            && (TrimSpace(fixture.logs) != "" ==>
                  var ranked := Ranking(find, Redaction.Redact(fixture.logs), fixture.jobs);
                  && |r.topCategories| == (if |ranked| < 3 then |ranked| else 3)
                  && forall i :: 0 <= i < |r.topCategories| ==> r.topCategories[i] == ranked[i].category)
  {
    hide Ranking, Redaction.Redact, TrimSpace, OutcomeFor, Locator.ParseRunURL, Readable, Service.CategoryOf;
  }

  /** A fixture without jobs is served as one failed job, any other as its own. */
  lemma ServedJobs(hostOf: Url.HostParser, l: Locator.RunLocator, fixture: Fixture)
    ensures var jobs := RemoteOf(hostOf, l, fixture).jobs;
            && jobs.Got?
            && (fixture.jobs != [] ==> jobs.value == fixture.jobs)
            && (fixture.jobs == [] ==> |jobs.value| == 1 && jobs.value[0].name == "job" && jobs.value[0].conclusion == "failure")
  {
    hide Readable;
  }

  /** What the service names for a readable case: the gate's category, or the first ranked one. */
  lemma CategoryGiven(find: Finder, hostOf: Url.HostParser, l: Locator.RunLocator, fixture: Fixture)
    requires Readable(l)
    ensures var outcome := OutcomeFor(find, hostOf, l, fixture);
            && !outcome.Refused? && !Blank(Service.CategoryOf(outcome))
            && (outcome.Held? ==> Service.CategoryOf(outcome) == "config_error")
            && (outcome.Diagnosed? ==>
                  Service.CategoryOf(outcome) ==
                  FirstOf(DiagnosisLaws.Categories(Ranking(find, Redaction.Redact(fixture.logs), Served(fixture)))))
  {
    hide OutcomeFor, Ranking, Redaction.Redact, DiagnosisOf, Blank, Readable, Service.CategoryOf;
    var redacted := Redaction.Redact(fixture.logs);
    OutcomeCategory(find, hostOf, l, fixture);
    DiagnosisLaws.DiagnosisIsBest(find, redacted, Served(fixture));
    SomeRanked(find, redacted, Served(fixture));
    NotBlank("config_error");
  }

  lemma OutcomeCategory(find: Finder, hostOf: Url.HostParser, l: Locator.RunLocator, fixture: Fixture)
    requires Readable(l)
    ensures var outcome := OutcomeFor(find, hostOf, l, fixture);
            && !outcome.Refused?
            && (outcome.Held? ==> Service.CategoryOf(outcome) == "config_error")
            && (outcome.Diagnosed? ==>
                  Service.CategoryOf(outcome) == DiagnosisOf(find, Redaction.Redact(fixture.logs), Served(fixture)).category)
  {
    hide Ranking, Redaction.Redact, Gates.FirstDiagnosis, DiagnosisOf, Readable;
    var remote := RemoteOf(hostOf, l, fixture);
    Service.DiagnosedIsConfig(remote.gates, remote.jobs.value);
  }

  /** Some job of the case was held back by an environment gate. */
  ghost predicate HasGate(hostOf: Url.HostParser, l: Locator.RunLocator, fixture: Fixture) {
    var remote := RemoteOf(hostOf, l, fixture);
    exists i :: 0 <= i < |remote.jobs.value| && Gates.Gated(remote.gates, remote.jobs.value[i])
  }

  /** A readable case is decided by a gate exactly when it has one. */
  lemma HeldIff(find: Finder, hostOf: Url.HostParser, l: Locator.RunLocator, fixture: Fixture)
    requires Readable(l)
    ensures OutcomeFor(find, hostOf, l, fixture).Held? <==> HasGate(hostOf, l, fixture)
  {
    hide Ranking, Redaction.Redact, Gates.FirstDiagnosis, Gates.Gated, Gates.DiagnosisFor, DiagnosisOf, Readable;
    var remote := RemoteOf(hostOf, l, fixture);
    Gates.EarliestIsDiagnosed(remote.gates, remote.jobs.value);
  }

  /** A case without a gate, or one with blank logs, is first among its own top categories. */
  lemma TopIsFirst(find: Finder, hostOf: Url.HostParser, l: Locator.RunLocator, fixture: Fixture)
    requires StartsInside(find) && Readable(l)
    requires !HasGate(hostOf, l, fixture) || Blank(fixture.logs)
    ensures var category := Service.CategoryOf(OutcomeFor(find, hostOf, l, fixture));
            var top := TopOf(find, fixture, category);
            top != [] && top[0] == category
  {
    hide Ranking, Redaction.Redact, OutcomeFor, Blank, Service.CategoryOf, HasGate, Readable;
    CategoryGiven(find, hostOf, l, fixture);
    HeldIff(find, hostOf, l, fixture);
    var redacted := Redaction.Redact(fixture.logs);
    DiagnosisLaws.CategoriesIgnoreJobs(find, redacted, RemoteOf(hostOf, l, fixture).jobs.value, fixture.jobs);
    SomeRanked(find, redacted, fixture.jobs);
  }

  lemma SomeRanked(find: Finder, redacted: string, jobs: seq<Job>)
    ensures Ranking(find, redacted, jobs) != []
  {
    hide Candidates, UnknownDiagnosis, Impacted;
  }

  /** The rule for configuration errors. */
  const CONFIG_RULE: nat := 3

  /** The logs match the configuration rule, and at most two matching rules come before it. */
  ghost predicate LogsShowConfig(find: Finder, logs: string) {
    && Score(find, RULES[CONFIG_RULE].patterns, logs) > 0
    && Placement.RulesAhead(find, RULES, logs, CONFIG_RULE, |RULES|) <= 2
  }

  lemma ConfigAmongThree(find: Finder, redacted: string, jobs: seq<Job>)
    ensures "config_error" in FirstThree(DiagnosisLaws.Categories(Ranking(find, redacted, jobs))) <==> LogsShowConfig(find, redacted)
  {
    hide Ranking, Score, Placement.RulesAhead;
    var r := Ranking(find, redacted, jobs);
    Placement.AmongFirstIff(find, redacted, jobs, CONFIG_RULE, 3);
    assert RULES[CONFIG_RULE].category == "config_error";
    var c := DiagnosisLaws.Categories(r);
    assert forall p :: 0 <= p < |FirstThree(c)| ==> FirstThree(c)[p] == r[p].category;
    if p :| 0 <= p < |r| && p < 3 && r[p].category == "config_error" {
      assert FirstThree(c)[p] == "config_error";
    }
  }

  /** When matching the first category implies matching one of the top three. */
  ghost predicate Consistent(find: Finder, hostOf: Url.HostParser, l: Locator.RunLocator, fixture: Fixture) {
    || !HasGate(hostOf, l, fixture) || Blank(fixture.logs) || fixture.expectedCategory != "config_error"
    || LogsShowConfig(find, Redaction.Redact(fixture.logs))
  }

  /** The condition for a case whose run can be reached. */
  ghost predicate ConsistentCase(find: Finder, hostOf: Url.HostParser, fixture: Fixture) {
    Reachable(hostOf, fixture) ==>
      Consistent(find, hostOf, Locator.ParseRunURL(hostOf, fixture.runUrl).value, fixture)
  }

  /** Matching the first category implies matching the top three exactly when no job is held
      back by a gate, or the logs are blank, or the gate's category is not the expected one,
      or the logs show it too. */
  lemma Top1ImpliesTop3Iff(find: Finder, hostOf: Url.HostParser, l: Locator.RunLocator, fixture: Fixture)
    requires StartsInside(find) && Readable(l)
    ensures var category := Service.CategoryOf(OutcomeFor(find, hostOf, l, fixture));
            (category == fixture.expectedCategory ==> fixture.expectedCategory in TopOf(find, fixture, category)) <==>
            Consistent(find, hostOf, l, fixture)
  {
    hide Ranking, Redaction.Redact, OutcomeFor, Blank, Service.CategoryOf, HasGate, LogsShowConfig, RemoteOf, Readable, FirstThree;
    CategoryGiven(find, hostOf, l, fixture);
    HeldIff(find, hostOf, l, fixture);
    ConfigAmongThree(find, Redaction.Redact(fixture.logs), fixture.jobs);
    if !HasGate(hostOf, l, fixture) || Blank(fixture.logs) {
      TopIsFirst(find, hostOf, l, fixture);
    }
  }

  // ----- A case that misses -----

  const REJECTION: string := "deployment was rejected"

  /** A deployment job rejected before its first step, and logs that say nothing. */
  const REJECTED: Fixture := Fixture(
    "rejected", Locator.RunUrlOf("o", "r", 1), "x", "config_error",
    [Job("deploy", "completed", "failure", "main", API + LocatorLaws.CheckRunPath("o", "r", 1), 0)],
    None, [Gates.Annotation(1, REJECTION)], [])

  /** The hosts of the URLs involved are read as they are written. */
  predicate ReadsHosts(hostOf: Url.HostParser) {
    && hostOf(Locator.GITHUB) == Some(Locator.GITHUB) && hostOf(API_HOST) == Some(API_HOST)
    && hostOf("") == Some("")
  }

  lemma ApiHost()
    ensures API_HOST != "" && Locator.IsName(API_HOST) && '/' !in API_HOST && Locator.Verbatim(API_HOST)
  {
    Locator.NamesAreVerbatim(API_HOST);
  }

  lemma ApiScheme()
    ensures Url.SchemeEnd(API, 0) == Some(5) && API[6..] == "//" + API_HOST
  {
    hide API_HOST;
    assert API[5] == ':';
    assert Url.SchemeEnd(API, 5) == Some(5);
    assert Url.SchemeEnd(API, 4) == Some(5);
    assert Url.SchemeEnd(API, 3) == Some(5);
    assert Url.SchemeEnd(API, 2) == Some(5);
    assert Url.SchemeEnd(API, 1) == Some(5);
  }

  lemma HttpsIsVerbatim()
    ensures Locator.Verbatim(HTTPS) && Locator.Verbatim("//") && |HTTPS| == 8 && !IsSpace(HTTPS[0])
  {
  }

  lemma Ends(a: string, b: string)
    requires a != "" && b != ""
    ensures (a + b)[0] == a[0] && (a + b)[|a + b| - 1] == b[|b| - 1]
  {
  }

  lemma HttpsText(host: string)
    requires Locator.Verbatim(host) && host != "" && !IsSpace(host[|host| - 1])
    ensures var u := HTTPS + host;
            |u| > 8 && !IsSpace(u[0]) && TrimSpace(u) == u && Locator.Verbatim(u)
  {
    hide *;
    HttpsIsVerbatim();
    Ends(HTTPS, host);
    Locator.VerbatimConcat(HTTPS, host);
    TrimIdle(HTTPS + host);
  }

  lemma ApiHostEnd()
    ensures !IsSpace(API_HOST[|API_HOST| - 1])
  {
    assert API_HOST[13] == 'm';
  }

  lemma ApiIsHttps()
    ensures API == HTTPS + API_HOST
  {
  }

  lemma ApiText()
    ensures |API| > 8 && !IsSpace(API[0]) && TrimSpace(API) == API && Locator.Verbatim(API)
  {
    hide *;
    ApiHost();
    ApiHostEnd();
    ApiIsHttps();
    HttpsText(API_HOST);
  }

  lemma ApiAuthority(hostOf: Url.HostParser)
    requires ReadsHosts(hostOf)
    ensures Url.ParseHierarchy(hostOf, true, "//" + API_HOST) == Some(Url.Url(API_HOST, ""))
  {
    ApiHost();
    hide API_HOST, Url.IndexOf, Locator.IsName, Locator.Verbatim;
    var rest := "//" + API_HOST;
    assert rest[2..] == API_HOST;
    Url.IndexIn(API_HOST, '/');
    assert API_HOST[..|API_HOST|] == API_HOST && API_HOST[|API_HOST|..] == "";
  }

  lemma ApiParses(hostOf: Url.HostParser)
    requires ReadsHosts(hostOf)
    ensures Url.Parse(hostOf, API) == Some(Url.Url(API_HOST, ""))
  {
    ApiScheme();
    ApiText();
    ApiAuthority(hostOf);
    ApiHost();
    HttpsIsVerbatim();
    hide API, API_HOST, Url.Before, Url.ParseHierarchy, Url.SchemeEnd, Url.HasControl, Url.Decode, TrimSpace, Locator.IsName;
    Locator.VerbatimConcat("//", API_HOST);
    Locator.BeforeWhole(API, '#');
    Locator.BeforeWhole("//" + API_HOST, '?');
    LocatorLaws.ParseWithoutFragment(hostOf, API);
  }

  lemma RejectedNames()
    ensures Locator.IsName("o") && Locator.IsName("r") && Int64.Fits(1)
  {
  }

  lemma RejectedReachable(hostOf: Url.HostParser) returns (l: Locator.RunLocator)
    requires ReadsHosts(hostOf)
    ensures Reachable(hostOf, REJECTED) && Locator.ParseRunURL(hostOf, REJECTED.runUrl) == Locator.Ok(l) && Readable(l)
  {
    hide Locator.ParseRunURL, Locator.ParseRepository, Locator.RunUrlOf, Locator.IsName, LocatorLaws.CheckRunPath;
    RejectedNames();
    Locator.NamesAreVerbatim("o");
    Locator.NamesAreVerbatim("r");
    Locator.CanonicalParses(hostOf, "o", "r", 1);
    Locator.RepositoryRoundTrip("o", "r");
    l := Locator.ParseRunURL(hostOf, REJECTED.runUrl).value;
  }

  lemma RejectionIsLowered()
    ensures Gates.IsLowered(REJECTION)
  {
  }

  lemma RejectionIsPhrase()
    ensures |Gates.PHRASES| == 3 && REJECTION == Gates.PHRASES[2] && TrimSpace(REJECTION) == REJECTION
  {
    hide TrimSpace, TrimLeft, TrimRight;
    TrimIdle(REJECTION);
  }

  lemma RejectionShows()
    ensures TrimSpace(REJECTION) == REJECTION != "" && Gates.ShowsProtection(REJECTION)
  {
    RejectionIsPhrase();
    RejectionIsLowered();
    hide REJECTION, Gates.IsLowered, TrimSpace, ToLower, Gates.Contains;
    Gates.LoweredPiece(REJECTION, 0, REJECTION);
    Gates.ContainsPiece(ToLower(REJECTION), 0, REJECTION);
  }

  lemma RejectedJob(hostOf: Url.HostParser)
    requires ReadsHosts(hostOf)
    ensures var job := REJECTED.jobs[0];
            Gates.Eligible(job) && Locator.ParseCheckRunURL(hostOf, job.checkRunUrl, API) == Locator.Ok(1)
  {
    hide API, API_HOST, LocatorLaws.CheckRunPath, Locator.IsName, Locator.ParseCheckRunURLForBase, TrimSpace, IsSpace;
    RejectedNames();
    ApiText();
    ApiHost();
    ApiParses(hostOf);
    LocatorLaws.CheckRunRoundTrip(hostOf, API, "o", "r", 1);
    NotBlank(API + LocatorLaws.CheckRunPath("o", "r", 1));
    NotBlank(API);
  }

  /** An eligible job with an annotation that shows a protection rule is gated. */
  lemma ShownIsGated(hostOf: Url.HostParser, l: Locator.RunLocator, fixture: Fixture, i: nat, a: Gates.Annotation)
    requires i < |fixture.jobs| && Gates.Eligible(fixture.jobs[i])
    requires Locator.ParseCheckRunURL(hostOf, fixture.jobs[i].checkRunUrl, API).Ok?
    requires a in fixture.annotations && Gates.Message(a) != "" && Gates.ShowsProtection(Gates.Message(a))
    ensures HasGate(hostOf, l, fixture)
  {
    hide Gates.Eligible, Locator.ParseCheckRunURL, Gates.ShowsProtection, Gates.Message, API, Readable;
    var remote := RemoteOf(hostOf, l, fixture);
    assert Gates.AnnotationsOf(remote.gates, remote.jobs.value[i]) == fixture.annotations;
    assert Gates.Shows(fixture.annotations, Gates.Protection);
    assert Gates.Gated(remote.gates, remote.jobs.value[i]);
  }

  lemma RejectedIsGated(hostOf: Url.HostParser, l: Locator.RunLocator)
    requires ReadsHosts(hostOf)
    ensures HasGate(hostOf, l, REJECTED)
  {
    RejectedJob(hostOf);
    RejectionShows();
    hide HasGate, Gates.Eligible, Locator.ParseCheckRunURL, Gates.ShowsProtection, TrimSpace, API, REJECTION;
    ShownIsGated(hostOf, l, REJECTED, 0, REJECTED.annotations[0]);
  }

  lemma SilentText()
    ensures PlainText.IsPlain("x") && !Blank("x")
  {
    hide TrimSpace, TrimLeft, TrimRight;
    NotBlank("x");
  }

  lemma ConfigIsRule()
    ensures CONFIG_RULE < |RULES|
  {
  }

  lemma SilentLogs(find: Finder)
    requires forall k, i :: 0 <= k < |RULES| && 0 <= i < |RULES[k].patterns| ==> find(RULES[k].patterns[i], "x") == []
    ensures Redaction.Redact("x") == "x" && !Blank("x") && !LogsShowConfig(find, "x")
  {
    ConfigIsRule();
    hide RULES, Redaction.Redact, Score, Blank, Placement.RulesAhead, PlainText.IsPlain;
    SilentText();
    PlainText.PlainTextIsKept("x");
    DiagnosisLaws.NoScore(find, RULES[CONFIG_RULE].patterns, "x");
  }

  /** A job rejected by an environment gate, with logs that match no rule: the case is right
      first, and yet not among its top three. */
  lemma GatedCaseMisses(find: Finder, hostOf: Url.HostParser, l: Locator.RunLocator)
    requires ReadsHosts(hostOf) && Locator.ParseRunURL(hostOf, REJECTED.runUrl) == Locator.Ok(l)
    requires forall k, i :: 0 <= k < |RULES| && 0 <= i < |RULES[k].patterns| ==> find(RULES[k].patterns[i], REJECTED.logs) == []
    ensures Readable(l) && OutcomeFor(find, hostOf, l, REJECTED).Held?
    ensures var category := Service.CategoryOf(OutcomeFor(find, hostOf, l, REJECTED));
            category == REJECTED.expectedCategory && REJECTED.expectedCategory !in TopOf(find, REJECTED, category)
  {
    SilentLogs(find);
    hide Redaction.Redact, OutcomeFor, Blank, Service.CategoryOf, HasGate, LogsShowConfig, Readable, FirstThree, Ranking;
    hide Locator.ParseRunURL, API, Locator.RunUrlOf, LocatorLaws.CheckRunPath;
    var _ := RejectedReachable(hostOf);
    RejectedIsGated(hostOf, l);
    HeldIff(find, hostOf, l, REJECTED);
    CategoryGiven(find, hostOf, l, REJECTED);
    ConfigAmongThree(find, "x", REJECTED.jobs);
  }

  // ----- The report -----

  datatype Report = Report(
    cases: nat, top1Accuracy: real, top3Accuracy: real, averageLatencyMs: real, p95LatencyMs: real)

  function Hits1(results: seq<CaseResult>): nat {
    if results == [] then 0 else Hits1(results[..|results| - 1]) + (if results[|results| - 1].matchedTop1 then 1 else 0)
  }

  function Hits3(results: seq<CaseResult>): nat {
    if results == [] then 0 else Hits3(results[..|results| - 1]) + (if results[|results| - 1].matchedTop3 then 1 else 0)
  }

  function LatenciesOf(results: seq<CaseResult>): (r: seq<int>)
    ensures |r| == |results| && forall i :: 0 <= i < |r| ==> r[i] == results[i].latencyUs
  {
    if results == [] then [] else LatenciesOf(results[..|results| - 1]) + [results[|results| - 1].latencyUs]
  }

  function FromMicroseconds(us: real): real { us / 1000.0 }

  function ReportOf(results: seq<CaseResult>): Report {
    if results == [] then Report(0, 0.0, 0.0, 0.0, 0.0)
    else
      var n := |results|;
      Report(n, Hits1(results) as real / n as real, Hits3(results) as real / n as real,
             FromMicroseconds(Telemetry.Sum(LatenciesOf(results)) as real / n as real),
             FromMicroseconds(Telemetry.P95(LatenciesOf(results)) as real))
  }

  method AverageLatency(values: seq<int>) returns (average: real)
    ensures average == if values == [] then 0.0 else FromMicroseconds(Telemetry.Sum(values) as real / |values| as real)
  {
    if |values| == 0 { return 0.0; }
    var total := 0;
    for i := 0 to |values|
      invariant total == Telemetry.Sum(values[..i])
    {
      assert values[..i + 1][..i] == values[..i];
      total := total + values[i];
    }
    assert values[..|values|] == values;
    average := FromMicroseconds(total as real / |values| as real);
  }

  method Percentile95Latency(values: seq<int>) returns (p: real)
    ensures p == FromMicroseconds(Telemetry.P95(values) as real)
    ensures exists us :: Telemetry.IsP95(values, us) && p == us as real / 1000.0
  {
    if |values| == 0 {
      Telemetry.NoP95();
      return 0.0;
    }
    Telemetry.P95InValues(values);
    var copyValues := SortInts(values);
    var idx: int := Telemetry.Rank95(|copyValues|);
    if idx < 0 { idx := 0; }
    if idx >= |copyValues| { idx := |copyValues| - 1; }
    p := FromMicroseconds(copyValues[idx] as real);
  }

  method SummarizeResults(results: seq<CaseResult>) returns (report: Report)
    ensures report == ReportOf(results)
  {
    hide Telemetry.Sum, Telemetry.P95, FromMicroseconds;
    if |results| == 0 { return Report(0, 0.0, 0.0, 0.0, 0.0); }
    var latencies: seq<int>, top1Correct, top3Correct := [], 0, 0;
    for i := 0 to |results|
      invariant latencies == LatenciesOf(results[..i])
      invariant top1Correct == Hits1(results[..i]) && top3Correct == Hits3(results[..i])
    {
      assert results[..i + 1][..i] == results[..i];
      if results[i].matchedTop1 { top1Correct := top1Correct + 1; }
      if results[i].matchedTop3 { top3Correct := top3Correct + 1; }
      latencies := latencies + [results[i].latencyUs];
    }
    assert results[..|results|] == results;
    var average := AverageLatency(latencies);
    var p95 := Percentile95Latency(latencies);
    report := Report(|results|, top1Correct as real / |results| as real, top3Correct as real / |results| as real, average, p95);
  }

  // ----- Laws of the report -----

  lemma {:induction false} HitsCounted(results: seq<CaseResult>) returns (first: set<int>, three: set<int>)
    ensures Hits1(results) == |first| && Hits3(results) == |three|
    ensures forall i :: i in first <==> 0 <= i < |results| && results[i].matchedTop1
    ensures forall i :: i in three <==> 0 <= i < |results| && results[i].matchedTop3
  {
    first, three := {}, {};
    if results != [] {
      var n := |results| - 1;
      first, three := HitsCounted(results[..n]);
      if results[n].matchedTop1 { first := first + {n}; }
      if results[n].matchedTop3 { three := three + {n}; }
    }
  }

  /** The accuracies are the shares of the cases that match first, and among the top three. */
  lemma AccuraciesCount(results: seq<CaseResult>)
    requires results != []
    ensures var r := ReportOf(results);
            && r.cases == |results|
            && r.top1Accuracy * |results| as real == |set i | 0 <= i < |results| && results[i].matchedTop1| as real
            && r.top3Accuracy * |results| as real == |set i | 0 <= i < |results| && results[i].matchedTop3| as real
  {
    hide Hits1, Hits3, LatenciesOf, Telemetry.Sum, Telemetry.P95;
    var first, three := HitsCounted(results);
    assert first == set i | 0 <= i < |results| && results[i].matchedTop1;
    assert three == set i | 0 <= i < |results| && results[i].matchedTop3;
  }

  lemma {:induction false} HitsOrdered(results: seq<CaseResult>)
    ensures Hits1(results) <= |results| && Hits3(results) <= |results|
    ensures (forall i :: 0 <= i < |results| && results[i].matchedTop1 ==> results[i].matchedTop3) ==> Hits1(results) <= Hits3(results)
  {
    if results != [] { HitsOrdered(results[..|results| - 1]); }
  }

  /** The accuracies are proportions, and the top-three accuracy is at least the top-one
      accuracy when no case is right first and yet not among its top three. */
  lemma AccuracyOrdered(results: seq<CaseResult>)
    ensures var r := ReportOf(results);
            && 0.0 <= r.top1Accuracy <= 1.0 && 0.0 <= r.top3Accuracy <= 1.0
            && ((forall i :: 0 <= i < |results| && results[i].matchedTop1 ==> results[i].matchedTop3) ==>
                  r.top1Accuracy <= r.top3Accuracy)
  {
    hide Hits1, Hits3, LatenciesOf, Telemetry.Sum, Telemetry.P95;
    HitsOrdered(results);
    if results != [] {
      var n := |results| as real;
      Ratio(0.0, Hits1(results) as real, n);
      Ratio(Hits1(results) as real, n, n);
      Ratio(0.0, Hits3(results) as real, n);
      Ratio(Hits3(results) as real, n, n);
      if Hits1(results) <= Hits3(results) { Ratio(Hits1(results) as real, Hits3(results) as real, n); }
    }
  }

  lemma Ratio(x: real, y: real, n: real)
    requires 0.0 < n && x <= y
    ensures x / n <= y / n && n / n == 1.0 && 0.0 / n == 0.0
  {
  }

  /** Average and 95th percentile lie between the shortest and the longest latency, and the
      percentile is the latency of its rank. */
  lemma LatenciesWithin(results: seq<CaseResult>, low: int, high: int)
    requires results != [] && forall i :: 0 <= i < |results| ==> low <= results[i].latencyUs <= high
    ensures var r := ReportOf(results);
            && FromMicroseconds(low as real) <= r.averageLatencyMs <= FromMicroseconds(high as real)
            && FromMicroseconds(low as real) <= r.p95LatencyMs <= FromMicroseconds(high as real)
            && exists p :: Telemetry.IsP95(LatenciesOf(results), p) && r.p95LatencyMs == p as real / 1000.0
  {
    hide Hits1, Hits3, Telemetry.Sum, Telemetry.P95, Telemetry.IsP95;
    var values := LatenciesOf(results);
    var n := |results|;
    Telemetry.SumBounds(values, low, high);
    MeanWithin(Telemetry.Sum(values), n, low, high);
    Telemetry.P95InValues(values);
    P95IsOne(values);
    assert Telemetry.P95(values) in values;
  }

  lemma P95IsOne(values: seq<int>)
    requires values != []
    ensures Telemetry.P95(values) in values
  {
    hide HasRank, Telemetry.P95;
    Telemetry.P95InValues(values);
  }

  lemma MeanWithin(sum: int, n: nat, low: int, high: int)
    requires n > 0 && n * low <= sum <= n * high
    ensures low as real <= sum as real / n as real <= high as real
  {
    Ratio((n * low) as real, sum as real, n as real);
    Ratio(sum as real, (n * high) as real, n as real);
    Exact(low, n);
    Exact(high, n);
  }

  lemma Exact(x: int, n: nat)
    requires n > 0
    ensures (n * x) as real / n as real == x as real
  {
    assert (n * x) as real == n as real * x as real;
  }

  // ----- The whole benchmark -----

  ghost predicate ResultsOf(find: Finder, hostOf: Url.HostParser, fixtures: seq<Fixture>, results: seq<CaseResult>) {
    && |results| == |fixtures|
    && forall i :: 0 <= i < |fixtures| ==>
         Reachable(hostOf, fixtures[i]) && results[i] == ResultOf(find, hostOf, fixtures[i], results[i].latencyUs)
  }

  /** The loop over the fixtures, with the latency measured for each; the first case the
      service fails ends it. */
  method RunCases(find: Finder, hostOf: Url.HostParser, fixtures: seq<Fixture>, latencies: seq<int>)
    returns (report: Option<Report>, ghost results: seq<CaseResult>)
    requires |latencies| == |fixtures|
    ensures report.Some? <==> fixtures != [] && forall i :: 0 <= i < |fixtures| ==> Reachable(hostOf, fixtures[i])
    ensures report.Some? ==>
              && ResultsOf(find, hostOf, fixtures, results) && LatenciesOf(results) == latencies
              && report.value == ReportOf(results)
  {
    hide *;
    results := [];
    if |fixtures| == 0 { return None, results; }
    var cases: seq<CaseResult> := [];
    NoCases(find, hostOf, fixtures, latencies);
    for i := 0 to |fixtures|
      invariant |cases| == i && CasesOf(find, hostOf, fixtures, latencies, cases)
    {
      var result := EvaluateFixture(find, hostOf, fixtures[i], latencies[i]);
      if result.None? { return None, results; }
      OneMoreCase(find, hostOf, fixtures, latencies, cases, result.value);
      cases := cases + [result.value];
    }
    AllCases(find, hostOf, fixtures, latencies, cases);
    results := cases;
    var summary := SummarizeResults(cases);
    report := Some(summary);
  }

  /** The cases so far are those of the first fixtures. */
  ghost predicate CasesOf(find: Finder, hostOf: Url.HostParser, fixtures: seq<Fixture>, latencies: seq<int>, cases: seq<CaseResult>) {
    && |cases| <= |fixtures| == |latencies|
    && forall k :: 0 <= k < |cases| ==>
         Reachable(hostOf, fixtures[k]) && cases[k] == ResultOf(find, hostOf, fixtures[k], latencies[k])
  }

  lemma NoCases(find: Finder, hostOf: Url.HostParser, fixtures: seq<Fixture>, latencies: seq<int>)
    requires |latencies| == |fixtures|
    ensures CasesOf(find, hostOf, fixtures, latencies, [])
  {
  }

  lemma OneMoreCase(find: Finder, hostOf: Url.HostParser, fixtures: seq<Fixture>, latencies: seq<int>,
                    cases: seq<CaseResult>, next: CaseResult)
    requires CasesOf(find, hostOf, fixtures, latencies, cases) && |cases| < |fixtures|
    requires Reachable(hostOf, fixtures[|cases|]) && next == ResultOf(find, hostOf, fixtures[|cases|], latencies[|cases|])
    ensures CasesOf(find, hostOf, fixtures, latencies, cases + [next])
  {
    hide Reachable, ResultOf;
  }

  lemma LatencyKept(find: Finder, hostOf: Url.HostParser, fixture: Fixture, latencyUs: int)
    requires Reachable(hostOf, fixture)
    ensures ResultOf(find, hostOf, fixture, latencyUs).latencyUs == latencyUs
  {
    hide Reachable, OutcomeFor, TopOf;
  }

  lemma AllCases(find: Finder, hostOf: Url.HostParser, fixtures: seq<Fixture>, latencies: seq<int>, cases: seq<CaseResult>)
    requires CasesOf(find, hostOf, fixtures, latencies, cases) && |cases| == |fixtures|
    ensures ResultsOf(find, hostOf, fixtures, cases) && LatenciesOf(cases) == latencies
    ensures forall i :: 0 <= i < |fixtures| ==> Reachable(hostOf, fixtures[i])
  {
    hide Reachable, ResultOf, LatenciesOf;
    forall i | 0 <= i < |cases| ensures cases[i].latencyUs == latencies[i] {
      LatencyKept(find, hostOf, fixtures[i], latencies[i]);
    }
    assert LatenciesOf(cases) == latencies;
  }

  /** If every fixture satisfies the condition of its case, the top-three accuracy is at
      least the top-one accuracy. */
  lemma SuiteOrdered(find: Finder, hostOf: Url.HostParser, fixtures: seq<Fixture>, results: seq<CaseResult>)
    requires StartsInside(find) && ResultsOf(find, hostOf, fixtures, results)
    requires forall i :: 0 <= i < |fixtures| ==> ConsistentCase(find, hostOf, fixtures[i])
    ensures ReportOf(results).top1Accuracy <= ReportOf(results).top3Accuracy
  {
    hide ReportOf, Locator.ParseRunURL, OutcomeFor, TopOf, Consistent, Readable, Service.CategoryOf;
    forall i | 0 <= i < |results| && results[i].matchedTop1 ensures results[i].matchedTop3 {
      assert ConsistentCase(find, hostOf, fixtures[i]);
      Top1ImpliesTop3Iff(find, hostOf, Locator.ParseRunURL(hostOf, fixtures[i].runUrl).value, fixtures[i]);
    }
    AccuracyOrdered(results);
  }
}
