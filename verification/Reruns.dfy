/**
Reruns and their audit trail. A service hands accepted requests to a provider and
appends one event per provider call to a store. Which requests the provider and the
store fail is given with each request.
*/
module Reruns {
  import opened Regex
  import opened Text
  import opened Transport
  import opened Locator
  import Url

  datatype Config = Config(actor: string, disableMutations: bool, providers: set<string>, defaultProvider: string)

  datatype Request = Request(provider: string, repository: string, runId: int, failedJobsOnly: bool, reason: string)

  /** What happens to a request on the outside: the provider's error, if any, and whether an append works. */
  datatype Fate = Fate(failure: Option<Error>, appends: bool)

  datatype Call = Call(provider: string, repository: string, runId: int, failedJobsOnly: bool)

  datatype AuditEvent = AuditEvent(
    tool: string, actor: string, repository: string, runId: int, reason: string, scope: string, outcome: string)

  datatype RerunResult = RerunResult(
    runId: int, repository: string, scope: string, status: string, reason: string, actor: string)

  datatype Response = Granted(result: RerunResult) | Refused(error: ToolError)

  // ----- Reading a request -----

  /** The adapter a request names; the default when it names none. */
  function ResolveProvider(config: Config, provider: string): Option<string> {
    var selected := if TrimSpace(provider) == "" then config.defaultProvider else TrimSpace(provider);
    if selected in config.providers then Some(selected) else None
  }

  /** The adapter's canonical form of a repository identifier. */
  function CanonicalRepository(repository: string): Option<string> {
    match ParseRepository(repository)
    case Ok(r) => Some(r.owner + "/" + r.name)
    case Err(_) => None
  }

  predicate WellFormed(config: Config, request: Request) {
    && ResolveProvider(config, request.provider).Some?
    && !Blank(request.reason)
    && CanonicalRepository(request.repository).Some?
    && request.runId > 0
  }

  /** Requests that reach the provider. */
  predicate Accepted(config: Config, request: Request) {
    WellFormed(config, request) && !config.disableMutations
  }

  function ScopeName(failedJobsOnly: bool): string {
    if failedJobsOnly then "failed_jobs_only" else "full_run"
  }

  // ----- What the outside sees -----

  datatype World = World(calls: seq<Call>, attempts: seq<AuditEvent>, stored: seq<AuditEvent>)

  function CallFor(config: Config, request: Request): Call
    requires Accepted(config, request)
  {
    Call(ResolveProvider(config, request.provider).value, CanonicalRepository(request.repository).value,
         request.runId, request.failedJobsOnly)
  }

  function EventFor(config: Config, request: Request, fate: Fate): AuditEvent
    requires Accepted(config, request)
  {
    AuditEvent("pipeline.rerun", config.actor, CanonicalRepository(request.repository).value, request.runId,
               request.reason, ScopeName(request.failedJobsOnly), if fate.failure.None? then "success" else "failed")
  }

  function Step(config: Config, world: World, request: Request, fate: Fate): World {
    if !Accepted(config, request) then world
    else
      var event := EventFor(config, request, fate);
      World(world.calls + [CallFor(config, request)],
            world.attempts + [event],
            if fate.appends then world.stored + [event] else world.stored)
  }

  function ResponseTo(config: Config, request: Request, fate: Fate): Response {
    if !WellFormed(config, request) then Refused(ToolError(INVALID_INPUT, false))
    else if config.disableMutations then Refused(ToolError(UNAUTHORIZED, false))
    else if fate.failure.Some? then Refused(MapError(fate.failure.value))
    else
      Granted(RerunResult(request.runId, CanonicalRepository(request.repository).value,
                          ScopeName(request.failedJobsOnly), "requested", request.reason, config.actor))
  }

  // ----- The service -----

  class Gateway {
    var calls: seq<Call>

    constructor ()
      ensures calls == []
    {
      calls := [];
    }

    method Rerun(provider: string, repository: string, runId: int, failedJobsOnly: bool, failure: Option<Error>)
      returns (err: Option<Error>)
      modifies this
      ensures calls == old(calls) + [Call(provider, repository, runId, failedJobsOnly)] && err == failure
    {
      calls := calls + [Call(provider, repository, runId, failedJobsOnly)];
      err := failure;
    }
  }

  class Store {
    var events: seq<AuditEvent>
    ghost var attempts: seq<AuditEvent>

    constructor ()
      ensures events == [] && attempts == []
    {
      events, attempts := [], [];
    }

    method Append(event: AuditEvent, works: bool) returns (ok: bool)
      modifies this
      ensures ok == works && attempts == old(attempts) + [event]
      ensures events == if ok then old(events) + [event] else old(events)
    {
      attempts := attempts + [event];
      if works { events := events + [event]; }
      ok := works;
    }
  }

  class Service {
    const config: Config
    const gateway: Gateway
    const store: Store

    ghost function Seen(): World
      reads gateway, store
    {
      World(gateway.calls, store.attempts, store.events)
    }

    constructor (config: Config, gateway: Gateway, store: Store)
      ensures this.config == config && this.gateway == gateway && this.store == store
    {
      this.config, this.gateway, this.store := config, gateway, store;
    }

    method EmitAudit(repository: string, runId: int, reason: string, scope: string, outcome: string, works: bool)
      returns (ok: bool)
      modifies store
      ensures var event := AuditEvent("pipeline.rerun", config.actor, repository, runId, reason, scope, outcome);
              && ok == works && store.attempts == old(store.attempts) + [event]
              && store.events == if ok then old(store.events) + [event] else old(store.events)
    {
      ok := store.Append(AuditEvent("pipeline.rerun", config.actor, repository, runId, reason, scope, outcome), works);
    }

    method Rerun(request: Request, fate: Fate) returns (response: Response)
      modifies gateway, store
      ensures Seen() == Step(config, old(Seen()), request, fate)
      ensures response == ResponseTo(config, request, fate)
    {
      hide ParseRepository, TrimSpace, MapError;
      var provider := ResolveProvider(config, request.provider);
      if provider.None? { return Refused(ToolError(INVALID_INPUT, false)); }
      if TrimSpace(request.reason) == "" { return Refused(ToolError(INVALID_INPUT, false)); }
      var repository := CanonicalRepository(request.repository);
      if repository.None? { return Refused(ToolError(INVALID_INPUT, false)); }
      if request.runId <= 0 { return Refused(ToolError(INVALID_INPUT, false)); }
      if config.disableMutations { return Refused(ToolError(UNAUTHORIZED, false)); }

      var scope := "full_run";
      if request.failedJobsOnly { scope := "failed_jobs_only"; }
      var result := RerunResult(request.runId, repository.value, scope, "requested", request.reason, config.actor);

      var err := gateway.Rerun(provider.value, repository.value, request.runId, request.failedJobsOnly, fate.failure);
      var outcome := "success";
      if err.Some? {
        outcome := "failed";
        var mapped := MapError(err.value);
        var _ := EmitAudit(repository.value, request.runId, request.reason, scope, outcome, fate.appends);
        return Refused(mapped);
      }
      var _ := EmitAudit(repository.value, request.runId, request.reason, scope, outcome, fate.appends);
      response := Granted(result);
    }
  }

  // ----- Whole runs -----

  datatype Item = Item(request: Request, fate: Fate)

  /** The outside after serving a history of requests from a fresh start. */
  function After(config: Config, history: seq<Item>): World {
    if history == [] then World([], [], [])
    else
      var last := history[|history| - 1];
      Step(config, After(config, history[..|history| - 1]), last.request, last.fate)
  }

  function AcceptedIn(config: Config, history: seq<Item>): (r: seq<Item>)
    ensures forall i :: 0 <= i < |r| ==> r[i] in history && Accepted(config, r[i].request)
  {
    if history == [] then []
    else
      var last := history[|history| - 1];
      AcceptedIn(config, history[..|history| - 1]) + (if Accepted(config, last.request) then [last] else [])
  }

  function GrantedIn(config: Config, history: seq<Item>): seq<RerunResult> {
    if history == [] then []
    else
      var last := history[|history| - 1];
      var response := ResponseTo(config, last.request, last.fate);
      GrantedIn(config, history[..|history| - 1]) + (if response.Granted? then [response.result] else [])
  }

  /** The provider a request is for: the one it names, or the default if it names none. */
  predicate IsFor(config: Config, request: Request, provider: string) {
    provider == if Blank(request.provider) then config.defaultProvider else TrimSpace(request.provider)
  }

  /** The scope of a rerun, by name. */
  predicate NamesScope(scope: string, failedJobsOnly: bool) {
    && (scope == "failed_jobs_only" <==> failedJobsOnly)
    && (scope == "full_run" <==> !failedJobsOnly)
  }

  /** A call, the event for it and the request behind both say the same. */
  predicate Agree(config: Config, call: Call, event: AuditEvent, item: Item) {
    && call.repository == event.repository == TrimSpace(item.request.repository)
    && IsFor(config, item.request, call.provider) && call.provider in config.providers
    && call.runId == event.runId == item.request.runId && 0 < call.runId
    && event.reason == item.request.reason && !Blank(event.reason)
    && NamesScope(event.scope, call.failedJobsOnly) && call.failedJobsOnly == item.request.failedJobsOnly
    && event.tool == "pipeline.rerun" && event.actor == config.actor
    && event.outcome in {"success", "failed"}
    && (event.outcome == "success" <==> item.fate.failure.None?)
    && (event.outcome == "success" <==> ResponseTo(config, item.request, item.fate).Granted?)
  }

  lemma AgreeOne(config: Config, item: Item)
    requires Accepted(config, item.request)
    ensures Agree(config, CallFor(config, item.request), EventFor(config, item.request, item.fate), item)
  {
    CanonicalIsTrimmed(item.request.repository);
    hide ParseRepository, TrimSpace, MapError, CanonicalRepository;
  }

  /** Over every history: provider calls and audit attempts correspond one to one, in the
      order of the accepted requests, and nothing else leaves a trace. */
  lemma {:induction false} AuditTrail(config: Config, history: seq<Item>)
    ensures var w, accepted := After(config, history), AcceptedIn(config, history);
            && |w.calls| == |accepted| == |w.attempts|
            && forall i :: 0 <= i < |accepted| ==> Agree(config, w.calls[i], w.attempts[i], accepted[i])
  {
    hide Agree, Accepted, CallFor, EventFor;
    if history != [] {
      var n := |history| - 1;
      AuditTrail(config, history[..n]);
      if Accepted(config, history[n].request) { AgreeOne(config, history[n]); }
    }
  }

  /** The attempts whose append works. */
  function Kept(attempts: seq<AuditEvent>, items: seq<Item>): seq<AuditEvent>
    requires |attempts| == |items|
  {
    if attempts == [] then []
    else
      var n := |attempts| - 1;
      Kept(attempts[..n], items[..n]) + (if items[n].fate.appends then [attempts[n]] else [])
  }

  function LostIn(items: seq<Item>): nat {
    if items == [] then 0 else LostIn(items[..|items| - 1]) + (if items[|items| - 1].fate.appends then 0 else 1)
  }

  lemma KeptStep(attempts: seq<AuditEvent>, items: seq<Item>, event: AuditEvent, item: Item)
    requires |attempts| == |items|
    ensures Kept(attempts + [event], items + [item]) ==
            if item.fate.appends then Kept(attempts, items) + [event] else Kept(attempts, items)
    ensures LostIn(items + [item]) == LostIn(items) + (if item.fate.appends then 0 else 1)
    ensures |attempts + [event]| == |items + [item]|
  {
    assert (attempts + [event])[..|items|] == attempts;
    assert (items + [item])[..|items|] == items;
  }

  /** The stored trail is the attempts minus those whose append failed. */
  lemma {:induction false} StoredTrail(config: Config, history: seq<Item>)
    ensures var w, accepted := After(config, history), AcceptedIn(config, history);
            && |w.attempts| == |accepted|
            && w.stored == Kept(w.attempts, accepted)
            && |w.stored| + LostIn(accepted) == |w.calls| == |accepted|
  {
    hide Accepted, CallFor, EventFor;
    if history != [] {
      var n := |history| - 1;
      var last := history[n];
      var before, accepted := After(config, history[..n]), AcceptedIn(config, history[..n]);
      StoredTrail(config, history[..n]);
      if Accepted(config, last.request) {
        var event := EventFor(config, last.request, last.fate);
        KeptStep(before.attempts, accepted, event, last);
      } else {
        assert accepted + [] == accepted;
      }
    }
  }

  lemma {:induction false} LostNone(items: seq<Item>)
    ensures LostIn(items) == 0 <==> forall i :: 0 <= i < |items| ==> items[i].fate.appends
  {
    if items != [] {
      var n := |items| - 1;
      LostNone(items[..n]);
      assert items[n].fate.appends || !items[n].fate.appends;
      if forall i :: 0 <= i < n ==> items[..n][i].fate.appends {
        forall i | 0 <= i < n ensures items[i].fate.appends { assert items[..n][i].fate.appends; }
      }
    }
  }

  /** Every provider call has its stored event exactly when no append for an accepted
      request fails. */
  lemma EveryCallAuditedIff(config: Config, history: seq<Item>)
    ensures |After(config, history).stored| == |After(config, history).calls| <==>
            forall i :: 0 <= i < |AcceptedIn(config, history)| ==> AcceptedIn(config, history)[i].fate.appends
  {
    hide After, AcceptedIn, LostIn;
    StoredTrail(config, history);
    LostNone(AcceptedIn(config, history));
  }

  /** A failed append loses the event of a rerun that took place and was granted. */
  lemma UnauditedRerun(config: Config, request: Request)
    requires Accepted(config, request)
    ensures var item := Item(request, Fate(None, false));
            && After(config, [item]).calls == [CallFor(config, request)]
            && After(config, [item]).stored == []
            && ResponseTo(config, request, item.fate).Granted?
  {
    hide Accepted, CallFor, EventFor;
    var history := [Item(request, Fate(None, false))];
    assert history[..0] == [];
    assert After(config, history[..0]) == World([], [], []);
    assert After(config, history) == Step(config, World([], [], []), request, Fate(None, false));
    AcceptedGranted(config, request);
  }

  lemma AcceptedGranted(config: Config, request: Request)
    requires Accepted(config, request)
    ensures forall appends :: ResponseTo(config, request, Fate(None, appends)).Granted?
  {
    hide ParseRepository, TrimSpace, CanonicalRepository;
  }

  function Successful(events: seq<AuditEvent>): seq<AuditEvent> {
    if events == [] then []
    else
      var last := events[|events| - 1];
      Successful(events[..|events| - 1]) + (if last.outcome == "success" then [last] else [])
  }

  predicate Describes(event: AuditEvent, result: RerunResult) {
    && event.repository == result.repository && event.runId == result.runId && event.reason == result.reason
    && event.scope == result.scope && event.actor == result.actor
  }

  /** The granted results are, in order, what the successful audit attempts describe:
      a failed append takes no result back. */
  lemma {:induction false} ResultsAreSuccesses(config: Config, history: seq<Item>)
    ensures var successful, granted := Successful(After(config, history).attempts), GrantedIn(config, history);
            && |successful| == |granted|
            && forall i :: 0 <= i < |granted| ==> Describes(successful[i], granted[i])
  {
    hide Accepted, CallFor, EventFor, ResponseTo, Describes;
    if history != [] {
      var n := |history| - 1;
      var last := history[n];
      ResultsAreSuccesses(config, history[..n]);
      GrantedIsSuccess(config, last);
      var before := After(config, history[..n]).attempts;
      if Accepted(config, last.request) {
        assert (before + [EventFor(config, last.request, last.fate)])[..|before|] == before;
      }
    }
  }

  lemma GrantedIsSuccess(config: Config, item: Item)
    ensures var response := ResponseTo(config, item.request, item.fate);
            && (response.Granted? <==> Accepted(config, item.request) && item.fate.failure.None?)
            && (Accepted(config, item.request) ==>
                  var event := EventFor(config, item.request, item.fate);
                  && (response.Granted? <==> event.outcome == "success")
                  && (response.Granted? ==> Describes(event, response.result)))
  {
    hide ParseRepository, TrimSpace, MapError, CanonicalRepository;
  }

  /** The items that get a result: accepted, and not failed by the provider. */
  function AnsweredIn(config: Config, history: seq<Item>): (r: seq<Item>)
    ensures forall i :: 0 <= i < |r| ==> r[i] in history && Accepted(config, r[i].request) && r[i].fate.failure.None?
  {
    if history == [] then []
    else
      var last := history[|history| - 1];
      AnsweredIn(config, history[..|history| - 1]) +
      (if Accepted(config, last.request) && last.fate.failure.None? then [last] else [])
  }

  predicate Answers(config: Config, result: RerunResult, request: Request) {
    && result.runId == request.runId && result.repository == TrimSpace(request.repository)
    && NamesScope(result.scope, request.failedJobsOnly) && result.status == "requested"
    && result.reason == request.reason && result.actor == config.actor
  }

  lemma AnswerOne(config: Config, item: Item)
    ensures var response := ResponseTo(config, item.request, item.fate);
            && (response.Granted? <==> Accepted(config, item.request) && item.fate.failure.None?)
            && (response.Granted? ==> Answers(config, response.result, item.request))
  {
    CanonicalIsTrimmed(item.request.repository);
    hide ParseRepository, TrimSpace, MapError, CanonicalRepository;
  }

  /** Over every history: the results are, one to one and in order, the answers to the accepted
      requests the provider did not fail. */
  lemma {:induction false} ResultsAnswerRequests(config: Config, history: seq<Item>)
    ensures var granted, answered := GrantedIn(config, history), AnsweredIn(config, history);
            && |granted| == |answered|
            && forall i :: 0 <= i < |granted| ==> Answers(config, granted[i], answered[i].request)
  {
    hide Accepted, ResponseTo, Answers;
    if history != [] {
      var n := |history| - 1;
      ResultsAnswerRequests(config, history[..n]);
      AnswerOne(config, history[n]);
    }
  }

  /** What it takes to reach the provider: mutations allowed, a registered provider, a reason
      that is not blank, a repository of two names around one slash, and a run id from 1. */
  lemma AcceptedIff(config: Config, request: Request)
    ensures Accepted(config, request) <==>
            && !config.disableMutations
            && (exists p :: p in config.providers && IsFor(config, request, p))
            && TrimSpace(request.reason) != "" && request.runId >= 1
            && exists owner, name :: TwoNames(TrimSpace(request.repository), owner, name)
  {
    hide TrimSpace, ParseRepository;
    CanonicalIff(request.repository);
    assert IsFor(config, request, if Blank(request.provider) then config.defaultProvider else TrimSpace(request.provider));
  }

  predicate TwoNames(s: string, owner: string, name: string) {
    owner != "" && name != "" && '/' !in owner && '/' !in name && s == owner + "/" + name
  }

  lemma CanonicalIff(repository: string)
    ensures CanonicalRepository(repository).Some? <==>
            exists owner, name :: TwoNames(TrimSpace(repository), owner, name)
  {
    hide TrimSpace, Url.Split;
    var t := TrimSpace(repository);
    if CanonicalRepository(repository).Some? {
      var parts := Url.Split(t);
      CanonicalIsTrimmed(repository);
      assert TwoNames(t, parts[0], parts[1]);
    }
    if owner, name :| TwoNames(t, owner, name) {
      Url.SplitAppend(owner, name);
      Url.SplitWhole(owner);
      Url.SplitWhole(name);
    }
  }

  /** A service with mutations disabled never calls a provider, whatever is asked of it. */
  lemma {:induction false} DisabledDoesNothing(config: Config, history: seq<Item>)
    requires config.disableMutations
    ensures After(config, history) == World([], [], []) && GrantedIn(config, history) == []
  {
    hide WellFormed;
    if history != [] {
      DisabledDoesNothing(config, history[..|history| - 1]);
      GrantedIsSuccess(config, history[|history| - 1]);
    }
  }

  /** Which requests are refused as invalid, and what the others are told. */
  lemma RefusalCodes(config: Config, request: Request, fate: Fate)
    ensures var response := ResponseTo(config, request, fate);
            && (response.Refused? && response.error.code == INVALID_INPUT <==> !WellFormed(config, request))
            && (response.Refused? && response.error.retryable ==> Accepted(config, request) && fate.failure.Some?)
            && (WellFormed(config, request) && config.disableMutations ==> response == Refused(ToolError(UNAUTHORIZED, false)))
            && (Accepted(config, request) && fate.failure.Some? ==> response == Refused(MapError(fate.failure.value)))
  {
    hide WellFormed;
  }

  /** The canonical repository is the trimmed input, and reading it again changes nothing. */
  lemma CanonicalIsTrimmed(repository: string)
    ensures CanonicalRepository(repository).Some? ==>
              && CanonicalRepository(repository) == Some(TrimSpace(repository))
              && CanonicalRepository(TrimSpace(repository)) == Some(TrimSpace(repository))
  {
    hide TrimSpace, Url.Split;
    var t := TrimSpace(repository);
    var parts := Url.Split(t);
    TrimTwice(repository);
    Url.JoinSplit(t);
    if |parts| == 2 {
      assert Url.Join(parts) == parts[0] + "/" + Url.Join(parts[1..]);
      assert parts[1..] == [parts[1]];
    }
  }

  lemma TrimTwice(s: string)
    ensures TrimSpace(TrimSpace(s)) == TrimSpace(s)
  {
    var t := TrimSpace(s);
    var u := TrimLeft(s);
    if t != [] {
      assert t[0] == u[0];
      TrimIdle(t);
    }
  }
}
