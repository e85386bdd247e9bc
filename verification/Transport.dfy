/**
One HTTP exchange, the retry loop around it, and the mapping of the resulting errors to
tool errors. What the network does is given: a list of exchanges, and at each wait
whether the caller's context is cancelled first.
*/
module Transport {
  datatype Kind = Unauthorized | RateLimited | LogsUnavailable | ProviderUnavailable | NotFound | WriteTokenRequired

  /** An error value: a sentinel itself, an error wrapping one, the context's error, or any other. */
  datatype Error = Sentinel(kind: Kind) | Wrapped(kind: Kind, status: int) | ContextDone | Other(text: string)

  /** `errors.Is(err, sentinel)`. */
  predicate Is(err: Error, kind: Kind) {
    (err.Sentinel? && err.kind == kind) || (err.Wrapped? && err.kind == kind)
  }

  datatype Exchange =
    | BadRequest
    | NoConnection
    | Response(status: int, rateRemaining: string, body: string, readable: bool)

  datatype Result = Ok(body: string) | Err(error: Error)

  datatype Attempt = Attempt(result: Result, retry: bool)

  /** The classification of one exchange. */
  function DoOnce(x: Exchange): Attempt {
    match x
    case BadRequest => Attempt(Err(Other("build request")), false)
    case NoConnection => Attempt(Err(Other("github request")), true)
    case Response(status, rateRemaining, body, readable) =>
      if !readable then Attempt(Err(Other("read response body")), false)
      else if 200 <= status < 300 then Attempt(Ok(body), false)
      else if status == 429 || rateRemaining == "0" then Attempt(Err(Wrapped(RateLimited, status)), true)
      else if status >= 500 then Attempt(Err(Wrapped(ProviderUnavailable, status)), true)
      else if status == 401 || status == 403 then
        if rateRemaining == "0" then Attempt(Err(Wrapped(RateLimited, status)), true)
        else Attempt(Err(Wrapped(Unauthorized, status)), false)
      else if status == 404 then Attempt(Err(Wrapped(NotFound, status)), false)
      else Attempt(Err(Wrapped(ProviderUnavailable, status)), false)
  }

  const MAX_ATTEMPTS: nat := 3

  /** The pause after an attempt, in milliseconds. */
  function Backoff(attempt: nat): nat { attempt * attempt * 200 }

  function Waits(attempts: nat): nat {
    if attempts == 0 then 0 else Waits(attempts - 1) + Backoff(attempts)
  }

  /** What the network does from now on: attempt `i` (from 1) meets `exchanges(i)`; the wait
      after it is cut short if `cancelled(i)`. */
  datatype Network = Network(exchanges: nat -> Exchange, cancelled: nat -> bool)

  /** Attempt `i` fails in a way that is tried again. */
  predicate Retried(net: Network, i: nat) {
    DoOnce(net.exchanges(i)).result.Err? && DoOnce(net.exchanges(i)).retry && i < MAX_ATTEMPTS
  }

  method DoBytes(net: Network) returns (result: Result, attempts: nat, waited: nat)
    ensures 1 <= attempts <= 3
    // every attempt before the last failed retryably and its wait ran to the end
    ensures forall i :: 1 <= i < attempts ==> Retried(net, i) && !net.cancelled(i)
    // the last attempt ends the loop: its own outcome is returned unless its wait was cancelled
    ensures if Retried(net, attempts) then net.cancelled(attempts) && result == Err(ContextDone)
            else result == DoOnce(net.exchanges(attempts)).result
    // only the third attempt is not tried again for its number
    ensures Retried(net, attempts) <==> attempts < 3 && DoOnce(net.exchanges(attempts)).result.Err? && DoOnce(net.exchanges(attempts)).retry
    // the completed waits: 200 ms after the first attempt, 800 ms after the second
    ensures waited == if attempts == 1 then 0 else if attempts == 2 then 200 else 1000
  {
    var lastErr: Error := Other("");
    waited := 0;
    attempts := 0;
    while attempts < MAX_ATTEMPTS
      invariant attempts <= MAX_ATTEMPTS
      invariant forall i :: 1 <= i <= attempts ==> Retried(net, i) && !net.cancelled(i)
      invariant waited == Waits(attempts)
    {
      attempts := attempts + 1;
      WaitsBounded(attempts - 1);
      var once := DoOnce(net.exchanges(attempts));
      if once.result.Ok? {
        return once.result, attempts, waited;
      }
      lastErr := once.result.error;
      if !once.retry || attempts == MAX_ATTEMPTS { break; }
      if net.cancelled(attempts) {
        return Err(ContextDone), attempts, waited;
      }
      waited := waited + Backoff(attempts);
    }
    assert !Retried(net, attempts);
    result := Err(lastErr);
  }

  lemma WaitsBounded(n: nat)
    requires n < MAX_ATTEMPTS
    ensures Waits(n) == if n == 0 then 0 else if n == 1 then 200 else 1000
  {
    assert Waits(1) == 200 && Waits(2) == 1000;
  }

  /** The outcome of the loop is determined by the network. */
  lemma OutcomeDetermined(net: Network, m: nat, n: nat)
    requires 1 <= m && 1 <= n
    requires forall i :: 1 <= i < m ==> Retried(net, i) && !net.cancelled(i)
    requires forall i :: 1 <= i < n ==> Retried(net, i) && !net.cancelled(i)
    requires (Retried(net, m) ==> net.cancelled(m)) && (Retried(net, n) ==> net.cancelled(n))
    ensures m == n
  {
  }

  // ----- Mapping to tool errors -----

  datatype Code = INVALID_INPUT | UNAUTHORIZED | RATE_LIMITED | LOG_UNAVAILABLE | PROVIDER_UNAVAILABLE | INTERNAL

  datatype ToolError = ToolError(code: Code, retryable: bool)

  function MapError(err: Error): ToolError {
    if Is(err, Unauthorized) || Is(err, WriteTokenRequired) then ToolError(UNAUTHORIZED, false)
    else if Is(err, NotFound) then ToolError(UNAUTHORIZED, false)
    else if Is(err, RateLimited) then ToolError(RATE_LIMITED, true)
    else if Is(err, LogsUnavailable) then ToolError(LOG_UNAVAILABLE, true)
    else if Is(err, ProviderUnavailable) then ToolError(PROVIDER_UNAVAILABLE, true)
    else ToolError(INTERNAL, true)
  }

  /** What an exchange is taken for. */
  lemma ExchangeMeans(x: Exchange)
    ensures var a := DoOnce(x);
            && (a.result.Ok? <==> x.Response? && x.readable && 200 <= x.status <= 299)
            && (a.result.Ok? ==> a.result.body == x.body && !a.retry)
            && (x.Response? && x.readable && a.result.Err? ==>
                  var e, limited := a.result.error, x.status == 429 || x.rateRemaining == "0";
                  && (Is(e, RateLimited) <==> limited)
                  && (Is(e, Unauthorized) <==> !limited && (x.status == 401 || x.status == 403))
                  && (Is(e, NotFound) <==> !limited && x.status == 404)
                  && (Is(e, ProviderUnavailable) <==> !limited && x.status != 401 && x.status != 403 && x.status != 404)
                  && (a.retry <==> limited || x.status >= 500))
            && (x.NoConnection? ==> a.retry) && (x.BadRequest? || (x.Response? && !x.readable) ==> !a.retry)
  {
  }

  /** What each kind of error is reported as: only refusals are final. */
  lemma ReportMeans(e: Error)
    ensures var t := MapError(e);
            && (t.code == UNAUTHORIZED <==> Is(e, Unauthorized) || Is(e, WriteTokenRequired) || Is(e, NotFound))
            && (t.code == RATE_LIMITED <==> Is(e, RateLimited))
            && (t.code == LOG_UNAVAILABLE <==> Is(e, LogsUnavailable))
            && (t.code == PROVIDER_UNAVAILABLE <==> Is(e, ProviderUnavailable))
            && (t.code == INTERNAL <==> e.ContextDone? || e.Other?)
            && t.code != INVALID_INPUT && (t.retryable <==> t.code != UNAUTHORIZED)
  {
  }

  /** The status of a refusal that another try cannot change. */
  predicate Refused(x: Exchange) {
    x.Response? && x.readable && x.status in {401, 403, 404} && x.rateRemaining != "0"
  }

  /** Whatever the retry loop tries again is reported as retryable; of the other failures,
      exactly the refusals are reported as final. */
  lemma RetryMatchesReport(x: Exchange)
    requires DoOnce(x).result.Err?
    ensures DoOnce(x).retry ==> MapError(DoOnce(x).result.error).retryable
    ensures MapError(DoOnce(x).result.error).retryable <==> !Refused(x)
    ensures !DoOnce(x).retry && MapError(DoOnce(x).result.error).retryable <==>
            || x.BadRequest?
            || (x.Response? && !x.readable)
            || (x.Response? && x.rateRemaining != "0" && x.status !in {401, 403, 404, 429} && x.status < 500)
  {
  }

  /** The loop as a whole: an error that is not the context's is reported as retryable
      unless the last exchange was a refusal. */
  lemma LoopErrorReport(net: Network, result: Result, attempts: nat)
    requires attempts >= 1 && result.Err? && result.error != ContextDone
    requires if Retried(net, attempts) then net.cancelled(attempts) && result == Err(ContextDone)
             else result == DoOnce(net.exchanges(attempts)).result
    ensures MapError(result.error).retryable <==> !Refused(net.exchanges(attempts))
  {
    RetryMatchesReport(net.exchanges(attempts));
  }

  /** A failing exchange never yields a sentinel itself, always an error around it. So the
      test for the not-found sentinel by identity cannot succeed. */
  lemma NeverASentinel(x: Exchange)
    requires DoOnce(x).result.Err?
    ensures !DoOnce(x).result.error.Sentinel?
    ensures DoOnce(x).result.error != Sentinel(NotFound)
    ensures (x.Response? && x.readable && x.status == 404 && x.rateRemaining != "0") <==> Is(DoOnce(x).result.error, NotFound)
  {
  }
}
