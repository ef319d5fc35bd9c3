/** Classified failures and the routing action each one allows (internal/model/failure.go, internal/gateway/attempt.go). */
module FailurePolicy {
  import opened Wrappers

  // OtherClass and OtherScope stand for any other string, the empty one included.
  datatype FailureClass =
    | Canceled | Timeout | RateLimited | Auth | BadRequest | ServerError | Protocol | Network | UnknownClass | OtherClass

  datatype FailureScope = RequestScope | ModelScope | RouteScope | CredentialScope | ProviderScope | OtherScope

  datatype Failure = Failure(cls: FailureClass, scope: FailureScope)

  datatype Action = Stop | NextRoute | NextModel | DisableCredential | DisableRoute | CooldownProvider

  // An error by what its chain of causes contains, which is all the gateway asks of it.
  datatype UpstreamError = UpstreamError(
    unsupported: bool, failure: Option<Failure>, httpStatus: int, canceled: bool, deadlineExceeded: bool, netTimeout: Option<bool>)

  function FailureError(cls: FailureClass, scope: FailureScope): UpstreamError {
    UpstreamError(false, Some(Failure(cls, scope)), 0, false, false, None)
  }

  function BudgetError(): UpstreamError {
    FailureError(Timeout, RouteScope)
  }

  function DecideFailureAction(f: Failure): Action {
    if f.scope.RequestScope? || f.cls.Canceled? || f.cls.UnknownClass? then Stop
    else match f.cls
      case Auth => if f.scope.CredentialScope? then DisableCredential else Stop
      case RateLimited => if f.scope.ProviderScope? then CooldownProvider else NextRoute
      case Timeout => NextRoute
      case Network => NextRoute
      case ServerError => NextModel
      case Protocol => DisableRoute
      case _ => Stop
  }

  function FallbackDecision(e: UpstreamError): (Failure, Action) {
    if e.unsupported then (Failure(BadRequest, RouteScope), NextModel)
    else if e.failure.Some? then
      var f := e.failure.value;
      if !f.scope.RequestScope? && (f.cls.BadRequest? || f.cls.Protocol?) then (f, NextModel) else (f, DecideFailureAction(f))
    else if e.canceled then (Failure(Canceled, RequestScope), Stop)
    else if e.deadlineExceeded then (Failure(Timeout, RouteScope), NextRoute)
    else if e.netTimeout.Some? then (Failure(if e.netTimeout.value then Timeout else Network, RouteScope), NextRoute)
    else (Failure(UnknownClass, RequestScope), Stop)
  }

  predicate IsRequestCanceled(clientGone: bool, e: UpstreamError) {
    clientGone || e.canceled || (!e.deadlineExceeded && e.failure.Some? && e.failure.value.cls.Canceled?)
  }

  function AttemptHTTPStatus(e: UpstreamError): int {
    if e.failure.Some? && e.httpStatus > 0 then e.httpStatus
    else if e.unsupported then 400
    else if e.failure.Some? then
      (match e.failure.value.cls case RateLimited => 429 case BadRequest => 400 case _ => 502)
    else if e.canceled then 0
    else 502
  }

  // ----- what the table rules out

  // The table can disable a route, but no error reaches that entry: the protocol failures that would are sent
  // to another model first.
  lemma RouteIsNeverDisabled(e: UpstreamError)
    ensures FallbackDecision(e).1 != DisableRoute
  {
  }

  // Exactly the errors that end the request.
  lemma StopIsExact(e: UpstreamError)
    ensures FallbackDecision(e).1 == Stop <==>
      !e.unsupported &&
      match FallbackDecision(e).0 {
        case Failure(cls, scope) =>
          || scope == RequestScope || cls in {Canceled, UnknownClass, OtherClass} || (cls == Auth && scope != CredentialScope)
      }
  {
  }

  // Where each error goes, by the class and the scope of the failure it carries.
  lemma ActionIsExact(e: UpstreamError)
    ensures var action := FallbackDecision(e).1;
      && (e.unsupported ==> action == NextModel)
      && (!e.unsupported && e.failure.None? ==>
            (action == NextRoute <==> !e.canceled && (e.deadlineExceeded || e.netTimeout.Some?)) && action in {NextRoute, Stop})
    ensures !e.unsupported && e.failure.Some? ==>
      var action, cls, scope := FallbackDecision(e).1, e.failure.value.cls, e.failure.value.scope;
      && (action == NextRoute <==>
            scope != RequestScope && (cls in {Timeout, Network} || (cls == RateLimited && scope != ProviderScope)))
      && (action == NextModel <==> scope != RequestScope && cls in {ServerError, BadRequest, Protocol})
      && (action == DisableCredential <==> cls == Auth && scope == CredentialScope)
      && (action == CooldownProvider <==> cls == RateLimited && scope == ProviderScope)
  {
  }

  // An attempt has no status exactly when a cancellation ended it before any answer; one that upstream has given is kept.
  lemma StatusIsExact(e: UpstreamError)
    ensures AttemptHTTPStatus(e) == 0 <==> !e.unsupported && e.failure.None? && e.canceled
    ensures e.failure.Some? && e.httpStatus > 0 ==> AttemptHTTPStatus(e) == e.httpStatus
    ensures e.failure.None? || e.httpStatus <= 0 ==>
      && (AttemptHTTPStatus(e) == 400 <==> e.unsupported || (e.failure.Some? && e.failure.value.cls == BadRequest))
      && (AttemptHTTPStatus(e) == 429 <==> !e.unsupported && e.failure.Some? && e.failure.value.cls == RateLimited)
      && AttemptHTTPStatus(e) in {0, 400, 429, 502}
  {
  }

  // A request-scoped failure, or a client that left, is never retried elsewhere.
  lemma ClientErrorsStop(e: UpstreamError)
    requires !e.unsupported
    requires FallbackDecision(e).0.scope == RequestScope || FallbackDecision(e).0.cls == Canceled
    ensures FallbackDecision(e).1 == Stop
  {
  }

  // An exhausted budget is a route-scoped timeout: retryable, and not a cancellation by the client.
  lemma BudgetErrorIsRouteTimeout()
    ensures FallbackDecision(BudgetError()) == (Failure(Timeout, RouteScope), NextRoute)
    ensures !IsRequestCanceled(false, BudgetError())
  {
  }

  // ----- the bounds on a run (internal/gateway/failover.go), budget in milliseconds

  datatype Policy = Policy(maxAttempts: int, budget: int) {
    function Normalized(): Policy {
      Policy(
        if maxAttempts <= 0 then 4 else if maxAttempts > 100 then 100 else maxAttempts,
        if budget <= 0 then 30_000 else if budget > 600_000 then 600_000 else budget)
    }

    lemma NormalizedIsBounded()
      ensures 1 <= Normalized().maxAttempts <= 100 && 1 <= Normalized().budget <= 600_000
      ensures Normalized().maxAttempts == maxAttempts <==> 1 <= maxAttempts <= 100
      ensures Normalized().budget == budget <==> 1 <= budget <= 600_000
      ensures maxAttempts <= 0 ==> Normalized().maxAttempts == 4
      ensures budget <= 0 ==> Normalized().budget == 30_000
      ensures Normalized().Normalized() == Normalized()
    {
    }
  }
}
