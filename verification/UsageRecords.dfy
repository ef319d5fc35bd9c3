/** Usage records, and the per-request collector that fills them (internal/usage/usage.go, internal/gateway/attempt.go). */
module UsageRecords {
  import opened Wrappers
  import opened ModelTypes
  import opened FailurePolicy

  datatype Tokens = Tokens(prompt: int, completion: int, total: int)

  const NO_TOKENS := Tokens(0, 0, 0)

  datatype UsageResult = NoResult | Success | Failed | CanceledResult | Partial

  datatype AttemptRecord = AttemptRecord(
    index: int, model: string, route: string, failure: Option<Failure>, committed: bool, httpStatus: int, tokens: Tokens)

  // One finished attempt, as the collector sees it. clientGone is the state of the request context at that point.
  datatype Outcome = Outcome(candidate: Candidate, committed: bool, tokens: Tokens, error: Option<UpstreamError>, clientGone: bool)

  datatype Usage = Usage(
    attempts: seq<AttemptRecord>, finalModel: string, finalRoute: string, provider: string, tokens: Tokens, result: UsageResult)

  const NO_USAGE := Usage([], "", "", "", NO_TOKENS, NoResult)

  predicate CountsAsCanceled(o: Outcome) {
    o.error.Some? && IsRequestCanceled(o.clientGone, o.error.value)
  }

  function ResultAfter(result: UsageResult, o: Outcome): UsageResult {
    if o.error.None? then Success
    else if CountsAsCanceled(o) then CanceledResult
    else if o.committed then Partial
    else if result in {NoResult, Success} then Failed
    else result
  }

  function RecordOf(index: int, o: Outcome): AttemptRecord {
    AttemptRecord(
      index, o.candidate.model.id, o.candidate.route.id,
      if o.error.Some? then Some(FallbackDecision(o.error.value).0) else None,
      o.committed,
      if o.error.Some? then AttemptHTTPStatus(o.error.value) else 200,
      o.tokens)
  }

  function Recorded(u: Usage, o: Outcome): Usage {
    var u' := u.(attempts := u.attempts + [RecordOf(|u.attempts| + 1, o)], result := ResultAfter(u.result, o));
    if !o.committed then u'
    else u'.(finalModel := o.candidate.model.id, finalRoute := o.candidate.route.id, provider := o.candidate.route.provider,
             tokens := if o.tokens != NO_TOKENS then o.tokens else u.tokens)
  }

  class UsageCollector {
    var attempts: seq<AttemptRecord>
    var finalModel: string
    var finalRoute: string
    var provider: string
    var tokens: Tokens
    var result: UsageResult

    constructor ()
      ensures Snapshot() == NO_USAGE
    {
      attempts, finalModel, finalRoute, provider, tokens, result := [], "", "", "", NO_TOKENS, NoResult;
    }

    function Snapshot(): Usage
      reads this
    {
      Usage(attempts, finalModel, finalRoute, provider, tokens, result)
    }

    method Record(o: Outcome)
      modifies this
      ensures Snapshot() == Recorded(old(Snapshot()), o)
    {
      var failure, status := None, 200;
      if o.error.None? {
        result := Success;
      } else {
        failure := Some(FallbackDecision(o.error.value).0);
        status := AttemptHTTPStatus(o.error.value);
        if IsRequestCanceled(o.clientGone, o.error.value) {
          result := CanceledResult;
        } else if o.committed {
          result := Partial;
        } else if result == NoResult || result == Success {
          result := Failed;
        }
      }
      attempts := attempts +
        [AttemptRecord(|attempts| + 1, o.candidate.model.id, o.candidate.route.id, failure, o.committed, status, o.tokens)];
      if o.committed {
        finalModel, finalRoute, provider := o.candidate.model.id, o.candidate.route.id, o.candidate.route.provider;
        if o.tokens != NO_TOKENS {
          tokens := o.tokens;
        }
      }
    }
  }

  function UsageOf(outcomes: seq<Outcome>): Usage {
    if outcomes == [] then NO_USAGE else Recorded(UsageOf(outcomes[..|outcomes| - 1]), outcomes[|outcomes| - 1])
  }

  // ----- what a request's usage says, when nothing follows a committed or successful attempt

  ghost predicate OnlyLastSucceeds(outcomes: seq<Outcome>) {
    forall i :: 0 <= i < |outcomes| - 1 ==> outcomes[i].error.Some? && !outcomes[i].committed
  }

  ghost predicate AnyCanceled(outcomes: seq<Outcome>) {
    exists o :: o in outcomes && CountsAsCanceled(o)
  }

  lemma {:induction false} FailuresLeaveNothing(outcomes: seq<Outcome>)
    requires forall o :: o in outcomes ==> o.error.Some? && !o.committed
    ensures var u := UsageOf(outcomes);
      && |u.attempts| == |outcomes|
      && u.finalModel == u.finalRoute == u.provider == "" && u.tokens == NO_TOKENS
      && u.result == if outcomes == [] then NoResult
                     else if AnyCanceled(outcomes) then CanceledResult else Failed
  {
    if outcomes != [] {
      var before, last := outcomes[..|outcomes| - 1], outcomes[|outcomes| - 1];
      assert outcomes == before + [last];
      FailuresLeaveNothing(before);
    }
  }

  // The request is charged to the one committed attempt, and its result is that attempt's: a failure before it
  // leaves no trace in the result. Without one, a single canceled attempt makes the request canceled.
  lemma UsageReflectsLastAttempt(outcomes: seq<Outcome>)
    requires outcomes != [] && OnlyLastSucceeds(outcomes)
    ensures var u, last := UsageOf(outcomes), outcomes[|outcomes| - 1];
      && |u.attempts| == |outcomes|
      && (u.result == Success <==> last.error.None?)
      && (u.result == Partial <==> last.error.Some? && last.committed && !CountsAsCanceled(last))
      && (u.result == CanceledResult <==>
          last.error.Some? && (CountsAsCanceled(last) || (!last.committed && AnyCanceled(outcomes))))
      && u.finalRoute == (if last.committed then last.candidate.route.id else "")
      && u.finalModel == (if last.committed then last.candidate.model.id else "")
      && u.tokens == (if last.committed then last.tokens else NO_TOKENS)
  {
    var before, last := outcomes[..|outcomes| - 1], outcomes[|outcomes| - 1];
    assert outcomes == before + [last];
    forall o | o in before
      ensures o.error.Some? && !o.committed
    {
      var i :| 0 <= i < |before| && before[i] == o;
      assert outcomes[i] == o;
    }
    FailuresLeaveNothing(before);
  }

  lemma {:induction false} AttemptsAreNumbered(outcomes: seq<Outcome>, k: nat)
    requires k < |outcomes|
    ensures |UsageOf(outcomes).attempts| == |outcomes|
    ensures UsageOf(outcomes).attempts[k] == RecordOf(k + 1, outcomes[k])
    ensures var r, o := UsageOf(outcomes).attempts[k], outcomes[k];
      && r.index == k + 1 && r.model == o.candidate.model.id && r.route == o.candidate.route.id
      && r.committed == o.committed && r.tokens == o.tokens && (r.failure.Some? <==> o.error.Some?)
      && (o.error.Some? ==> r.failure == Some(FallbackDecision(o.error.value).0) && r.httpStatus == AttemptHTTPStatus(o.error.value))
      && (o.error.None? ==> r.httpStatus == 200)
  {
    var before := outcomes[..|outcomes| - 1];
    if k < |before| {
      AttemptsAreNumbered(before, k);
    } else if before != [] {
      AttemptsAreNumbered(before, 0);
    }
  }
}
