/**
 The attempt loop and its two kinds of attempt, step by step (internal/gateway/attempt.go).

 The client, the clock, the deadline timer and the provider are adversaries: `Interfere`, or `Pause` where an attempt
 has no budget, runs between every two steps of the handler that look at the clock, the client or the budget and does
 anything they may do. A provider call returns anything at all.
 */
module Attempts {
  import opened Wrappers
  import opened ModelTypes
  import opened FailurePolicy
  import opened UsageRecords
  import opened CandidateResolution
  import opened FailoverRun

  // ----- the clock, the client and the deadline

  class World {
    var now: int
    var clientGone: bool
  }

  datatype BudgetState = Open | Committed | Expired

  datatype CasOp = TimerExpires | HandlerCommits

  function Swap(s: BudgetState, op: CasOp): BudgetState {
    if s != Open then s else if op == TimerExpires then Expired else Committed
  }

  function RunSwaps(s: BudgetState, ops: seq<CasOp>): BudgetState
    decreases ops
  {
    if ops == [] then s else RunSwaps(Swap(s, ops[0]), ops[1..])
  }

  // In any interleaving of compare-and-swaps the first one wins, the word records who won, and no other swap
  // ever changes it.
  lemma {:induction false} OneSwapWins(ops: seq<CasOp>, k: nat)
    requires 0 < k <= |ops|
    ensures RunSwaps(Open, ops[..k]) == Swap(Open, ops[0]) != Open
    decreases k
  {
    SwapsAreFinal(Swap(Open, ops[0]), ops[..k][1..]);
  }

  lemma {:induction false} SwapsAreFinal(s: BudgetState, ops: seq<CasOp>)
    requires s != Open
    ensures RunSwaps(s, ops) == s
  {
    if ops != [] {
      SwapsAreFinal(s, ops[1..]);
    }
  }

  class AttemptBudget {
    const deadline: int
    var state: BudgetState
    var canceled: bool  // the attempt's context, by the timer
    ghost var swaps: seq<CasOp>  // in the order in which the two sides tried

    // The first swap decides. The timer cancels only after winning, and swaps only once the deadline has passed.
    ghost predicate Valid(now: int)
      reads this
    {
      && (canceled ==> state == Expired) && (state == Expired ==> now >= deadline)
      && state == if swaps == [] then Open else Swap(Open, swaps[0])
    }

    lemma StateFollowsSwaps(now: int)
      requires Valid(now)
      ensures state == RunSwaps(Open, swaps)
    {
      if swaps != [] {
        OneSwapWins(swaps, |swaps|);
        assert swaps[..|swaps|] == swaps;
      }
    }

    constructor (deadline: int)
      ensures this.deadline == deadline && state == Open && !canceled && swaps == []
    {
      this.deadline, state, canceled, swaps := deadline, Open, false, [];
    }

    method TimerSwaps(now: int)
      requires Valid(now) && now >= deadline
      modifies `state, `swaps
      ensures Valid(now) && state == Swap(old(state), TimerExpires) && swaps == old(swaps) + [TimerExpires]
    {
      if state == Open {
        state := Expired;
      }
      swaps := swaps + [TimerExpires];
    }

    method TimerCancels(now: int)
      requires Valid(now) && state == Expired
      modifies `canceled
      ensures Valid(now) && canceled
    {
      canceled := true;
    }

    method IsExpired() returns (expired: bool)
      ensures expired <==> state == Expired
    {
      expired := state == Expired;
    }

    // Wins exactly when neither side has swapped before.
    method Commit(ghost now: int) returns (won: bool)
      requires Valid(now)
      modifies `state, `swaps
      ensures Valid(now) && state == Swap(old(state), HandlerCommits) && swaps == old(swaps) + [HandlerCommits]
      ensures won <==> old(swaps) == []
      ensures won ==> state == Committed && !canceled
    {
      won := state == Open;
      if won {
        state := Committed;
      }
      swaps := swaps + [HandlerCommits];
    }
  }

  // What the adversaries can do between two steps, and all they can do.
  twostate predicate Interfered(w: World, b: AttemptBudget)
    reads w, b
  {
    && old(w.now) <= w.now && (old(w.clientGone) ==> w.clientGone)
    && b.Valid(w.now)
    && (b.state == old(b.state) || b.state == Swap(old(b.state), TimerExpires))
    && (old(b.canceled) ==> b.canceled)
  }

  method Interfere(w: World, b: AttemptBudget)
    requires b.Valid(w.now)
    modifies w, b
    ensures Interfered(w, b)
  {
    var elapsed: int := *;
    if elapsed > 0 {
      w.now := w.now + elapsed;
    }
    var leaves, swaps, cancels := *, *, *;
    if leaves {
      w.clientGone := true;
    }
    if swaps && w.now >= b.deadline {
      b.TimerSwaps(w.now);
    }
    if cancels && b.state == Expired {
      b.TimerCancels(w.now);
    }
  }

  // ----- the provider

  datatype StreamEvent = StreamEvent(
    delta: string, choice: int, toolCalls: seq<string>, reasoning: string, finish: string, usage: Option<Tokens>)
  {
    predicate Semantic() {
      delta != "" || toolCalls != [] || reasoning != "" || finish != ""
    }
  }

  datatype NextResult = Event(event: StreamEvent) | Eof | Failure(error: UpstreamError)

  datatype CallResult = Stream | NilStream | CallFailed(error: UpstreamError)

  // AcquireSlot blocks; it fails only once the context is done.
  method AcquireSlot(w: World, b: AttemptBudget) returns (error: Option<UpstreamError>)
    requires b.Valid(w.now)
    modifies w, b
    ensures Interfered(w, b)
    ensures error.Some? ==> w.clientGone || b.canceled
  {
    Interfere(w, b);
    error := *;
    if !w.clientGone && !b.canceled {
      error := None;
    }
  }

  method ChatCompletion(w: World, b: AttemptBudget) returns (r: CallResult)
    requires b.Valid(w.now)
    modifies w, b
    ensures Interfered(w, b)
  {
    Interfere(w, b);
    r := *;
  }

  // A stream yields any finite number of events before it ends.
  method Next(w: World, b: AttemptBudget, more: bool) returns (r: NextResult)
    requires b.Valid(w.now)
    modifies w, b
    ensures Interfered(w, b)
    ensures r.Event? ==> more
  {
    Interfere(w, b);
    r := *;
    if !more && r.Event? {
      r := Eof;
    }
  }

  // ----- the response

  datatype Sse = Data(model: string, event: StreamEvent) | Done | ErrorChunk(error: UpstreamError)

  datatype Completion = Completion(model: string, content: string, toolCalls: seq<string>, reasoning: string, finish: string)

  datatype ErrorBody = NothingEligible | NoFallback | Upstream(error: UpstreamError)

  class Response {
    var eventStream: bool  // the event-stream headers are set
    var sse: seq<Sse>
    var json: seq<Completion>
    var errors: seq<ErrorBody>

    constructor ()
      ensures Untouched()
    {
      eventStream, sse, json, errors := false, [], [], [];
    }

    predicate Untouched()
      reads this
    {
      !eventStream && sse == [] && json == [] && errors == []
    }
  }

  function ChunkOf(model: string, ev: StreamEvent): Sse {
    Data(model, ev.(usage := None))
  }

  // ----- what a list of polled results amounts to

  function Semantics(polls: seq<NextResult>): seq<StreamEvent> {
    if polls == [] then []
    else
      var last := polls[|polls| - 1];
      Semantics(polls[..|polls| - 1]) + if last.Event? && last.event.Semantic() then [last.event] else []
  }

  function Chunks(model: string, events: seq<StreamEvent>): seq<Sse> {
    if events == [] then [] else Chunks(model, events[..|events| - 1]) + [ChunkOf(model, events[|events| - 1])]
  }

  function LastUsage(events: seq<StreamEvent>): Tokens {
    if events == [] then NO_TOKENS
    else if events[|events| - 1].usage.Some? then events[|events| - 1].usage.value
    else LastUsage(events[..|events| - 1])
  }

  predicate Running(polls: seq<NextResult>) {
    polls == [] ||
    (Running(polls[..|polls| - 1]) && polls[|polls| - 1].Event? && polls[|polls| - 1].event.finish == "")
  }

  // The results up to the one that ends the stream: the first finish reason, an end of file, or an error.
  predicate Ended(polls: seq<NextResult>, error: Option<UpstreamError>) {
    && polls != [] && Running(polls[..|polls| - 1])
    && match polls[|polls| - 1] {
         case Event(ev) => ev.finish != "" && error.None?
         case Eof => error.None?
         case Failure(e) => error == Some(e)
       }
  }

  lemma {:induction false} ChunksAt(model: string, events: seq<StreamEvent>, k: nat)
    requires k < |events|
    ensures |Chunks(model, events)| == |events| && Chunks(model, events)[k] == ChunkOf(model, events[k])
  {
    var before := events[..|events| - 1];
    if before != [] {
      ChunksAt(model, before, if k < |before| then k else 0);
    }
  }

  // The end of a committed stream: [DONE], an error chunk, or nothing for a client that left.
  function StreamTail(clientGone: bool, error: Option<UpstreamError>): seq<Sse> {
    if error.None? then [Done] else if IsRequestCanceled(clientGone, error.value) then [] else [ErrorChunk(error.value)]
  }

  // A committed stream ends with one end marker, with one error, or silently when the request was canceled: the client has
  // left, or the error is a cancellation that no deadline explains.
  lemma TailIs(gone: bool, error: Option<UpstreamError>)
    ensures error.None? <==> StreamTail(gone, error) == [Done]
    ensures error.Some? ==>
      var e := error.value;
      var canceled := gone || e.canceled || (!e.deadlineExceeded && e.failure.Some? && e.failure.value.cls == Canceled);
      StreamTail(gone, error) == if canceled then [] else [ErrorChunk(e)]
  {
  }

  lemma {:induction false} LastUsageIs(events: seq<StreamEvent>, k: nat)
    requires k < |events| && events[k].usage.Some? && forall i :: k < i < |events| ==> events[i].usage.None?
    ensures LastUsage(events) == events[k].usage.value
  {
    if k < |events| - 1 {
      LastUsageIs(events[..|events| - 1], k);
    }
  }

  // ----- a streaming attempt

  // One poll, and the look at the deadline that follows it.
  method Poll(w: World, b: AttemptBudget, more: bool) returns (r: NextResult, expired: bool, ghost lateCancel: bool)
    requires b.Valid(w.now)
    modifies w, b
    ensures Interfered(w, b)
    ensures r.Event? ==> more
    ensures expired <==> b.state == Expired
    ensures lateCancel ==> expired
  {
    r := Next(w, b, more);
    lateCancel := b.canceled;
    Interfere(w, b);
    expired := b.IsExpired();
  }

  // Writes one semantic event. The first one must win the race against the deadline, and writes nothing if it loses.
  method ForwardEvent(resp: Response, w: World, b: AttemptBudget, c: Candidate, ev: StreamEvent) returns (written: bool)
    requires b.Valid(w.now) && resp.eventStream == (b.state == Committed)
    modifies resp`eventStream, resp`sse, w, b
    ensures Elapsed(w, b) && written == resp.eventStream == (b.state == Committed)
    ensures old(resp.eventStream) ==> written
    ensures !written ==> b.state == Expired
    ensures resp.sse == old(resp.sse) + if written then [ChunkOf(c.model.id, ev)] else []
  {
    if !resp.eventStream {
      Interfere(w, b);
      var won := b.Commit(w.now);
      if !won {
        return false;
      }
      resp.eventStream := true;
    }
    resp.sse := resp.sse + [ChunkOf(c.model.id, ev)];
    written := true;
  }

  // Ends the attempt on an end of file or an error. An uncommitted stream is not the response.
  method EndStream(resp: Response, w: World, r: NextResult) returns (error: Option<UpstreamError>)
    requires !r.Event?
    modifies resp`sse
    ensures !resp.eventStream ==> resp.sse == old(resp.sse)
    ensures !resp.eventStream ==> error == Some(EndError(r))
    ensures resp.eventStream ==> error == (if r.Failure? then Some(r.error) else None)
    ensures resp.eventStream ==> resp.sse == old(resp.sse) + StreamTail(w.clientGone, error)
  {
    if r.Failure? {
      error := Some(r.error);
      if resp.eventStream && !IsRequestCanceled(w.clientGone, r.error) {
        resp.sse := resp.sse + [ErrorChunk(r.error)];
      }
    } else if !resp.eventStream {
      error := Some(FailureError(Protocol, RouteScope));
    } else {
      error := None;
      resp.sse := resp.sse + [Done];
    }
  }

  twostate predicate Elapsed(w: World, b: AttemptBudget)
    reads w, b
  {
    old(w.now) <= w.now && (old(w.clientGone) ==> w.clientGone) && b.Valid(w.now)
  }

  // What a finished stream has written: the semantic events of the candidate, in order, and the end.
  ghost predicate Forwarded(
      model: string, polls: seq<NextResult>, error: Option<UpstreamError>, clientGone: bool, written: seq<Sse>)
  {
    && Ended(polls, error) && Semantics(polls) != []
    && written == Chunks(model, Semantics(polls)) + StreamTail(clientGone, error)
  }

  function EndError(r: NextResult): UpstreamError
    requires !r.Event?
  {
    if r.Failure? then r.error else FailureError(Protocol, RouteScope)
  }

  // The stream ended before any semantic event, and the error says how.
  ghost predicate EndedEarly(polls: seq<NextResult>, error: UpstreamError) {
    polls != [] && Semantics(polls) == [] && !polls[|polls| - 1].Event? && error == EndError(polls[|polls| - 1])
  }

  // What a stream has written so far, and the usage it has reported.
  ghost predicate Forwarding(model: string, polls: seq<NextResult>, written: seq<Sse>, tokens: Tokens) {
    Running(polls) && written == Chunks(model, Semantics(polls)) && tokens == LastUsage(Semantics(polls))
  }

  function TokensAfter(tokens: Tokens, ev: StreamEvent): Tokens {
    if ev.usage.Some? then ev.usage.value else tokens
  }

  lemma SemanticPoll(model: string, polls: seq<NextResult>, written: seq<Sse>, tokens: Tokens, r: NextResult)
    requires Forwarding(model, polls, written, tokens) && r.Event? && r.event.Semantic()
    ensures LastUsage(Semantics(polls + [r])) == TokensAfter(tokens, r.event)
    ensures r.event.finish == "" ==>
      Forwarding(model, polls + [r], written + [ChunkOf(model, r.event)], TokensAfter(tokens, r.event))
    ensures r.event.finish != "" ==>
      forall gone :: Forwarded(model, polls + [r], None, gone, written + [ChunkOf(model, r.event)] + [Done])
  {
    assert (polls + [r])[..|polls|] == polls;
    var events := Semantics(polls);
    assert (events + [r.event])[..|events|] == events;
    assert Semantics(polls + [r]) == events + [r.event];
  }

  lemma OtherPoll(model: string, polls: seq<NextResult>, written: seq<Sse>, tokens: Tokens, r: NextResult)
    requires Forwarding(model, polls, written, tokens) && (r.Event? ==> !r.event.Semantic())
    ensures LastUsage(Semantics(polls + [r])) == tokens
    ensures r.Event? ==> Forwarding(model, polls + [r], written, tokens)
    ensures !r.Event? && written == [] ==> EndedEarly(polls + [r], EndError(r))
    ensures !r.Event? && written != [] ==>
      var error := if r.Failure? then Some(r.error) else None;
      forall gone :: Forwarded(model, polls + [r], error, gone, written + StreamTail(gone, error))
  {
    assert (polls + [r])[..|polls|] == polls;
    assert Semantics(polls + [r]) == Semantics(polls);
  }

  // Reads the stream until it ends or the deadline wins the race before the first semantic event.
  // lateCancel: the timer had canceled the context when the stream was last polled.
  method ForwardStream(resp: Response, w: World, b: AttemptBudget, c: Candidate)
    returns (error: Option<UpstreamError>, tokens: Tokens, ghost polls: seq<NextResult>, ghost lateCancel: bool)
    requires b.Valid(w.now) && b.state != Committed && !resp.eventStream && resp.sse == []
    modifies resp`eventStream, resp`sse, w, b
    ensures Elapsed(w, b) && resp.eventStream == (b.state == Committed)
    ensures resp.eventStream ==> Forwarded(c.model.id, polls, error, w.clientGone, resp.sse)
    ensures !resp.eventStream ==> resp.sse == [] && error.Some?
    ensures !resp.eventStream && error.Some? && b.state != Expired ==> EndedEarly(polls, error.value)
    ensures lateCancel ==> !resp.eventStream && error == Some(BudgetError())
    ensures tokens == LastUsage(Semantics(polls))
  {
    tokens, polls, lateCancel := NO_TOKENS, [], false;
    var remaining: nat := *;
    while true
      invariant Elapsed(w, b) && resp.eventStream == (b.state == Committed) == (resp.sse != [])
      invariant Forwarding(c.model.id, polls, resp.sse, tokens)
      decreases remaining
    {
      var r, expired;
      r, expired, lateCancel := Poll(w, b, remaining > 0);
      if expired && !resp.eventStream {
        return Some(BudgetError()), tokens, polls, lateCancel;
      }
      if !r.Event? {
        OtherPoll(c.model.id, polls, resp.sse, tokens, r);
        polls := polls + [r];
        Interfere(w, b);
        error := EndStream(resp, w, r);
        return;
      }
      remaining := remaining - 1;
      if !r.event.Semantic() {
        OtherPoll(c.model.id, polls, resp.sse, tokens, r);
        polls := polls + [r];
        continue;
      }
      SemanticPoll(c.model.id, polls, resp.sse, tokens, r);
      polls := polls + [r];
      tokens := TokensAfter(tokens, r.event);
      var written := ForwardEvent(resp, w, b, c, r.event);
      if !written {
        return Some(BudgetError()), tokens, polls, lateCancel;
      }
      if r.event.finish != "" {
        resp.sse := resp.sse + [Done];
        return None, tokens, polls, lateCancel;
      }
    }
  }

  // A provider that returns neither a stream nor an error is a protocol failure, whatever the timer did.
  // `call` is what the provider call returned, None when no slot was acquired.
  method OpenStream(w: World, b: AttemptBudget)
    returns (error: Option<UpstreamError>, ghost lateCancel: bool, ghost call: Option<CallResult>)
    requires b.Valid(w.now) && b.state != Committed
    modifies w, b
    ensures Elapsed(w, b) && b.state != Committed
    ensures lateCancel ==> error == Some(BudgetError())
    ensures error.None? <==> call == Some(Stream)
    ensures call == Some(NilStream) ==> error == Some(FailureError(Protocol, RouteScope))
    ensures call.Some? && call.value.CallFailed? ==>
      error == Some(if b.state == Expired then BudgetError() else call.value.error)
    ensures call.None? && b.state == Expired ==> error == Some(BudgetError())
  {
    lateCancel, call := false, None;
    error := AcquireSlot(w, b);
    if error.Some? {
      lateCancel := b.canceled;
      Interfere(w, b);
      var expired := b.IsExpired();
      if expired {
        error := Some(BudgetError());
      }
      return;
    }
    var r := ChatCompletion(w, b);
    call := Some(r);
    if r.CallFailed? {
      lateCancel := b.canceled;
      Interfere(w, b);
      var expired := b.IsExpired();
      error := Some(if expired then BudgetError() else r.error);
    } else if r.NilStream? {
      error := Some(FailureError(Protocol, RouteScope));
    }
  }

  method RunStreamingAttempt(resp: Response, w: World, b: AttemptBudget, c: Candidate)
    returns (handled: bool, error: Option<UpstreamError>, tokens: Tokens, ghost polls: seq<NextResult>, ghost lateCancel: bool)
    requires b.Valid(w.now) && b.state != Committed && !resp.eventStream && resp.sse == []
    modifies resp`eventStream, resp`sse, w, b
    ensures Elapsed(w, b) && handled == resp.eventStream == (b.state == Committed)
    ensures handled ==> !b.canceled
    ensures handled ==> Forwarded(c.model.id, polls, error, w.clientGone, resp.sse)
    ensures !handled ==> resp.sse == [] && error.Some?
    ensures lateCancel ==> !handled && error == Some(BudgetError())
    ensures tokens == LastUsage(Semantics(polls))
  {
    tokens, polls := NO_TOKENS, [];
    ghost var call;
    error, lateCancel, call := OpenStream(w, b);
    if error.None? {
      error, tokens, polls, lateCancel := ForwardStream(resp, w, b, c);
    }
    handled := resp.eventStream;
  }

  // ----- an attempt that collects the whole answer

  function Events(polls: seq<NextResult>): seq<StreamEvent> {
    if polls == [] then []
    else Events(polls[..|polls| - 1]) + if polls[|polls| - 1].Event? then [polls[|polls| - 1].event] else []
  }

  function Collect(model: string, events: seq<StreamEvent>): Completion {
    if events == [] then Completion(model, "", [], "", "")
    else
      var c, ev := Collect(model, events[..|events| - 1]), events[|events| - 1];
      Completion(model, c.content + ev.delta, c.toolCalls + ev.toolCalls, c.reasoning + ev.reasoning,
                 if ev.finish != "" then ev.finish else c.finish)
  }

  // Read so far: the answer, its usage, and whether anything in it was semantic.
  ghost predicate Collecting(model: string, polls: seq<NextResult>, c: Completion, tokens: Tokens, semantic: bool) {
    && Running(polls) && c == Collect(model, Events(polls)) && tokens == LastUsage(Events(polls))
    && (semantic <==> Semantics(polls) != [])
  }

  lemma CollectPoll(model: string, polls: seq<NextResult>, c: Completion, tokens: Tokens, semantic: bool, r: NextResult)
    requires Collecting(model, polls, c, tokens, semantic) && r.Event?
    ensures var ev := r.event;
      var c' := Completion(model, c.content + ev.delta, c.toolCalls + ev.toolCalls, c.reasoning + ev.reasoning,
                           if ev.finish != "" then ev.finish else c.finish);
      && c' == Collect(model, Events(polls + [r])) && TokensAfter(tokens, ev) == LastUsage(Events(polls + [r]))
      && (semantic || ev.Semantic() <==> Semantics(polls + [r]) != [])
      && (ev.finish == "" ==> Running(polls + [r])) && (ev.finish != "" ==> Ended(polls + [r], None))
  {
    assert (polls + [r])[..|polls|] == polls;
    var events := Events(polls);
    assert (events + [r.event])[..|events|] == events;
    assert Events(polls + [r]) == events + [r.event];
  }

  lemma CollectEnd(model: string, polls: seq<NextResult>, c: Completion, tokens: Tokens, semantic: bool)
    requires Collecting(model, polls, c, tokens, semantic)
    ensures Ended(polls + [Eof], None)
    ensures c == Collect(model, Events(polls + [Eof])) && tokens == LastUsage(Events(polls + [Eof]))
    ensures Semantics(polls + [Eof]) == Semantics(polls)
  {
    assert (polls + [Eof])[..|polls|] == polls;
    assert Events(polls + [Eof]) == Events(polls);
    assert Semantics(polls + [Eof]) == Semantics(polls);
  }

  // An answer is complete when its stream ended without an error after some semantic event.
  ghost predicate Answered(model: string, polls: seq<NextResult>, answer: Completion) {
    Ended(polls, None) && Semantics(polls) != [] && answer == Collect(model, Events(polls))
  }

  method CollectStream(w: World, b: AttemptBudget, c: Candidate)
    returns (
      answer: Option<Completion>, error: Option<UpstreamError>, tokens: Tokens, ghost polls: seq<NextResult>,
      ghost lateCancel: bool)
    requires b.Valid(w.now) && b.state != Committed
    modifies w, b
    ensures Elapsed(w, b) && b.state != Committed
    ensures answer.Some? <==> error.None?
    ensures answer.Some? ==> Answered(c.model.id, polls, answer.value) && tokens == LastUsage(Events(polls))
    ensures lateCancel ==> error == Some(BudgetError())
  {
    answer, error, tokens, polls, lateCancel := None, None, NO_TOKENS, [], false;
    var collected, semantic := Completion(c.model.id, "", [], "", ""), false;
    var remaining: nat := *;
    while true
      invariant Elapsed(w, b) && b.state != Committed
      invariant Collecting(c.model.id, polls, collected, tokens, semantic)
      decreases remaining
    {
      var r, expired;
      r, expired, lateCancel := Poll(w, b, remaining > 0);
      if expired {
        return None, Some(BudgetError()), tokens, polls, lateCancel;
      }
      if r.Eof? {
        if !semantic {
          return None, Some(FailureError(Protocol, RouteScope)), tokens, polls, lateCancel;
        }
        CollectEnd(c.model.id, polls, collected, tokens, semantic);
        return Some(collected), None, tokens, polls + [Eof], lateCancel;
      }
      if r.Failure? {
        return None, Some(r.error), tokens, polls, lateCancel;
      }
      remaining := remaining - 1;
      CollectPoll(c.model.id, polls, collected, tokens, semantic, r);
      var ev := r.event;
      collected := Completion(c.model.id, collected.content + ev.delta, collected.toolCalls + ev.toolCalls,
                              collected.reasoning + ev.reasoning, if ev.finish != "" then ev.finish else collected.finish);
      semantic := semantic || ev.Semantic();
      tokens := TokensAfter(tokens, ev);
      polls := polls + [r];
      if ev.finish != "" {
        return Some(collected), None, tokens, polls, lateCancel;
      }
    }
  }

  method RunNonStreamingAttempt(resp: Response, w: World, b: AttemptBudget, c: Candidate)
    returns (handled: bool, error: Option<UpstreamError>, tokens: Tokens, ghost polls: seq<NextResult>, ghost lateCancel: bool)
    requires b.Valid(w.now) && b.state != Committed && resp.json == []
    modifies resp`json, w, b
    ensures Elapsed(w, b) && b.state != Committed
    ensures handled <==> error.None?
    ensures handled ==> |resp.json| == 1 && Answered(c.model.id, polls, resp.json[0]) && tokens == LastUsage(Events(polls))
    ensures !handled ==> resp.json == []
    ensures lateCancel ==> error == Some(BudgetError())
  {
    handled, tokens, polls := false, NO_TOKENS, [];
    ghost var call;
    error, lateCancel, call := OpenStream(w, b);
    if error.None? {
      var answer;
      answer, error, tokens, polls, lateCancel := CollectStream(w, b, c);
      if error.None? {
        resp.json := [answer.value];
        handled := true;
      }
    }
  }

  // ----- what the client is told

  // The text, the tool calls and the reasoning of a list of events, one after the other.
  datatype Told = Told(content: string, toolCalls: seq<string>, reasoning: string) {
    function And(ev: StreamEvent): Told {
      Told(content + ev.delta, toolCalls + ev.toolCalls, reasoning + ev.reasoning)
    }
  }

  function Contents(events: seq<StreamEvent>): Told {
    if events == [] then Told("", [], "") else Contents(events[..|events| - 1]).And(events[|events| - 1])
  }

  function Sent(written: seq<Sse>): Told {
    if written == [] then Told("", [], "")
    else
      var before, last := Sent(written[..|written| - 1]), written[|written| - 1];
      if last.Data? then before.And(last.event) else before
  }

  lemma {:induction false} SemanticsKeepContents(polls: seq<NextResult>)
    ensures Contents(Semantics(polls)) == Contents(Events(polls))
  {
    if polls != [] {
      var init, last := polls[..|polls| - 1], polls[|polls| - 1];
      SemanticsKeepContents(init);
      if last.Event? {
        assert (Events(init) + [last.event])[..|Events(init)|] == Events(init);
        if last.event.Semantic() {
          assert (Semantics(init) + [last.event])[..|Semantics(init)|] == Semantics(init);
        } else {
          assert Semantics(polls) == Semantics(init);
        }
      } else {
        assert Events(polls) == Events(init) && Semantics(polls) == Semantics(init);
      }
    }
  }

  lemma {:induction false} ChunksSendContents(model: string, events: seq<StreamEvent>)
    ensures Sent(Chunks(model, events)) == Contents(events)
  {
    if events != [] {
      var init := events[..|events| - 1];
      ChunksSendContents(model, init);
      assert Chunks(model, events)[..|Chunks(model, events)| - 1] == Chunks(model, init);
    }
  }

  lemma {:induction false} CollectIsContents(model: string, events: seq<StreamEvent>)
    ensures var c, told := Collect(model, events), Contents(events);
      c.model == model && c.content == told.content && c.toolCalls == told.toolCalls && c.reasoning == told.reasoning
  {
    if events != [] {
      CollectIsContents(model, events[..|events| - 1]);
    }
  }

  // A committed stream loses nothing of what the provider sent, whichever of its events are forwarded.
  lemma NothingIsLost(model: string, polls: seq<NextResult>, error: Option<UpstreamError>, gone: bool, written: seq<Sse>)
    requires Forwarded(model, polls, error, gone, written)
    ensures Sent(written) == Contents(Events(polls))
    ensures forall chunk :: chunk in written && chunk.Data? ==> chunk.model == model && chunk.event.usage.None?
  {
    var chunks, tail := Chunks(model, Semantics(polls)), StreamTail(gone, error);
    SemanticsKeepContents(polls);
    ChunksSendContents(model, Semantics(polls));
    assert tail != [] ==> (chunks + tail)[..|chunks|] == chunks;
    assert tail == [] ==> chunks + tail == chunks;
    forall chunk | chunk in chunks
      ensures chunk.Data? && chunk.model == model && chunk.event.usage.None?
    {
      var k :| 0 <= k < |chunks| && chunks[k] == chunk;
      ChunksLength(model, Semantics(polls));
      ChunksAt(model, Semantics(polls), k);
    }
  }

  lemma {:induction false} ChunksLength(model: string, events: seq<StreamEvent>)
    ensures |Chunks(model, events)| == |events|
  {
    if events != [] {
      ChunksLength(model, events[..|events| - 1]);
    }
  }

  // A stream counts the usage of its semantic events only, a collected answer that of all of them: the same when usage
  // comes with some content or a finish reason.
  lemma {:induction false} UsageAgrees(polls: seq<NextResult>)
    requires forall r :: r in polls && r.Event? && r.event.usage.Some? ==> r.event.Semantic()
    ensures LastUsage(Semantics(polls)) == LastUsage(Events(polls))
  {
    if polls != [] {
      var init, last := polls[..|polls| - 1], polls[|polls| - 1];
      UsageAgrees(init);
      if last.Event? {
        assert (Events(init) + [last.event])[..|Events(init)|] == Events(init);
        assert last in polls;
        if last.event.Semantic() {
          assert (Semantics(init) + [last.event])[..|Semantics(init)|] == Semantics(init);
        } else {
          assert Semantics(polls) == Semantics(init);
        }
      } else {
        assert Events(polls) == Events(init) && Semantics(polls) == Semantics(init);
      }
    }
  }

  // The input: a usage report of its own, after the text, is counted in one mode and not in the other.
  lemma BareUsageIsMissed(text: StreamEvent, usage: Tokens)
    requires text.delta != "" && text.finish == "" && text.usage.None? && usage != NO_TOKENS
    ensures var polls := [Event(text), Event(StreamEvent("", 0, [], "", "", Some(usage))), Eof];
      Ended(polls, None) && LastUsage(Semantics(polls)) == NO_TOKENS && LastUsage(Events(polls)) == usage
  {
    var bare := StreamEvent("", 0, [], "", "", Some(usage));
    var none: seq<NextResult> := [];
    PollAppend(none, Event(text));
    PollAppend([Event(text)], Event(bare));
    PollAppend([Event(text), Event(bare)], Eof);
    assert none + [Event(text)] == [Event(text)] && [Event(text)] + [Event(bare)] == [Event(text), Event(bare)];
    assert [Event(text), Event(bare)] + [Eof] == [Event(text), Event(bare), Eof];
    LastUsageIs([text, bare], 1);
  }

  lemma PollAppend(polls: seq<NextResult>, r: NextResult)
    ensures Semantics(polls + [r]) == Semantics(polls) + if r.Event? && r.event.Semantic() then [r.event] else []
    ensures Events(polls + [r]) == Events(polls) + if r.Event? then [r.event] else []
    ensures Running(polls) && r.Event? && r.event.finish == "" ==> Running(polls + [r])
    ensures Running(polls) && r.Eof? ==> Ended(polls + [r], None)
  {
    assert (polls + [r])[..|polls|] == polls;
  }

  // The same polled results tell a streaming client and a collecting one the same.
  lemma BothModesAgree(model: string, polls: seq<NextResult>, gone: bool, written: seq<Sse>, answer: Completion)
    requires Forwarded(model, polls, None, gone, written) && Answered(model, polls, answer)
    ensures answer.model == model && Sent(written) == Told(answer.content, answer.toolCalls, answer.reasoning)
  {
    NothingIsLost(model, polls, None, gone, written);
    CollectIsContents(model, Events(polls));
  }

  // ----- the attempt loop

  datatype Reason = Nothing | Served | ClientLeft | DeadlinePassed | NoCandidate | Stopped | AttemptsUsedUp

  // Why the run ends where it does.
  ghost predicate Justified(
      reason: Reason, candidates: seq<AttemptCandidate>, max: int, deadline: int, run: seq<Attempt>, now: int, clientGone: bool)
  {
    match reason
    case Nothing => candidates == [] && run == []
    case Served => run != [] && run[|run| - 1].handled
    case ClientLeft => clientGone
    case DeadlinePassed => run != [] && now >= deadline
    case NoCandidate => NextAttempt(candidates, Attempted(run), Previous(run), LastAction(run)).None?
    case Stopped => run != [] && LastAction(run) == Stop
    case AttemptsUsedUp => |run| == max
  }

  lemma StaysJustified(
      reason: Reason, candidates: seq<AttemptCandidate>, max: int, deadline: int, run: seq<Attempt>,
      now: int, clientGone: bool, later: int, goneLater: bool)
    requires Justified(reason, candidates, max, deadline, run, now, clientGone)
    requires now <= later && (clientGone ==> goneLater)
    ensures Justified(reason, candidates, max, deadline, run, later, goneLater)
  {
  }

  function Outcomes(run: seq<Attempt>): seq<Outcome> {
    if run == [] then [] else Outcomes(run[..|run| - 1]) + [run[|run| - 1].outcome]
  }

  // A response body comes from the last attempt alone, and is complete.
  ghost predicate Delivered(resp: Response, stream: bool, last: Attempt, polls: seq<NextResult>)
    reads resp
  {
    && resp.errors == [] && resp.eventStream == stream
    && (stream ==> resp.json == [] && Forwarded(ModelOf(last), polls, last.outcome.error, last.goneAtEnd, resp.sse))
    && (!stream ==> resp.sse == [] && last.outcome.error.None?)
    && (!stream ==> |resp.json| == 1 && Answered(ModelOf(last), polls, resp.json[0]))
  }

  // One attempt under its own budget, and its usage record, which is made later than the attempt ends.
  method RunAttempt(
      resp: Response, w: World, u: UsageCollector, chosen: AttemptCandidate, deadline: int, stream: bool, ghost checkedAt: int)
    returns (handled: bool, error: Option<UpstreamError>, ghost a: Attempt, ghost polls: seq<NextResult>)
    requires resp.Untouched()
    modifies resp`eventStream, resp`sse, resp`json, w, u
    ensures old(w.now) <= w.now && (old(w.clientGone) ==> w.clientGone)
    ensures Chosen(a) == chosen && a.checkedAt == checkedAt && old(w.now) <= a.startedAt <= w.now
    ensures a.outcome.clientGone == w.clientGone && (a.goneAtEnd ==> w.clientGone)
    ensures a.outcome.error == error && a.outcome.committed == a.handled == handled
    ensures a.expired ==> w.now >= deadline
    ensures handled ==> Delivered(resp, stream, a, polls)
    ensures !handled ==> resp.Untouched() && error.Some?
    ensures a.lateCancel ==> !handled && error == Some(BudgetError())
    ensures a.expired && stream ==> !handled
    ensures u.Snapshot() == Recorded(old(u.Snapshot()), a.outcome)
  {
    var b := new AttemptBudget(deadline);
    Interfere(w, b);
    ghost var startedAt := w.now;
    var c := chosen.candidate;
    var tokens;
    ghost var lateCancel;
    if stream {
      handled, error, tokens, polls, lateCancel := RunStreamingAttempt(resp, w, b, c);
    } else {
      handled, error, tokens, polls, lateCancel := RunNonStreamingAttempt(resp, w, b, c);
    }
    ghost var goneAtEnd := w.clientGone;
    Interfere(w, b);
    var outcome := Outcome(c, handled, tokens, error, w.clientGone);
    u.Record(outcome);
    a := Attempt(
      chosen.fallbackOnly, checkedAt, startedAt, outcome, goneAtEnd, handled, b.state == Expired, lateCancel);
  }

  // Time passes between attempts, and the client may leave.
  method Pause(w: World)
    modifies w
    ensures old(w.now) <= w.now && (old(w.clientGone) ==> w.clientGone)
  {
    var elapsed: int := *;
    if elapsed > 0 {
      w.now := w.now + elapsed;
    }
    var leaves := *;
    if leaves {
      w.clientGone := true;
    }
  }

  ghost predicate Fruitless(run: seq<Attempt>) {
    forall k :: 0 <= k < |run| ==> !run[k].handled && !run[k].outcome.committed && run[k].outcome.error.Some?
  }

  ghost predicate TimerIsReported(run: seq<Attempt>) {
    forall k :: 0 <= k < |run| && run[k].lateCancel ==> run[k].outcome.error == Some(BudgetError()) && !run[k].outcome.committed
  }

  // Nothing but the last attempt is part of the response.
  ghost predicate OnlyLastServes(resp: Response, stream: bool, served: bool, run: seq<Attempt>, polls: seq<NextResult>)
    reads resp
  {
    if served then run != [] && Fruitless(run[..|run| - 1]) && Delivered(resp, stream, run[|run| - 1], polls)
    else Fruitless(run) && resp.Untouched()
  }

  function LastError(run: seq<Attempt>): Option<UpstreamError> {
    if run == [] then None else run[|run| - 1].outcome.error
  }

  // The loop variables are functions of the attempts so far.
  ghost predicate Tracks(
      candidates: seq<AttemptCandidate>, max: int, deadline: int, run: seq<Attempt>,
      attempted: set<string>, previous: Option<Candidate>, action: Action, lastError: Option<UpstreamError>)
  {
    && LegalRun(candidates, max, deadline, run) && Fruitless(run) && TimerIsReported(run)
    && attempted == Attempted(run) && previous == Previous(run) && action == LastAction(run) && lastError == LastError(run)
  }

  lemma AttemptAdded(
      candidates: seq<AttemptCandidate>, max: int, deadline: int, run: seq<Attempt>,
      attempted: set<string>, previous: Option<Candidate>, action: Action, lastError: Option<UpstreamError>, a: Attempt)
    requires Tracks(candidates, max, deadline, run, attempted, previous, action, lastError) && |run| < max
    requires NextAttempt(candidates, attempted, previous, action) == Some(Chosen(a))
    requires a.checkedAt <= a.startedAt
    requires run != [] ==> action != Stop && a.checkedAt < deadline && !run[|run| - 1].expired
    requires a.lateCancel ==> a.outcome.error == Some(BudgetError()) && !a.outcome.committed
    ensures LegalRun(candidates, max, deadline, run + [a]) && TimerIsReported(run + [a])
    ensures UsageOf(Outcomes(run + [a])) == Recorded(UsageOf(Outcomes(run)), a.outcome)
    ensures !a.handled && !a.outcome.committed && a.outcome.error.Some? ==>
      Tracks(candidates, max, deadline, run + [a], attempted + {RouteOf(a)}, Some(a.outcome.candidate),
             FallbackDecision(a.outcome.error.value).1, a.outcome.error)
  {
    if run != [] {
      assert Retryable(run[|run| - 1]);
    }
    LegalRunGrows(candidates, max, deadline, run, a);
    RunGrows(run, a);
    ReportsGrow(run, a);
  }

  lemma ReportsGrow(run: seq<Attempt>, a: Attempt)
    requires Fruitless(run) && TimerIsReported(run)
    requires a.lateCancel ==> a.outcome.error == Some(BudgetError()) && !a.outcome.committed
    ensures TimerIsReported(run + [a])
    ensures !a.handled && !a.outcome.committed && a.outcome.error.Some? ==> Fruitless(run + [a])
    ensures Previous(run + [a]) == Some(a.outcome.candidate) && LastError(run + [a]) == a.outcome.error
    ensures a.outcome.error.Some? ==> LastAction(run + [a]) == FallbackDecision(a.outcome.error.value).1
  {
  }

  // One turn of the loop, on the candidate it has chosen.
  method TryNext(
      resp: Response, w: World, u: UsageCollector, ghost candidates: seq<AttemptCandidate>, ghost max: int, deadline: int,
      stream: bool, ghost run: seq<Attempt>, ghost attempted: set<string>, ghost previous: Option<Candidate>,
      ghost action: Action, ghost lastError: Option<UpstreamError>, next: AttemptCandidate, ghost checkedAt: int)
    returns (handled: bool, error: Option<UpstreamError>, ghost grown: seq<Attempt>, ghost polls: seq<NextResult>)
    requires resp.Untouched() && u.Snapshot() == UsageOf(Outcomes(run))
    requires Tracks(candidates, max, deadline, run, attempted, previous, action, lastError) && |run| < max
    requires NextAttempt(candidates, attempted, previous, action) == Some(next)
    requires checkedAt <= w.now
    requires run != [] ==> action != Stop && checkedAt < deadline && !run[|run| - 1].expired
    modifies resp`eventStream, resp`sse, resp`json, w, u
    ensures old(w.now) <= w.now && (old(w.clientGone) ==> w.clientGone)
    ensures |grown| == |run| + 1 && grown[|run|].handled == handled && (grown[|run|].expired ==> w.now >= deadline)
    ensures LegalRun(candidates, max, deadline, grown) && TimerIsReported(grown) && u.Snapshot() == UsageOf(Outcomes(grown))
    ensures OnlyLastServes(resp, stream, handled, grown, polls)
    ensures !handled ==> error.Some?
    ensures !handled ==>
      Tracks(candidates, max, deadline, grown, attempted + {next.candidate.route.id}, Some(next.candidate),
             FallbackDecision(error.value).1, error)
  {
    ghost var a;
    handled, error, a, polls := RunAttempt(resp, w, u, next, deadline, stream, checkedAt);
    AttemptAdded(candidates, max, deadline, run, attempted, previous, action, lastError, a);
    grown := run + [a];
    assert grown[..|run|] == run;
  }

  // The looks at the client and the deadline before an attempt, and the choice of its candidate.
  method PickNext(
      w: World, attempt: nat, ghost max: int, deadline: int, candidates: seq<AttemptCandidate>, ghost run: seq<Attempt>,
      attempted: set<string>, previous: Option<Candidate>, action: Action, ghost lastError: Option<UpstreamError>)
    returns (stop: Reason, next: Option<AttemptCandidate>, ghost checkedAt: int)
    requires Tracks(candidates, max, deadline, run, attempted, previous, action, lastError) && attempt == |run|
    requires run != [] && run[|run| - 1].expired ==> w.now >= deadline
    modifies w
    ensures old(w.now) <= checkedAt <= w.now && (old(w.clientGone) ==> w.clientGone)
    ensures next == None ==> stop != Served && stop != Nothing
    ensures next == None ==> Justified(stop, candidates, max, deadline, run, w.now, w.clientGone)
    ensures next.Some? ==> NextAttempt(candidates, attempted, previous, action) == next
    ensures next.Some? && run != [] ==> checkedAt < deadline && !run[|run| - 1].expired
  {
    Pause(w);
    next, checkedAt := None, w.now;
    if w.clientGone {
      return ClientLeft, next, checkedAt;
    }
    Pause(w);
    checkedAt := w.now;
    if attempt > 0 && w.now >= deadline {
      return DeadlinePassed, next, checkedAt;
    }
    stop := NoCandidate;
    next := NextAttempt(candidates, attempted, previous, action);
  }

  method AttemptLoop(
      resp: Response, w: World, u: UsageCollector, max: int, deadline: int, candidates: seq<AttemptCandidate>, stream: bool)
    returns (reason: Reason, lastError: Option<UpstreamError>, ghost run: seq<Attempt>, ghost polls: seq<NextResult>)
    requires resp.Untouched() && u.Snapshot() == NO_USAGE && candidates != [] && max > 0
    modifies resp`eventStream, resp`sse, resp`json, w, u
    ensures reason != Nothing && LegalRun(candidates, max, deadline, run)
    ensures Justified(reason, candidates, max, deadline, run, w.now, w.clientGone)
    ensures u.Snapshot() == UsageOf(Outcomes(run)) && TimerIsReported(run)
    ensures OnlyLastServes(resp, stream, reason == Served, run, polls)
    ensures reason != Served ==> lastError == LastError(run)
  {
    run, polls := [], [];
    var attempted, previous, action := {}, None, Stop;
    lastError := None;
    var attempt := 0;
    while attempt < max
      invariant 0 <= attempt <= max && attempt == |run|
      invariant Tracks(candidates, max, deadline, run, attempted, previous, action, lastError)
      invariant run != [] ==> action != Stop && (run[|run| - 1].expired ==> w.now >= deadline)
      invariant resp.Untouched() && u.Snapshot() == UsageOf(Outcomes(run))
    {
      var stop, next;
      ghost var checkedAt;
      stop, next, checkedAt := PickNext(w, attempt, max, deadline, candidates, run, attempted, previous, action, lastError);
      if next.None? {
        return stop, lastError, run, polls;
      }
      Pause(w);
      var handled, error;
      handled, error, run, polls := TryNext(
        resp, w, u, candidates, max, deadline, stream, run, attempted, previous, action, lastError, next.value,
        checkedAt);
      if handled {
        return Served, lastError, run, polls;
      }
      attempted := attempted + {next.value.candidate.route.id};
      previous := Some(next.value.candidate);
      attempt := attempt + 1;
      lastError := error;
      action := FallbackDecision(error.value).1;
      if action == Stop {
        return Stopped, lastError, run, polls;
      }
    }
    reason := AttemptsUsedUp;
  }

  // A canceled failure is taken for the client's leaving, so nothing is written, although the client may still be there.
  predicate IsSilent(e: UpstreamError) {
    !e.unsupported && e.failure.Some? && e.failure.value.cls.Canceled?
  }

  method WriteUpstreamError(resp: Response, e: UpstreamError)
    modifies resp`errors
    ensures resp.errors == old(resp.errors) + if IsSilent(e) then [] else [Upstream(e)]
  {
    if e.unsupported {
      resp.errors := resp.errors + [Upstream(e)];
      return;
    }
    if e.failure.Some? {
      if e.failure.value.cls.Canceled? {
        return;
      }
      resp.errors := resp.errors + [Upstream(e)];
      return;
    }
    resp.errors := resp.errors + [Upstream(e)];
  }

  // `gone` is whether the client had left when the handler last looked.
  method ChatHandler(resp: Response, w: World, u: UsageCollector, policy: Policy, candidates: seq<AttemptCandidate>, stream: bool)
    returns (reason: Reason, ghost run: seq<Attempt>, ghost deadline: int, ghost polls: seq<NextResult>, ghost gone: bool)
    requires resp.Untouched() && u.Snapshot() == NO_USAGE
    modifies resp, w, u
    ensures deadline == old(w.now) + policy.Normalized().budget
    ensures LegalRun(candidates, policy.Normalized().maxAttempts, deadline, run)
    ensures Justified(reason, candidates, policy.Normalized().maxAttempts, deadline, run, w.now, w.clientGone)
    ensures u.Snapshot() == UsageOf(Outcomes(run)) && TimerIsReported(run)
    ensures reason == Served ==> OnlyLastServes(resp, stream, true, run, polls)
    ensures reason != Served ==> Fruitless(run) && !resp.eventStream && resp.sse == [] && resp.json == []
    ensures reason != Served ==> resp.errors == FinalErrors(gone, candidates, run)
    ensures gone <==> candidates != [] && w.clientGone
  {
    var p := policy.Normalized();
    var limit := w.now + p.budget;
    deadline, run, polls, gone := limit, [], [], false;
    if candidates == [] {
      resp.errors := [NothingEligible];
      return Nothing, run, deadline, polls, gone;
    }
    var lastError;
    reason, lastError, run, polls := AttemptLoop(resp, w, u, p.maxAttempts, limit, candidates, stream);
    ghost var now, left := w.now, w.clientGone;
    Pause(w);
    StaysJustified(reason, candidates, p.maxAttempts, limit, run, now, left, w.now, w.clientGone);
    gone := w.clientGone;
    if reason != Served && !w.clientGone {
      if lastError.Some? {
        WriteUpstreamError(resp, lastError.value);
      } else {
        resp.errors := [NoFallback];
      }
    }
  }

  // The error bodies of an unserved request.
  function FinalErrors(gone: bool, candidates: seq<AttemptCandidate>, run: seq<Attempt>): seq<ErrorBody> {
    if candidates == [] then [NothingEligible]
    else if gone then []
    else match LastError(run)
      case None => [NoFallback]
      case Some(e) => if IsSilent(e) then [] else [Upstream(e)]
  }

  // An unserved request with candidates gets no body exactly when its client is gone, or its last error is not an
  // unsupported feature and carries a canceled failure. Otherwise it gets exactly one error.
  lemma SilentExactly(gone: bool, candidates: seq<AttemptCandidate>, max: int, deadline: int, run: seq<Attempt>)
    requires candidates != [] && LegalRun(candidates, max, deadline, run) && Fruitless(run)
    ensures |FinalErrors(gone, candidates, run)| <= 1
    ensures FinalErrors(gone, candidates, run) == [] <==>
      gone || (run != [] && var e := run[|run| - 1].outcome.error.value;
               !e.unsupported && e.failure.Some? && e.failure.value.cls.Canceled?)
    ensures !gone && FinalErrors(gone, candidates, run) == [] ==> LastAction(run) == Stop
    ensures FinalErrors(gone, candidates, run) != [] ==>
      FinalErrors(gone, candidates, run) == [if run == [] then NoFallback else Upstream(run[|run| - 1].outcome.error.value)]
  {
  }

  // The failing input of "an unserved request gets an error unless its client left": a provider that reports a
  // canceled failure to a client that is still connected.
  lemma CanceledFailureIsSilent(c: Candidate, checkedAt: int, startedAt: int)
    requires checkedAt <= startedAt
    ensures var e := FailureError(Canceled, RequestScope);
      var a := Attempt(false, checkedAt, startedAt, Outcome(c, false, NO_TOKENS, Some(e), false), false, false, false, false);
      var candidates := [AttemptCandidate(c, false)];
      LegalRun(candidates, 1, startedAt + 1, [a]) && Fruitless([a]) && FinalErrors(false, candidates, [a]) == []
  {
    var e := FailureError(Canceled, RequestScope);
    var a := Attempt(false, checkedAt, startedAt, Outcome(c, false, NO_TOKENS, Some(e), false), false, false, false, false);
    var candidates := [AttemptCandidate(c, false)];
    var pick := Normals(Attempted([]));
    assert pick(candidates[0]);
    assert First(candidates, pick) == Some(candidates[0]);
    assert NextAttempt(candidates, Attempted([]), Previous([]), LastAction([])) == Some(Chosen(a));
    var none: seq<Attempt> := [];
    assert LegalRun(candidates, 1, startedAt + 1, none);
    assert none + [a] == [a];
    LegalRunGrows(candidates, 1, startedAt + 1, none, a);
  }

  lemma LegalRunGrows(candidates: seq<AttemptCandidate>, max: int, deadline: int, run: seq<Attempt>, a: Attempt)
    requires LegalRun(candidates, max, deadline, run) && |run| < max
    requires NextAttempt(candidates, Attempted(run), Previous(run), LastAction(run)) == Some(Chosen(a))
    requires a.checkedAt <= a.startedAt
    requires run != [] ==> Retryable(run[|run| - 1]) && a.checkedAt < deadline && !run[|run| - 1].expired
    ensures LegalRun(candidates, max, deadline, run + [a])
  {
    assert (run + [a])[..|run|] == run;
  }

  lemma RunGrows(run: seq<Attempt>, a: Attempt)
    ensures Attempted(run + [a]) == Attempted(run) + {RouteOf(a)}
    ensures UsageOf(Outcomes(run + [a])) == Recorded(UsageOf(Outcomes(run)), a.outcome)
  {
    assert (run + [a])[..|run|] == run;
    assert (Outcomes(run) + [a.outcome])[..|Outcomes(run)|] == Outcomes(run);
    assert a in run + [a];
    assert forall x :: x in run + [a] <==> x in run || x == a;
  }
}
