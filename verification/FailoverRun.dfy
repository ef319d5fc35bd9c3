/**
 One client request as a run of upstream attempts (internal/gateway/attempt.go): how the next candidate is chosen,
 what a legal run is, and what holds of every legal run.
 */
module FailoverRun {
  import opened Wrappers
  import opened ModelTypes
  import opened FailurePolicy
  import opened CandidateResolution
  import opened UsageRecords

  // ----- the next candidate

  predicate SeparatorAt(s: string, i: nat) {
    i + 1 < |s| && s[i] == s[i + 1] == ':'
  }

  function IndexOfSeparator(s: string, i: nat := 0): (r: Option<nat>)
    ensures r.Some? ==> i <= r.value && SeparatorAt(s, r.value)
    ensures forall j :: i <= j && SeparatorAt(s, j) ==> r.Some? && r.value <= j
    decreases |s| - i
  {
    if i + 1 >= |s| then None else if s[i] == ':' && s[i + 1] == ':' then Some(i) else IndexOfSeparator(s, i + 1)
  }

  function CredentialKey(r: ProviderRoute): (key: string)
    ensures r.credentialID != "" ==> key == r.credentialID
    ensures r.credentialID == "" && (SeparatorAt(r.id, 0) || forall i: nat :: !SeparatorAt(r.id, i)) ==> key == r.provider
    ensures r.credentialID == "" && !SeparatorAt(r.id, 0) ==>
      forall n: nat :: SeparatorAt(r.id, n) && (forall i: nat :: i < n ==> !SeparatorAt(r.id, i)) ==> key == r.id[..n]
  {
    var separator := IndexOfSeparator(r.id);
    if r.credentialID != "" then r.credentialID
    else if separator.Some? && 0 < separator.value <= |r.id| then r.id[..separator.value]
    else r.provider
  }

  predicate Acceptable(a: AttemptCandidate, attempted: set<string>, previous: Candidate, action: Action) {
    && a.candidate.route.id !in attempted
    && (a.fallbackOnly ==> a.candidate.model.id == previous.model.id)
    && match action {
         case NextRoute => true
         case NextModel => !a.fallbackOnly && a.candidate.model.id != previous.model.id
         case DisableCredential => CredentialKey(a.candidate.route) != CredentialKey(previous.route)
         case DisableRoute => a.candidate.route.id != previous.route.id
         case CooldownProvider => a.candidate.route.provider != previous.route.provider
         case Stop => false
       }
  }

  function First(candidates: seq<AttemptCandidate>, p: AttemptCandidate -> bool): (r: Option<AttemptCandidate>)
    ensures r.Some? ==> r.value in candidates && p(r.value)
    ensures r.None? ==> forall a :: a in candidates ==> !p(a)
  {
    if candidates == [] then None else if p(candidates[0]) then Some(candidates[0]) else First(candidates[1..], p)
  }

  function NextAttempt(candidates: seq<AttemptCandidate>, attempted: set<string>, previous: Option<Candidate>, action: Action)
    : Option<AttemptCandidate>
  {
    if previous.None? then First(candidates, Normals(attempted))
    else
      var sameModel := First(candidates, AcceptableOfModel(attempted, previous.value, action));
      if action == NextRoute && sameModel.Some? then sameModel else First(candidates, Acceptables(attempted, previous.value, action))
  }

  function Normals(attempted: set<string>): AttemptCandidate -> bool {
    (a: AttemptCandidate) => !a.fallbackOnly && a.candidate.route.id !in attempted
  }

  function Acceptables(attempted: set<string>, previous: Candidate, action: Action): AttemptCandidate -> bool {
    (a: AttemptCandidate) => Acceptable(a, attempted, previous, action)
  }

  function AcceptableOfModel(attempted: set<string>, previous: Candidate, action: Action): AttemptCandidate -> bool {
    (a: AttemptCandidate) => Acceptable(a, attempted, previous, action) && a.candidate.model.id == previous.model.id
  }

  // ----- legal runs

  // checkedAt: when the loop last looked at the deadline, which is before startedAt. goneAtEnd: whether the client had
  // left when the attempt ended, which is before its outcome is recorded. handled: the response is finished. expired:
  // the deadline timer won this attempt's budget. lateCancel: the call or poll that ended the attempt came back after
  // the timer had canceled its context.
  datatype Attempt = Attempt(
    fallbackOnly: bool, checkedAt: int, startedAt: int, outcome: Outcome, goneAtEnd: bool, handled: bool, expired: bool,
    lateCancel: bool)

  function Chosen(a: Attempt): AttemptCandidate {
    AttemptCandidate(a.outcome.candidate, a.fallbackOnly)
  }

  function Attempted(run: seq<Attempt>): set<string> {
    set a | a in run :: RouteOf(a)
  }

  function RouteOf(a: Attempt): string {
    a.outcome.candidate.route.id
  }

  function ModelOf(a: Attempt): string {
    a.outcome.candidate.model.id
  }

  predicate Retryable(a: Attempt) {
    !a.handled && a.outcome.error.Some? && FallbackDecision(a.outcome.error.value).1 != Stop
  }

  function Previous(run: seq<Attempt>): Option<Candidate> {
    if run == [] then None else Some(run[|run| - 1].outcome.candidate)
  }

  function LastAction(run: seq<Attempt>): Action {
    if run != [] && run[|run| - 1].outcome.error.Some? then FallbackDecision(run[|run| - 1].outcome.error.value).1 else Stop
  }

  // A run grows by one attempt at a time: after a retryable one, once the deadline was seen not to have passed, on the
  // candidate the last error allows.
  predicate LegalRun(candidates: seq<AttemptCandidate>, maxAttempts: int, deadline: int, run: seq<Attempt>) {
    run == [] ||
    var before, last := run[..|run| - 1], run[|run| - 1];
    && LegalRun(candidates, maxAttempts, deadline, before)
    && |run| <= maxAttempts
    && last.checkedAt <= last.startedAt
    && (before != [] ==> Retryable(before[|before| - 1]) && last.checkedAt < deadline)
    && (before != [] && before[|before| - 1].expired ==> last.checkedAt >= deadline)
    && NextAttempt(candidates, Attempted(before), Previous(before), LastAction(before)) == Some(Chosen(last))
  }

  lemma {:induction false} LegalPrefix(candidates: seq<AttemptCandidate>, max: int, deadline: int, run: seq<Attempt>, k: nat)
    requires LegalRun(candidates, max, deadline, run) && k <= |run|
    ensures LegalRun(candidates, max, deadline, run[..k])
  {
    if k < |run| {
      LegalPrefix(candidates, max, deadline, run[..|run| - 1], k);
      assert run[..|run| - 1][..k] == run[..k];
    } else {
      assert run[..k] == run;
    }
  }

  lemma LastStep(candidates: seq<AttemptCandidate>, max: int, deadline: int, run: seq<Attempt>)
    requires LegalRun(candidates, max, deadline, run) && run != []
    ensures var before, last := run[..|run| - 1], run[|run| - 1];
      && NextAttempt(candidates, Attempted(before), Previous(before), LastAction(before)) == Some(Chosen(last))
      && (before != [] ==> Retryable(before[|before| - 1]) && last.checkedAt < deadline && !before[|before| - 1].expired)
  {
  }

  // What a legal run says about its attempt k.
  lemma LegalStep(candidates: seq<AttemptCandidate>, max: int, deadline: int, run: seq<Attempt>, k: nat)
    requires LegalRun(candidates, max, deadline, run) && k < |run|
    ensures NextAttempt(candidates, Attempted(run[..k]), Previous(run[..k]), LastAction(run[..k])) == Some(Chosen(run[k]))
    ensures k > 0 ==> Retryable(run[k - 1]) && run[k].checkedAt < deadline && !run[k - 1].expired
  {
    LegalPrefix(candidates, max, deadline, run, k + 1);
    assert run[..k + 1][..k] == run[..k];
    LastStep(candidates, max, deadline, run[..k + 1]);
  }

  // ----- what holds of every legal run

  lemma NextIsFresh(candidates: seq<AttemptCandidate>, attempted: set<string>, previous: Option<Candidate>, action: Action)
    requires NextAttempt(candidates, attempted, previous, action).Some?
    ensures var a := NextAttempt(candidates, attempted, previous, action).value;
      && a in candidates && a.candidate.route.id !in attempted
      && (previous.None? ==> !a.fallbackOnly)
      && (previous.Some? ==> Acceptable(a, attempted, previous.value, action))
  {
  }

  // No route is tried twice, whatever the candidate list repeats.
  lemma RoutesAreDistinct(candidates: seq<AttemptCandidate>, max: int, deadline: int, run: seq<Attempt>)
    requires LegalRun(candidates, max, deadline, run)
    ensures forall i, j :: 0 <= i < j < |run| ==> RouteOf(run[i]) != RouteOf(run[j])
  {
    forall i, j | 0 <= i < j < |run|
      ensures RouteOf(run[i]) != RouteOf(run[j])
    {
      LegalStep(candidates, max, deadline, run, j);
      NextIsFresh(candidates, Attempted(run[..j]), Previous(run[..j]), LastAction(run[..j]));
      assert run[..j][i] in run[..j];
    }
  }

  lemma {:induction false} DistinctCount(run: seq<Attempt>)
    requires forall i, j :: 0 <= i < j < |run| ==> RouteOf(run[i]) != RouteOf(run[j])
    ensures |Attempted(run)| == |run|
  {
    if run != [] {
      var before, last := run[..|run| - 1], run[|run| - 1];
      DistinctCount(before);
      assert run == before + [last];
      assert Attempted(run) == Attempted(before) + {RouteOf(last)};
      assert RouteOf(last) !in Attempted(before);
    }
  }

  lemma SubsetSize(a: set<string>, b: set<string>)
    requires a <= b
    ensures |a| <= |b|
  {
    assert b == a + (b - a);
  }

  function ListedRoutes(candidates: seq<AttemptCandidate>): set<string> {
    set a | a in candidates :: a.candidate.route.id
  }

  lemma RunIsBounded(candidates: seq<AttemptCandidate>, max: int, deadline: int, run: seq<Attempt>)
    requires LegalRun(candidates, max, deadline, run) && max >= 0
    ensures |run| <= max && |run| <= |ListedRoutes(candidates)|
  {
    RoutesAreDistinct(candidates, max, deadline, run);
    DistinctCount(run);
    forall a | a in run
      ensures RouteOf(a) in ListedRoutes(candidates)
    {
      var k :| 0 <= k < |run| && run[k] == a;
      LegalStep(candidates, max, deadline, run, k);
    }
    SubsetSize(Attempted(run), ListedRoutes(candidates));
  }

  // Over the resolved list of a request, every attempt goes to a route that was enabled, healthy and fit for it, and
  // a paid one only where its own policy allows.
  lemma AttemptsServe(v: View, req: Request, max: int, deadline: int, run: seq<Attempt>, k: nat)
    requires LegalRun(Resolved(v, req), max, deadline, run) && k < |run|
    ensures Serves(v, req, run[k].outcome.candidate, run[k].fallbackOnly)
    ensures run[k].fallbackOnly ==> run[k].outcome.candidate.route.access in {Unset, AccessUnknown}
  {
    LegalStep(Resolved(v, req), max, deadline, run, k);
    NextIsFresh(Resolved(v, req), Attempted(run[..k]), Previous(run[..k]), LastAction(run[..k]));
    var j :| 0 <= j < |Resolved(v, req)| && Resolved(v, req)[j] == Chosen(run[k]);
    ResolvedCandidatesServe(v, req, j);
  }

  // Each attempt obeys the error before it. A next route of the same model is preferred to any other.
  lemma EachStepObeys(candidates: seq<AttemptCandidate>, max: int, deadline: int, run: seq<Attempt>, k: nat)
    requires LegalRun(candidates, max, deadline, run) && 0 < k < |run|
    ensures Chosen(run[k]) in candidates
    ensures var prev, next := run[k - 1].outcome.candidate, run[k].outcome.candidate;
      match LastAction(run[..k]) {
        case Stop => false
        case DisableRoute => false
        case NextRoute => next.model.id == prev.model.id ||
          forall a :: a in candidates && a.candidate.model.id == prev.model.id ==> a.candidate.route.id in Attempted(run[..k])
        case NextModel => next.model.id != prev.model.id && !run[k].fallbackOnly
        case DisableCredential => CredentialKey(next.route) != CredentialKey(prev.route)
        case CooldownProvider => next.route.provider != prev.route.provider
      }
  {
    LegalStep(candidates, max, deadline, run, k);
    assert run[..k][k - 1] == run[k - 1];
    NextIsFresh(candidates, Attempted(run[..k]), Previous(run[..k]), LastAction(run[..k]));
    RouteIsNeverDisabled(run[k - 1].outcome.error.value);
  }

  // Every retry passed its look at the deadline; it may start later than that, never earlier.
  lemma RetriesWereInTime(candidates: seq<AttemptCandidate>, max: int, deadline: int, run: seq<Attempt>, k: nat)
    requires LegalRun(candidates, max, deadline, run) && 0 < k < |run|
    ensures run[k].checkedAt < deadline && run[k].checkedAt <= run[k].startedAt
  {
    LegalPrefix(candidates, max, deadline, run, k + 1);
    LegalStep(candidates, max, deadline, run, k);
    assert run[..k + 1][k] == run[k];
  }

  // Nothing follows a handled attempt, a Stop or an expired budget.
  lemma EndingsAreFinal(candidates: seq<AttemptCandidate>, max: int, deadline: int, run: seq<Attempt>, k: nat)
    requires LegalRun(candidates, max, deadline, run) && k < |run|
    requires run[k].handled || run[k].expired
      || run[k].outcome.error.None? || FallbackDecision(run[k].outcome.error.value).1 == Stop
    ensures k == |run| - 1
  {
    if k + 1 < |run| {
      LegalStep(candidates, max, deadline, run, k + 1);
    }
  }

  // A fallback-only attempt is reached by attempts on its own model that start at a normal route of it.
  lemma {:induction false} FallbackChain(candidates: seq<AttemptCandidate>, max: int, deadline: int, run: seq<Attempt>, k: nat)
    returns (start: nat)
    requires LegalRun(candidates, max, deadline, run) && k < |run|
    ensures start <= k && !run[start].fallbackOnly
    ensures forall i :: start < i <= k ==> run[i].fallbackOnly
    ensures forall i :: start <= i <= k ==> ModelOf(run[i]) == ModelOf(run[k])
  {
    if !run[k].fallbackOnly {
      return k;
    }
    LegalStep(candidates, max, deadline, run, k);
    NextIsFresh(candidates, Attempted(run[..k]), Previous(run[..k]), LastAction(run[..k]));
    assert run[..k][k - 1] == run[k - 1];
    start := FallbackChain(candidates, max, deadline, run, k - 1);
  }

  // ----- the choice, by positions in the list

  // What an action lets follow an attempt on `prev`: a route not yet tried, and a fallback-only one on the same model.
  predicate MayFollow(a: AttemptCandidate, tried: set<string>, prev: Candidate, action: Action) {
    var next := a.candidate;
    && next.route.id !in tried && (!a.fallbackOnly || next.model.id == prev.model.id)
    && (action == NextModel ==> next.model.id != prev.model.id)
    && (action == DisableCredential ==> CredentialKey(next.route) != CredentialKey(prev.route))
    && (action == CooldownProvider ==> next.route.provider != prev.route.provider)
    && (action == DisableRoute ==> next.route.id != prev.route.id)
    && action != Stop
  }

  // A route of the same model is preferred when any route may follow.
  predicate Prefers(a: AttemptCandidate, b: AttemptCandidate, prev: Candidate, action: Action) {
    action == NextRoute && a.candidate.model.id == prev.model.id != b.candidate.model.id
  }

  lemma FirstIsEarliest(candidates: seq<AttemptCandidate>, p: AttemptCandidate -> bool) returns (j: nat)
    requires First(candidates, p).Some?
    ensures j < |candidates| && First(candidates, p) == Some(candidates[j]) && p(candidates[j])
    ensures forall i :: 0 <= i < j ==> !p(candidates[i])
  {
    if p(candidates[0]) {
      j := 0;
    } else {
      var k := FirstIsEarliest(candidates[1..], p);
      j := k + 1;
    }
  }

  // The first attempt goes to the first candidate of the list that is not fallback-only.
  lemma StartsAtTheHead(candidates: seq<AttemptCandidate>, max: int, deadline: int, run: seq<Attempt>) returns (j: nat)
    requires LegalRun(candidates, max, deadline, run) && run != []
    ensures j < |candidates| && candidates[j] == Chosen(run[0]) && !candidates[j].fallbackOnly
    ensures forall i :: 0 <= i < j ==> candidates[i].fallbackOnly
  {
    LegalStep(candidates, max, deadline, run, 0);
    j := FirstIsEarliest(candidates, Normals(Attempted(run[..0])));
  }

  // The first attempt of a request goes to a route of the model that it names, or that is pinned, and of any other request
  // to one of the pool; no route that competes with it is better.
  lemma StartsWithTheBest(v: View, req: Request, max: int, deadline: int, run: seq<Attempt>) returns (field: seq<Candidate>)
    requires LegalRun(Resolved(v, req), max, deadline, run) && run != []
    ensures var first := run[0].outcome.candidate;
      && !run[0].fallbackOnly && Competes(v, req, first)
      && (forall c :: c in field <==> Competes(v, req, c))
      && forall c :: c in field ==> NoWorse(v, field, first, c)
  {
    var j := StartsAtTheHead(Resolved(v, req), max, deadline, run);
    field := HeadOfResolved(v, req);
    assert j == 0;
  }

  // Every later attempt goes to a candidate that the last error allows, and no other one that it allows comes earlier in
  // the list, except where a route of the same model is preferred.
  lemma GoesOnInOrder(candidates: seq<AttemptCandidate>, max: int, deadline: int, run: seq<Attempt>, k: nat)
    returns (j: nat)
    requires LegalRun(candidates, max, deadline, run) && 0 < k < |run|
    ensures run[k - 1].outcome.error.Some? && j < |candidates| && candidates[j] == Chosen(run[k])
    ensures var prev, action := run[k - 1].outcome.candidate, FallbackDecision(run[k - 1].outcome.error.value).1;
      && MayFollow(candidates[j], Attempted(run[..k]), prev, action)
      && forall i :: 0 <= i < |candidates| && MayFollow(candidates[i], Attempted(run[..k]), prev, action) ==>
           !Prefers(candidates[i], candidates[j], prev, action) && (i < j ==> Prefers(candidates[j], candidates[i], prev, action))
  {
    LegalStep(candidates, max, deadline, run, k);
    assert run[..k][k - 1] == run[k - 1];
    j := PickIsEarliest(candidates, Attempted(run[..k]), run[k - 1].outcome.candidate,
      FallbackDecision(run[k - 1].outcome.error.value).1);
  }

  lemma PickIsEarliest(candidates: seq<AttemptCandidate>, tried: set<string>, prev: Candidate, action: Action)
    returns (j: nat)
    requires NextAttempt(candidates, tried, Some(prev), action).Some? && action != DisableRoute
    ensures j < |candidates| && NextAttempt(candidates, tried, Some(prev), action) == Some(candidates[j])
    ensures MayFollow(candidates[j], tried, prev, action)
    ensures forall i :: 0 <= i < |candidates| && MayFollow(candidates[i], tried, prev, action) ==>
      !Prefers(candidates[i], candidates[j], prev, action) && (i < j ==> Prefers(candidates[j], candidates[i], prev, action))
  {
    var any, same := Acceptables(tried, prev, action), AcceptableOfModel(tried, prev, action);
    if action == NextRoute && First(candidates, same).Some? {
      j := FirstIsEarliest(candidates, same);
    } else {
      j := FirstIsEarliest(candidates, any);
    }
    forall i | 0 <= i < |candidates| && MayFollow(candidates[i], tried, prev, action)
      ensures any(candidates[i]) && (same(candidates[i]) <==> candidates[i].candidate.model.id == prev.model.id)
      ensures candidates[i] in candidates
    {
    }
  }

  // The choice is complete: a run that stops for want of a candidate has none left that may follow.
  lemma NoCandidateIsLeft(candidates: seq<AttemptCandidate>, attempted: set<string>, previous: Option<Candidate>, action: Action)
    requires NextAttempt(candidates, attempted, previous, action).None?
    ensures previous.None? ==> forall a :: a in candidates ==> a.fallbackOnly || a.candidate.route.id in attempted
    ensures previous.Some? ==> forall a :: a in candidates ==> !MayFollow(a, attempted, previous.value, action)
  {
  }
}
