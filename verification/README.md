# A verified model of Free-Model-Router

Free-Model-Router is a local gateway: it takes one chat request, picks among the models and routes of several
providers, and retries elsewhere when an upstream attempt fails. This project models the parts of it that carry state
or arithmetic, in Dafny, and proves what they promise.

`dafny verify dfyconfig.toml` checks everything. The modules follow the program:

| module | part of the program |
|---|---|
| FailurePolicy, FailoverRun, Attempts, UsageRecords | one request as a bounded run of attempts: the policy table, the choice of the next candidate, the two kinds of attempt racing the deadline timer, the per-request usage record |
| Eligibility, CandidateResolution, ModelTypes | which routes a request may reach, and in which order |
| Percentiles, Scoring, Ranking, Matcher, Sorting, Numbers | mid-rank percentiles, scores, the ranking order, benchmark matching |
| SlotManager | the blocking per-provider semaphore |
| ModelPool, GatewayControl | the model pool, its reconciliation with a catalog, optimistic control and the pin |
| ProviderConfigs, Secrets, ConfigUpdate, ConfigRuns, SecretFileLimits, ExampleConfig | the configuration transaction with staged credentials, its runs next to the other writer of the config, and where its secret file falls short |
| UsageLog, UsageStore | the usage log: normalization, retention, persistence, its JSONL form |
| BenchmarkCache | the crash-safe benchmark cache |
| ChunkedBody | the desktop shell's decoder for the chunked coding of section 7.1 of RFC 9112 |
| Runs, Strings, Wrappers | runs of a state machine, string helpers, Option and Result |

How the outside world is modelled:

- The provider, the client, the clock and the deadline timer are adversaries. `Attempts.Interfere`, or `Attempts.Pause`
  where an attempt has no budget, runs between every two steps of the handler that look at the clock, the client or the
  budget, and does anything they may do. So the loop's look at the deadline, the start of the attempt, its end and the
  making of its usage record are four different moments.
- An operation on a file, on the OS credential store or on the network takes its outcome from a nondeterministic choice,
  a parameter or an arbitrary script of faults, and a failed write may or may not have taken effect. A replaced file may
  end up set aside.
- A lock-guarded method is one atomic step; runs are sequences of such steps in any order.
- Integers are unbounded, floats are reals with a tag for NaN and the infinities, times are instants, and random
  identifiers and tokens are parameters.

Results that differ from what one might expect of the code, each stated as a theorem:

- A request whose last error is a canceled failure gets an empty response even when its client is still connected
  (`Attempts.CanceledFailureIsSilent`); `Attempts.SilentExactly` says exactly when an unserved request gets no body.
- The secret file is read up to a limit that is not looked at when it is written: two accepted updates with keys of
  600 KiB succeed without any fault, and then no secret in the file can be read (`SecretFileLimits.TwoLargeKeysAreLost`).
  After a call that stores a key, without a backend and a loss, references are readable exactly when the encoded file,
  new keys included, is within the limit (`ConfigUpdate.SoundExactlyWithinLimit`).
- A replacement of the secret file that fails with the file set aside loses every secret in it, in a call that fails
  (`SecretFileLimits.SetAsideDuringUpdate`) or in the cleanup of one that succeeds. Secrets in use survive a call exactly
  when the file holds none of them or no replacement ends that way (`ConfigUpdate.FailureKeepsSecretsExactly`,
  `ConfigUpdate.SuccessKeepsSecretsExactly`); over a whole run, `ConfigRuns.RunIsSoundExactly`. A caller can tell
  beforehand: no fault loses a secret in use exactly when the file holds none or cannot be written
  (`SecretFileLimits.LossSafeExactly`).
- An update that succeeds on the revision a client read need not apply to the config it read: the pool and the pin are
  written to the same config without raising its revision. Everything else is what was read, rival updates are refused,
  and the whole config is exactly when the last pool and pin persisted in between are those that were read
  (`ConfigRuns.SuccessSeesItsRead`; the input is `ConfigRuns.PersistGoesUnseen`).
- A usage report that comes in an event of its own, without content, is counted for a collected answer and not for a
  streamed one (`Attempts.BareUsageIsMissed`, internal/gateway/attempt.go:757-768); in text, tool calls and reasoning the
  two modes agree (`Attempts.BothModesAgree`).
- A secret file without a list of secrets, such as an empty object, is taken by a write, but a read and an erasure refuse
  it (`Secrets.SecretStore.WriteFile`, `Secrets.SecretStore.DeleteFromFile`).
- A restore of the persisted pool, accepted or refused, keeps the pin inside the selection exactly when it leaves the pool
  alone, no pin is set, the set pin stays selected, or its own pin takes over (`GatewayControl.RestoreKeepsPinExactly`);
  the program restores once, before any pin. A refused pin does not take back the selection that came with it
  (`GatewayControl.RefusedPinLeavesOldPinOutside`).
- A replacement of the cache file is crash-safe exactly when the target exists or there is no set-aside copy
  (`BenchmarkCache.CrashSafeExactly`): with only the set-aside copy left, that copy is removed first. A load that puts it
  back restores safety, a save that comes first does not (`BenchmarkCache.LoadMakesSaveSafe`).
- The cache checks its size limit on load only, so a snapshot over the limit is saved and then not found
  (`BenchmarkCache.Cache.Save`).
- A usage record of exactly the size limit is admitted but not kept, and it pushes out every other record
  (`UsageStore.AppendedIsKept`).
- Normalizing a usage record twice is normalizing it once, unless both of its times and the first clock are zero and the
  second clock is not (`UsageLog.NormalizeIsIdempotent`).
- A secret that was just set is read back exactly when the backend has it, or the backend has no usable value for it and
  the file with it is within the limit (`Secrets.SecretStore.Set`).
- The failure table can disable a route, but no error reaches that entry (`FailurePolicy.RouteIsNeverDisabled`).
- The candidate list of an explicit request may hold the same route twice (`CandidateResolution.AlternatesAreResolved`);
  attempts are distinct nevertheless (`FailoverRun.RoutesAreDistinct`).
- A provider that returns neither a stream nor an error is reported as a protocol failure even after the deadline has
  expired (`Attempts.OpenStream`, internal/gateway/attempt.go:681-684).
- A generated inference key is empty when the random source fails, and an empty key deletes the stored one
  (`ConfigUpdate.StoreInferenceKey`, internal/app/config_update.go:99-109).

## Model

| member | source | states |
|---|---|---|
| Attempts.OneSwapWins | internal/gateway/attempt.go:139-178 | In any interleaving of the timer's and the handler's compare-and-swaps the first wins, and no later one changes the word. |
| Attempts.AttemptBudget.StateFollowsSwaps | internal/gateway/attempt.go:139-178 | The budget's word is at any time the outcome of the swaps tried on it so far, in their order. |
| Attempts.AttemptBudget.Commit | internal/gateway/attempt.go:170-178 | Wins exactly when neither side has tried before, and then the context is not cancelled. |
| Attempts.Poll | internal/gateway/attempt.go:725-729 | A poll that returns after the timer has cancelled the context is seen as expired. |
| Attempts.ForwardEvent | internal/gateway/attempt.go:757-774 | The first semantic event is written only if the commit wins; once committed every semantic event is written, as this candidate's chunk. |
| Attempts.EndStream | internal/gateway/attempt.go:730-756 | How a stream ends: an end marker, one error event, or nothing for a client that has left; before the commit nothing is written. |
| Attempts.TailIs | internal/gateway/attempt.go:730-756 | How a committed stream ends: an end marker exactly without an error, else one error, or silence when the client has left or the error is a cancellation that no deadline explains. |
| Attempts.ForwardStream | internal/gateway/attempt.go:687-783 | What is written is this model's chunks of the polled semantic events in order, and their tail; nothing at all without a commit; a late poll is a route-scoped timeout. |
| Attempts.OpenStream | internal/gateway/attempt.go:663-686 | A slot or call error becomes the budget's timeout exactly when the timer has won; a nil stream is a protocol failure even then. |
| Attempts.RunStreamingAttempt | internal/gateway/attempt.go:658-783 | Handled exactly when committed; a committed attempt's context is never cancelled by the deadline; an unhandled one leaves no byte. |
| Attempts.CollectStream | internal/gateway/attempt.go:588-643 | The answer joins the polled events up to the finishing one; no semantic event or a late poll is an error. |
| Attempts.RunNonStreamingAttempt | internal/gateway/attempt.go:558-649 | One complete answer exactly when there is no error, and nothing otherwise. |
| Attempts.RunAttempt | internal/gateway/attempt.go:298-313 | One attempt under its own budget: the response is touched exactly when it is handled, and its outcome is recorded, later than the attempt ends. |
| Attempts.AttemptLoop | internal/gateway/attempt.go:279-322 | Every execution is a legal run, ends for the reason given, and only its last attempt is part of the response. |
| Attempts.TryNext | internal/gateway/attempt.go:291-313 | One turn of the loop keeps the run legal, although the attempt starts later than the deadline was looked at. |
| Attempts.ChatHandler | internal/gateway/attempt.go:277-331 | Against every provider, client and timer: at most one attempt commits, it is the last, timer-caused cancellations are reported as route-scoped timeouts, and an unserved request gets the error bodies described by SilentExactly. |
| Attempts.WriteUpstreamError | internal/gateway/gateway.go:385-401 | One error, or nothing for a canceled failure that is not an unsupported feature. |
| Attempts.SilentExactly | internal/gateway/attempt.go:324-331 | An unserved request with candidates gets no body exactly when its client is gone, or its last error is not unsupported and carries a canceled failure; otherwise exactly one error. |
| Attempts.CanceledFailureIsSilent | internal/gateway/gateway.go:391-396 | The input: a provider's canceled failure leaves a connected client without a body. |
| Attempts.ChunksAt | internal/gateway/attempt.go:699-723 | The chunks written are one for one the semantic events, in order. |
| Attempts.NothingIsLost | internal/gateway/attempt.go:757-780 | What a committed stream has written tells exactly what the provider sent: the same text, tool calls and reasoning, under this model, although events without content are not forwarded. |
| Attempts.BothModesAgree | internal/gateway/attempt.go:588-783 | The same polled results give a streaming client and a collecting one the same text, tool calls and reasoning. |
| Attempts.UsageAgrees | internal/gateway/attempt.go:757-768 | Both modes count the same usage when every event that reports usage also carries content or a finish reason. |
| Attempts.BareUsageIsMissed | internal/gateway/attempt.go:757-768 | The input: a usage report without content, counted when collecting and not when streaming. |
| FailoverRun.RoutesAreDistinct | internal/gateway/attempt.go:284-322 | No route is attempted twice in a run, whatever the candidate list repeats. |
| FailoverRun.RunIsBounded | internal/gateway/attempt.go:284-322 | A run has at most MaxAttempts attempts and at most as many as there are distinct routes. |
| FailoverRun.EachStepObeys | internal/gateway/attempt.go:444-491 | Each attempt obeys the action of the error before it, and another route of the same model is preferred after NextRoute. |
| FailoverRun.EndingsAreFinal | internal/gateway/attempt.go:284-322 | Nothing follows a handled attempt, a Stop or an expired budget. |
| FailoverRun.RetriesWereInTime | internal/gateway/attempt.go:288-298 | Every retry passed its look at the deadline, and starts no earlier than that. |
| FailoverRun.FallbackChain | internal/gateway/attempt.go:444-475 | A fallback-only attempt is reached by an unbroken chain of attempts on its model that starts at a normal route. |
| FailoverRun.NextIsFresh | internal/gateway/attempt.go:444-491 | The next candidate is listed, not attempted before, and allowed by the last action. |
| FailoverRun.NoCandidateIsLeft | internal/gateway/attempt.go:444-491 | When no next candidate is found, none is left that is not tried and that the last error allows. |
| FailoverRun.StartsAtTheHead | internal/gateway/attempt.go:444-452 | The first attempt of any run goes to the first candidate of the list that is not fallback-only. |
| FailoverRun.StartsWithTheBest | internal/gateway/attempt.go:353-452 | The first attempt of a request goes to a serving route of the model it names, or that is pinned, and otherwise of the pool; no competing route scores higher or, without data, is faster. |
| FailoverRun.GoesOnInOrder | internal/gateway/attempt.go:454-491 | Every later attempt goes to a candidate that the last error allows, and no other allowed one stands earlier in the list; after NextRoute this holds among the routes of the same model when there are any. |
| FailoverRun.CredentialKey | internal/gateway/attempt.go:493-501 | The credential of a route: its own id, else what its route id has before the first separator, else its provider. |
| FailoverRun.AttemptsServe | internal/gateway/attempt.go:353-418 | Every attempt of a request goes to a route that was enabled, healthy and able to serve it, and to a paid one only where its own policy allows. |
| FailurePolicy.StopIsExact | internal/gateway/attempt.go:503-541 | Exactly which errors end the request. |
| FailurePolicy.ActionIsExact | internal/gateway/attempt.go:503-541 | Where each error goes, by the class and scope of the failure it carries or, without one, by its causes. |
| FailurePolicy.StatusIsExact | internal/gateway/attempt.go:106-131 | An attempt has no status exactly when a cancellation ended it; a status from upstream is kept, and which errors count as 400 and 429. |
| FailurePolicy.RouteIsNeverDisabled | internal/model/failure.go:71-97 | No error reaches the table's route-disabling entry. |
| FailurePolicy.ClientErrorsStop | internal/gateway/attempt.go:503-541 | A request-scoped failure or a cancellation is never retried. |
| FailurePolicy.BudgetErrorIsRouteTimeout | internal/gateway/attempt.go:190-192 | An exhausted budget is a retryable route-scoped timeout, not a client cancellation. |
| FailurePolicy.Policy.NormalizedIsBounded | internal/gateway/failover.go:41-53 | Normalization bounds attempts and budget, leaves exactly values within the bounds alone, gives 4 attempts and 30 seconds for none, and is idempotent. |
| UsageRecords.UsageCollector.Record | internal/gateway/attempt.go:51-95 | The collector's new state after one attempt. |
| UsageRecords.UsageReflectsLastAttempt | internal/gateway/attempt.go:51-104 | The request is charged to its one committed attempt and takes that attempt's result; without one, a single cancelled attempt makes it cancelled. |
| UsageRecords.AttemptsAreNumbered | internal/gateway/attempt.go:51-95 | Attempt k is recorded as number k+1 with its own model, route, outcome, status and tokens. |
| ModelTypes.Capabilities.IntersectSupports | internal/model/types.go:85-118 | An intersection meets a requirement exactly when both sides do. |
| ModelTypes.Capabilities.SupportsExactly | internal/model/types.go:195-219 | A feature must be known to be there, and a length that is not stated meets any requirement. |
| ModelTypes.SegmentIsAfterFirstSlash | internal/model/identity.go:71-79 | The model part of an id is what follows its first slash, when there is something on both sides. |
| Eligibility.FilterRoutes | internal/router/filter.go:95-125 | The routes of a model that the filter admits, in order. |
| Eligibility.Filter | internal/router/filter.go:78-128 | The eligible candidates, in the order of the requested ids. |
| Eligibility.EligibleInContains | internal/router/filter.go:78-128 | A candidate is listed exactly when it is an admitted route of a listed model. |
| Eligibility.AdmittedInOrder | internal/router/filter.go:95-125 | The admitted routes of a model keep their order. |
| Eligibility.EligibleAppend | internal/router/filter.go:78-128 | The routes of a further model come after those listed before it, and a repeated model adds none. |
| Eligibility.AdmitsExactly | internal/router/filter.go:95-141 | Exactly which routes are admitted, by their fields: enabled, healthy and compatible, both the model and the override meeting the request, and free unless a policy allows more. |
| CandidateResolution.RankCandidates | internal/gateway/performance.go:116-136 | A permutation of the candidates: when any of them is measured non-increasing in routing score, and otherwise, and among equal scores, known latencies first and ascending, with ids breaking ties. |
| CandidateResolution.FasterScoresHigher | internal/gateway/performance.go:116-136 | With equal effective performance and two fresh latencies, the strictly faster candidate scores strictly higher: no clamp merges them. |
| CandidateResolution.FasterComesFirst | internal/gateway/performance.go:116-136 | On both branches, the strictly faster of two such candidates comes first. |
| CandidateResolution.CandidateScoreIs | internal/gateway/performance.go:122-135 | The score of a candidate combines the performance of its bound record, pulled towards neutral by the binding's confidence, with the percentile of its latency, a missing one counting as neutral. |
| CandidateResolution.BetterComesFirst | internal/gateway/performance.go:116-136 | Of two candidates with the same latency the one of strictly higher effective performance comes first, whatever their ids. |
| CandidateResolution.RankedUnique | internal/gateway/performance.go:156-170 | The ranked candidates whose routes are not listed yet, each route once. |
| CandidateResolution.ResolveAttemptCandidates | internal/gateway/attempt.go:353-418 | Normal candidates first, then Unknown-access alternates. |
| CandidateResolution.HeadOfResolved | internal/gateway/attempt.go:353-399 | The list starts with a serving route of the named or pinned model, or else of the pool, and no route that competes for the place is better. |
| CandidateResolution.ResolvedIsInOrder | internal/gateway/attempt.go:353-418 | The list is the routes of the bound model, then those of the pool, then the alternates, each part in ranking order. |
| CandidateResolution.ResolvedCandidatesServe | internal/gateway/attempt.go:353-418 | Every resolved candidate can serve the request, and a fallback-only one is an Unknown-access route, not itself normal, of a model that has a normal candidate. |
| CandidateResolution.AdmittedIsResolved | internal/gateway/attempt.go:353-399 | No route of a selected model that serves the request is left out once the list is not empty. |
| CandidateResolution.AlternatesAreResolved | internal/gateway/attempt.go:401-418 | Every Unknown-access alternate that serves the request is listed, and one of an explicit model that is also selected at least twice. |
| Ranking.RankLessIsStrictWeak | internal/router/filter.go:162-211 | The comparator is a strict weak order for any lookups, over partial data. |
| Ranking.RankWithScoreIsSorted | internal/router/filter.go:162-178 | The result is a permutation of the input, sorted by the comparator. |
| Ranking.RankWithScoreIgnoresInputOrder | internal/router/filter.go:162-211 | With distinct (model, route) pairs the result is the same for every input order. |
| Percentiles.Percentile | internal/scoring/scoring.go:122-144 | Sorting and two binary searches compute the mid-rank defined by counting. |
| Percentiles.PercentilesOf | internal/scoring/scoring.go:153-159 | The percentiles of any list, invalid samples included, sum to exactly 50 times its length. |
| Percentiles.MidRanksSum | internal/scoring/scoring.go:122-144 | Doubled mid-ranks of a population of n sum to n(n-1), by counting pairs twice. |
| Percentiles.PercentilesSumToNeutral | internal/scoring/scoring.go:122-159 | The mean percentile is neutral, for either direction. |
| Percentiles.PercentileIsMonotone | internal/scoring/scoring.go:122-144 | A percentile is monotone in its value. |
| Percentiles.PercentileIsStrictOnMembers | internal/scoring/scoring.go:122-144 | On two different members of the population it is strictly monotone: the clamp never acts on a member. |
| Percentiles.PercentileIsMidPlace | internal/scoring/scoring.go:122-144 | The scale runs evenly from the first to the last place of the sorted samples, and equal samples share the middle of their places. |
| Percentiles.InvalidIsNeutral | internal/scoring/scoring.go:122-144 | A negative or non-finite sample scores neutral and leaves every other score as it is. |
| Percentiles.Search | internal/scoring/scoring.go:131-132 | Binary search finds the first index from which a monotone predicate holds. |
| Scoring.EffectiveIsBetween | internal/scoring/scoring.go:72-80 | Effective performance lies between the measured one and neutral, and is the one or the other at full and zero confidence. |
| Scoring.LatencyDecides | internal/scoring/scoring.go:83-86 | At equal performance the strictly better latency gives the strictly better routing score. |
| Scoring.PerformanceDecides | internal/scoring/scoring.go:83-86 | At equal latency the strictly better effective performance gives the strictly better routing score. |
| Scoring.ScoresAreWeightedMeans | internal/scoring/scoring.go:52-104 | Within their ranges the scores are weighted means, missing metrics counted as neutral: no clamp acts. |
| Scoring.RoutingIsMonotone | internal/scoring/scoring.go:83-104 | Raising any metric or the latency score never lowers the routing score. |
| Matcher.MatchUnique | internal/matcher/matcher.go:84-107 | Unique exactly when all records of maximal rank share one source id; the binding is that of the first of them. |
| Matcher.Match | internal/matcher/matcher.go:109-135 | The binding of the first record of the least source id among those of maximal rank. |
| Matcher.VerdictIgnoresOrder | internal/matcher/matcher.go:84-107 | The verdict is the same for every permutation of the benchmarks. |
| Matcher.VerdictCountsTops | internal/matcher/matcher.go:84-107 | Over distinct source ids the verdict is true exactly when one record attains the maximal rank. |
| Matcher.UniqueMatchIsMatch | internal/matcher/matcher.go:84-135 | A unique result's binding is the one that the tie-breaking match returns. |
| Matcher.MatchIgnoresOrder | internal/matcher/matcher.go:109-135 | With distinct source ids the tie-breaking match is independent of the order. |
| Matcher.TiesAreBrokenById | internal/matcher/matcher.go:167-175 | Records of one rank tie in confidence, so only their ids decide. |
| Matcher.MethodIsBest | internal/matcher/matcher.go:177-316 | A shared key or name is exact, else a shared family, else a variant: one name, of two tokens or more, with further tokens after it. |
| Matcher.StrengthIs | internal/matcher/matcher.go:84-107 | A record matches exactly when it has an id and some method applies, and it ranks by its method. |
| Matcher.BindingIs | internal/matcher/matcher.go:148-224 | A binding takes the model's own key where it has one, and its confidence is the method's. |
| SlotManager.Manager.TryAcquire | internal/health/health.go:57-79 | One turn of the acquiring loop: it takes a slot, waits on the provider's current channel, or gives up. |
| SlotManager.Manager.ReleaseSlot | internal/health/health.go:82-89 | Gives a slot back and notifies, and never goes below zero. |
| SlotManager.Manager.SetProviderCap | internal/health/health.go:41-46 | Sets the cap and notifies. |
| SlotManager.Manager.Notify | internal/health/health.go:91-104 | Closes the provider's channel, which is open, and replaces it. |
| SlotManager.NoLostWakeup | internal/health/health.go:41-104 | In every reachable state every waiter holds a closed channel, or the current one while at least as many callers as the positive cap hold a slot, and inFlight counts the slots held. |
| SlotManager.BlockedIsReleased | internal/health/health.go:57-104 | A blocked caller has a slot holder to wait for, and any release or cap change of its provider frees it. |
| SlotManager.AcquiresBelowCap | internal/health/health.go:57-70 | A caller that looks gets a slot exactly when the provider has no positive cap or fewer callers than that hold one. |
| SlotManager.AllAcquire | internal/health/health.go:57-70 | Under a cap of n, n callers and no others all get a slot at once. |
| SlotManager.CapIsRespected | internal/health/health.go:57-79 | While a positive cap is left alone, the slots in use never exceed it. |
| ModelPool.Reconcile | internal/catalog/reconcile.go:37-81 | Fails without effect on a missing or invalid snapshot; otherwise keeps the selection, adds exactly what joins, and marks exactly what is gone. |
| ModelPool.PoolState.Select | internal/catalog/pool.go:104-113 | Adds the ids once, in Manual mode, one revision further. |
| ModelPool.PoolState.SelectAll | internal/catalog/pool.go:137-148 | Adds every auto-routable model once and clears the tombstones. |
| ModelPool.PoolState.ClearAll | internal/catalog/pool.go:151-156 | Empties the selection in Manual mode. |
| ModelPool.PoolState.Replace | internal/catalog/pool.go:161-176 | Replaces selection and mode, or refuses an unknown mode without effect. |
| ModelPool.PoolState.Clone | internal/catalog/pool.go:84-93 | A fresh copy of the whole state. |
| ModelPool.Store.CommitSnapshot | internal/catalog/store.go:32-49 | Numbers a valid snapshot with the next revision, or refuses without effect. |
| GatewayControl.AddUniqueIDs | internal/gateway/control.go:439-451 | The loop computes the list of AddedIDs. |
| GatewayControl.AddedIDs | internal/gateway/control.go:439-451 | Adds exactly the new non-empty ids, after the old list, without introducing duplicates. |
| GatewayControl.RemoveIDs | internal/gateway/control.go:453-468 | The in-place compaction leaves the list of RemovedIDs in the prefix. |
| GatewayControl.RemovedIDs | internal/gateway/control.go:453-468 | Removes exactly the given ids, without introducing duplicates. |
| GatewayControl.ApplyGenericSelectionPolicy | internal/gateway/control.go:415-437 | The sorted, duplicate-free list of the ids that the routes' stated defaults, or else the persisted list, choose. |
| GatewayControl.RestoredIsExact | internal/gateway/control.go:415-437 | Of the routes of a model the first one that states a default decides, and without any the persisted list. |
| GatewayControl.Gateway.UpdateModelPool | internal/gateway/control.go:264-308 | Applies to exactly the expected revision, or changes nothing and says why. |
| GatewayControl.UpdateIsExact | internal/gateway/control.go:264-308 | The selection, mode and pin after an accepted update, by the fields of the mutation. |
| GatewayControl.CommandsAreAcceptedExactly | internal/gateway/control.go:311-381 | Exactly which pins, replacements and resets are accepted, and which refusals are revision conflicts. |
| GatewayControl.Gateway.ReplaceModelPool | internal/gateway/control.go:311-330 | The same for a full replacement; a pin outside the new selection is dropped. |
| GatewayControl.Gateway.PinModel | internal/gateway/control.go:333-355 | Pins only a well-formed id that is both in the catalog and selected. |
| GatewayControl.Gateway.AutoSelect | internal/gateway/control.go:358-381 | Clears the pin and returns to Automatic mode. |
| GatewayControl.Gateway.RestoreControlState | internal/gateway/control.go:384-413 | Restores the persisted selection and pin; a refused pin leaves the restored pool. |
| GatewayControl.Gateway.RefreshCatalog | internal/gateway/gateway.go:179-195 | Publishes a reconciled copy and the committed catalog together, or changes nothing. |
| GatewayControl.StepKeepsInv | internal/gateway/control.go:264-413 | Every command keeps the tombstones within the selection and the pin empty or selected. |
| GatewayControl.RestoreKeepsPinExactly | internal/gateway/control.go:384-413 | For every restore, accepted or refused: exactly when it keeps the pin inside the selection. |
| GatewayControl.RefusedPinLeavesOldPinOutside | internal/gateway/control.go:391-409 | The input: a refused pin leaves the restored pool and the old pin outside it. |
| GatewayControl.EditsKeepUniqueness | internal/gateway/control.go:264-468 | The selection stays free of duplicates when replaced lists have none. |
| GatewayControl.RefreshKeepsSelection | internal/gateway/gateway.go:179-195 | A refresh drops no selected id, leaves as tombstones exactly the selected ids the catalog lacks, and in Automatic mode leaves every auto-routable model selected. |
| GatewayControl.RefreshAddsExactly | internal/catalog/reconcile.go:37-92 | Exactly what a refresh adds, by the fields of the routes: enabled and selected by default in any mode, enabled and free in Automatic mode only; without stated defaults a Manual selection stays as it is. |
| GatewayControl.Serve | internal/gateway/control.go:264-413 | Any sequence of commands is a run of the state machine from the state before to the state after. |
| GatewayControl.RunsKeepInv | internal/gateway/control.go:264-413 | The pin and tombstone invariant holds throughout every run that restores at the start. |
| GatewayControl.RunsKeepUniqueness | internal/gateway/control.go:264-468 | The selection is duplicate-free throughout every run. |
| GatewayControl.EveryRefreshKeepsSelection | internal/catalog/reconcile.go:37-92 | Every refresh of every run keeps the selection, adds to it exactly the models that the fields of their routes allow in its mode, and leaves exact tombstones. |
| GatewayControl.AcceptedWriteSeesItsRead | internal/gateway/control.go:264-381 | A write accepted on the revision a client read applies to the very state it read. |
| GatewayControl.OneWinnerPerRevision | internal/gateway/control.go:264-381 | Of two writers that expect one revision, one is refused. |
| ProviderConfigs.RefNamesOneProvider | internal/config/providers.go:14-14 | A credential reference belongs to at most one valid provider id. |
| ProviderConfigs.FreshRef | internal/app/config_update.go:55-55 | An issued reference is well-formed and carries its revision. |
| ProviderConfigs.NegativeRef | internal/config/providers.go:92-98 | A reference issued at a negative revision is refused by validation. |
| ProviderConfigs.ValidateProviders | internal/config/providers.go:64-115 | The loop accepts exactly the lists of valid providers with distinct ids. |
| Secrets.SecretStore.Set | internal/config/secrets.go:146-170 | Affects one key only unless the file is lost, stores the trimmed value on success, and says exactly when it is read back, and exactly when it succeeds without faults. |
| Secrets.SecretStore.DeleteStrict | internal/config/secrets.go:202-221 | Affects one key only unless the file is lost, and on success leaves it in neither place. |
| Secrets.SecretStore.WriteFile | internal/config/secrets.go:261-291 | The file after a write under any pattern of failing steps; a file without a list of secrets is taken, a malformed or too long one is not. |
| Secrets.SecretStore.DeleteFromFile | internal/config/secrets.go:293-330 | The file after an erasure under any pattern of failing steps, and exactly when one succeeds without faults: a file without a list of secrets is refused. |
| Secrets.FileEffect | internal/config/config.go:413-440 | A file operation leaves all other keys alone, or the file is lost and takes them with it. |
| Secrets.KeptExactly | internal/config/config.go:413-440 | A key survives a loss of the file exactly when the file does not hold it. |
| Secrets.ReplacedOrLostExactly | internal/config/config.go:413-440 | Exactly which failing steps of a replacement leave the new file, the old one or none. |
| Secrets.FaultlessFile | internal/config/secrets.go:261-330 | What a write and an erasure do when nothing fails; a malformed or too long file is left alone by both. |
| Secrets.GetIs | internal/config/secrets.go:112-138 | A read takes the backend's value unless it is blank or missing, and else that of a file within its limit. |
| Secrets.TwoLargeValuesAreLost | internal/config/secrets.go:236-291 | The input: without any fault, two values of 600 KiB are stored and then neither is readable. |
| Secrets.SetAsideLosesAll | internal/config/config.go:413-440 | The input: a replacement that ends with the file set aside loses every secret in it. |
| ConfigUpdate.PlanUpdate | internal/app/config_update.go:16-85 | Accepts exactly the acceptable requests before any write and refuses others for the first check that fails, and plans the requested config, its new credentials and the stale ones. |
| ConfigUpdate.AcceptedExactly | internal/app/config_update.go:16-85 | Exactly which requests are accepted, by their own fields. |
| ConfigUpdate.EndpointIsRefusedExactly | internal/app/config_update.go:31-37 | A call is refused for an endpoint exactly when it moves a provider with a stored credential and says nothing about the key; supplying or clearing the key is let through. |
| ConfigUpdate.KeptKeyKeepsEndpoint | internal/app/config_update.go:31-61 | After a success a credential that was in use before belongs to the provider id and the endpoint that it had. |
| ConfigUpdate.RequestedIsConfigured | internal/app/config_update.go:21-61 | The new config is the old one with the requested bind address and providers: what an item says is taken, and what it leaves out is kept. |
| ConfigUpdate.RepeatChangesNothing | internal/app/config_update.go:16-61 | A request that repeats an acceptable config is accepted and changes nothing but the revision. |
| ConfigUpdate.NewRefIsFresh | internal/app/config_update.go:54-57 | A staged reference is in use nowhere and is the new config's. |
| ConfigUpdate.CandidateRefs | internal/app/config_update.go:31-61 | The new config refers to kept credentials and staged ones only. |
| ConfigUpdate.StaleRefs | internal/app/config_update.go:48-72 | A reference goes stale exactly when its provider is re-keyed or removed. |
| ConfigUpdate.StageSecrets | internal/app/config_update.go:86-92 | Writes the staged credentials in any order, and affects no other key unless the file is lost. |
| ConfigUpdate.CleanUp | internal/app/config_update.go:130-138 | Removes what it can of the listed secrets, leaves the rest of them as it was, and affects no other key unless the file is lost. |
| ConfigUpdate.StoreInferenceKey | internal/app/config_update.go:98-111 | Stores or deletes the inference key, and affects no other key unless the file is lost. |
| ConfigUpdate.GeneratedKeyIsStored | internal/app/config_update.go:98-127 | After a success the generated token is the one in the response and the one stored; without a request for a key the stored one stays. |
| ConfigUpdate.StageAndSave | internal/app/config_update.go:86-97 | Stages every credential and saves the config, or rolls back. |
| ConfigUpdate.Execute | internal/app/config_update.go:86-127 | Commits everything, or rolls back every write but the one that failed. |
| ConfigUpdate.UpdateConfig | internal/app/config_update.go:12-128 | One call's outcome under any pattern of store, save and delete failures. Without any, an accepted call loses nothing, succeeds if its keys can be stored, and with a backend alone leaves no cleanup pending. |
| ConfigUpdate.FailureKeepsSecretsExactly | internal/app/config_update.go:86-117 | A failed call keeps the config, and keeps every secret it names exactly when the file holds none of them or was not lost. |
| ConfigUpdate.FailureIsSoundExactly | internal/app/config_update.go:86-117 | After a failed call every reference is readable exactly when none relies on the file, or the file was not lost and is within its limit. |
| ConfigUpdate.SuccessKeepsSecretsExactly | internal/app/config_update.go:118-127 | A success raises the revision by exactly one, adds exactly the new references, and keeps every kept secret exactly when the file holds none of them or was not lost. |
| ConfigUpdate.SuccessIsSoundExactly | internal/app/config_update.go:118-127 | After a success every reference is readable exactly when none relies on the file, or the file is within its limit and was not lost since those credentials were stored. |
| ConfigUpdate.CommittedContents | internal/app/config_update.go:86-127 | Without a backend and a loss, the file then holds what it held, with the new keys and the inference key, and not the removed references, which are all dropped ones unless a cleanup is pending. |
| ConfigUpdate.SoundExactlyWithinLimit | internal/config/secrets.go:236-291 | Without a backend and a loss, a success that stores any key leaves exactly those contents in the file, and every reference is readable exactly when their encoding is within the limit. |
| ConfigUpdate.NewKeysAreStored | internal/app/config_update.go:48-57 | The new key of a re-keyed provider is stored under the reference that the new config carries unless the file is lost afterwards, and says exactly when it is readable. |
| ConfigRuns.PersistControlState | internal/app/app.go:264-279 | Writes the pool, its mode and the pin to the config, and nothing else of it, even when saving it fails. |
| ConfigRuns.Serve | internal/app/app.go:141-150 | Any sequence of update calls and writes of the control state is a run, and keeps the providers valid and their references no newer than the revision. |
| ConfigRuns.RunIsSoundExactly | internal/app/app.go:141-150 | Throughout any such run every reference names a readable secret exactly when no call loses the file or leaves it over its limit while a reference relies on it. |
| ConfigRuns.OneEndpointPerReference | internal/app/config_update.go:31-61 | Throughout any run a credential reference is, from its issue on, only ever paired with one provider and one endpoint. |
| SecretFileLimits.SetAsideDuringUpdate | internal/app/config_update.go:86-92 | The input: a failed call that takes a secret in use with it. |
| SecretFileLimits.LossSafeExactly | internal/config/config.go:413-440 | For every accepted call that stores a key: no fault can lose a secret in use exactly when the file holds none of them or cannot be written. |
| SecretFileLimits.TwoLargeKeysAreLost | internal/app/config_update.go:86-92 | The input: two successful calls, without any fault, after which no reference is readable. |
| ConfigRuns.RevisionCounts | internal/app/app.go:141-150 | The revision never falls, and while it stays the same only the control state changes, to the last one persisted. |
| ConfigRuns.SuccessSeesItsRead | internal/app/config_update.go:16-18 | A call that succeeds on the revision it read sees the config it read but for the last control state persisted since, so the whole config exactly when that is the one it read; rival calls are refused. |
| ConfigRuns.PersistGoesUnseen | internal/app/app.go:264-279 | The input: a pool or pin changed in between, under the same revision, by which the update still succeeds. |
| UsageLog.NormalizeRecord | internal/usage/usage.go:459-493 | The loops compute the normal form. |
| UsageLog.NormalizeIsNormal | internal/usage/usage.go:459-493 | What a stored record looks like. |
| UsageLog.NormalizeIsIdentity | internal/usage/usage.go:459-493 | Normalization leaves exactly the normal records alone. |
| UsageLog.NormalizeIsIdempotent | internal/usage/usage.go:459-493 | When normalizing twice is normalizing once. |
| UsageLog.NormalizeOnlyFills | internal/usage/usage.go:459-493 | Normalization fills in exactly what is missing and overwrites nothing. |
| UsageLog.LastTokensAre | internal/usage/usage.go:484-491 | Missing tokens are those of the last committed attempt that has any. |
| UsageLog.CollectedIsKept | internal/usage/usage.go:459-493 | Normalization never alters what a request's collector gathered. |
| UsageLog.DecodeJSONL | internal/usage/usage.go:427-457 | The line-cutting loop computes the decoded list, or reports a malformed line. |
| UsageLog.DecodeOfEncode | internal/usage/usage.go:410-457 | For any one-line codec, decoding what was encoded gives back the encodable records in order. |
| UsageLog.RecordsRoundTrip | internal/usage/usage.go:410-493 | Writing normal records that the codec keeps as JSONL and reading them gives back those that encode, in order and unchanged: the same list when all do. |
| UsageStore.FittingIsLongest | internal/usage/usage.go:331-350 | Dropping from the front until the rest fits keeps exactly the longest suffix within the budget. |
| UsageStore.ExpiresExactly | internal/usage/usage.go:313-329 | A record expires thirty days after it was completed or, when that is not known, started. |
| UsageStore.FilterInOrder | internal/usage/usage.go:313-329 | The unexpired records keep their order. |
| UsageStore.AppendedIsKept | internal/usage/usage.go:201-206 | A surviving record is kept exactly when it is shorter than the limit; one of exactly the limit empties the log. |
| UsageStore.ReopenedIsTheSame | internal/usage/usage.go:127-150 | Reading and pruning what was written gives the same records. |
| UsageStore.Store.Open | internal/usage/usage.go:127-150 | Opens to the retained part of the decoded log. |
| UsageStore.Store.DropExpired | internal/usage/usage.go:313-329 | The in-place compaction keeps exactly the unexpired records, in order. |
| UsageStore.Store.PruneLocked | internal/usage/usage.go:313-352 | Leaves exactly the longest fitting suffix of the unexpired records, and reports any change. |
| UsageStore.Store.PersistLocked | internal/usage/usage.go:354-408 | On success the file holds the encoded records; on failure it is the old log, the new one or absent. |
| UsageStore.Store.Append | internal/usage/usage.go:187-216 | Keeps the log within its byte limit; any failure restores the previous list exactly, although its array has been overwritten. |
| UsageStore.Store.Prune | internal/usage/usage.go:253-270 | Applies both limits at the given time, a zero one meaning the current, and keeps the log within its byte limit. |
| BenchmarkCache.ReplaceFile | internal/scoring/cache.go:305-333 | The states the disk goes through under any pattern of failed renames and removals. |
| BenchmarkCache.ReplaceSurvivesCrash | internal/scoring/cache.go:276-333 | At every crash point a load recovers the complete old or the complete new data. |
| BenchmarkCache.CrashSafeExactly | internal/scoring/cache.go:305-333 | When a replacement is crash-safe, and when not. |
| BenchmarkCache.LoadMakesSaveSafe | internal/scoring/cache.go:276-291 | After a crash, a load that puts the copy back makes the next save safe again. |
| BenchmarkCache.Cache.SaveLocked | internal/scoring/cache.go:234-274 | Every state during a save, partial temporary files included, recovers the old or the new data. |
| BenchmarkCache.Cache.LoadLocked | internal/scoring/cache.go:276-303 | Reads what is recovered, and loses nothing. |
| BenchmarkCache.Cache.Save | internal/scoring/cache.go:168-178 | Wherever a crash stops a save, a later load finds the old snapshot, or the new one as it decodes and within the size limit. |
| BenchmarkCache.ReadExactly | internal/scoring/cache.go:44-83 | Exactly which snapshots a load lets through: within the limit, with version, source, time and models, distinct ids and finite metrics. |
| BenchmarkCache.SavedIsFoundExactly | internal/scoring/cache.go:168-178 | A valid snapshot that the codec keeps is found again exactly when its encoding is within the limit. |
| BenchmarkCache.StaleExactly | internal/scoring/cache.go:110-120 | A snapshot is stale exactly when there is a limit and more time than that has passed. |
| BenchmarkCache.Cache.Resolve | internal/scoring/cache.go:198-232 | Live data, else the cached snapshot however stale, else the empty one; it never fails. |
| ChunkedBody.DecodeChunkedBody | desktop/src-tauri/src/main.rs:308-348 | The nested loops end and compute the decoding of the body. |
| ChunkedBody.FramingIsAccepted | desktop/src-tauri/src/main.rs:308-348 | Any framing, however split into chunks and with any extensions and trailers, decodes to its payload. |
| ChunkedBody.AcceptedIsFraming | desktop/src-tauri/src/main.rs:308-348 | Every accepted input is such a framing of its result and an ignored tail. |
| ChunkedBody.AcceptsExactlyFramings | desktop/src-tauri/src/main.rs:308-348 | Accepted inputs and framings with a tail are the same. |
| ChunkedBody.PrintedIsRead | desktop/src-tauri/src/main.rs:317-325 | A size printed to the base 16, by division and remainder, in either case and after any leading zeros, is read back. |
| ChunkedBody.ReadIsPrinted | desktop/src-tauri/src/main.rs:317-325 | Whatever is read as a size is, but for the case of its digits, such a printed number. |
| ChunkedBody.PrintedBodyIsDecoded | desktop/src-tauri/src/main.rs:308-348 | A body printed from its chunks, each after its length, decodes to their concatenation. |
| ChunkedBody.ChunksComeFirst | desktop/src-tauri/src/main.rs:308-348 | Chunks are decoded one after the other, whatever comes of the rest of the body. |
| ChunkedBody.BadSizeIsInvalid | desktop/src-tauri/src/main.rs:311-325 | A body without a line has no size, and a size that is empty or not all digits is invalid. |
| ChunkedBody.ShortDataIsMalformed | desktop/src-tauri/src/main.rs:339-345 | A size without as many bytes of data and a line end after them is malformed. |

## Left out

- Attempts: a provider stream is a finite list of results; one that never ends keeps the handler waiting and is not modelled.
- The wire forms: HTTP, JSON and SSE encoding, provider clients and the text of error messages.
- The parsing of the response header before decode_chunked_body in decode_http_body (desktop/src-tauri/src/main.rs:290-306).
- Latency averages, route cooldowns, probing, quota state and live events, which the attempt loop updates but does not read.
- Eligibility.Filter: does not model the exclusion reasons that the filter also collects.
- Matcher.MatchUnique: name normalization and the family key, which use regular expressions and Unicode folding, are function parameters.
- CandidateResolution.RankCandidates: latencies and health are read once per ranking, where the program reads the clock on each comparison.
- Percentiles.Percentile: real arithmetic, so float rounding is not modelled; the library sort is a stable insertion sort on values.
- SlotManager.Manager.ReleaseSlot: the invariant on slots held is about callers that release what they acquired; a direct call without a slot is outside its runs.
- PoolState.Deselect and Store.Deselect, which the gateway does not call.
- GatewayControl.Gateway.RefreshCatalog: does not model the automatic pick and the benchmark bindings that follow the swap, nor the lists of added and restored ids it reports.
- SecretFileLimits.LossSafeExactly: is about calls that store a key, not about those that only delete some; a key with a NUL character, which the store refuses before any write, counts as one that is written.
- ConfigUpdate.SoundExactlyWithinLimit: is about calls that store a key; one that only deletes some writes the file only when it held them, and ConfigUpdate.SuccessIsSoundExactly covers it.
- ConfigRuns.PersistControlState: takes any control state, not only those the gateway reaches; the reply to the pool operation is not modelled.
- ConfigUpdate.UpdateConfig: the config file on disk is an operation that succeeds or fails; its contents after a failed inference key, where the error of the restoring save is ignored, are not modelled, nor the wrap-around of a 64-bit revision.
- ProviderConfigs.ValidateProviders: the URL rules are a function parameter, and lengths are counted in characters.
- Secrets.SecretStore.Set: environment overrides are not modelled, and the JSON text of the secret file is represented by its values and its encoded size, which is any function that counts the bytes of the values.
- UsageStore.Store.Append: the JSON codec is any codec, and the round trip, which encoding/json denies to invalid UTF-8, is asked of the records at hand only; text is a string of bytes; queries, events and the lock are not modelled.
- BenchmarkCache.Cache.Save: a temporary file left behind under another random name is not tracked, and a snapshot's provenance is omitted.
- Crash recovery of the config file, which has none for its set-aside copy.
- The desktop frontend, the tray, the instance lock, the registry and the command line.
