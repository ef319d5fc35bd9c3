/**
 From a request to its ordered attempt candidates: benchmark-aware ranking (internal/gateway/performance.go) and
 the normal and fallback-only lists built from it (internal/gateway/attempt.go).
 */
module CandidateResolution {
  import opened Wrappers
  import opened Numbers
  import opened Sorting
  import opened ModelTypes
  import opened Eligibility
  import opened Ranking
  import opened Scoring
  import Percentiles

  // What the gateway reads under its lock. Health and latency are read once, at one clock value.
  datatype View = View(
    models: map<string, ProviderModel>,
    routes: map<string, seq<ProviderRoute>>,
    pool: seq<string>,
    pinnedModel: string,
    available: string -> bool,
    freshTTFT: string -> Option<Float>,
    bindings: map<string, SourceBinding>,
    metrics: map<string, Metrics>)

  datatype Request = Request(model: string, reqs: Requirements)

  // ----- ranking (performance.go)

  function BindingFor(v: View, modelID: string): Option<SourceBinding> {
    if modelID in v.bindings then Some(v.bindings[modelID]) else None
  }

  predicate HasData(v: View, c: Candidate) {
    c.model.id in v.bindings && v.bindings[c.model.id].sourceModelID in v.metrics
    && HasPerformanceData(v.metrics[v.bindings[c.model.id].sourceModelID])
  }

  predicate AnyData(v: View, candidates: seq<Candidate>) {
    exists c :: c in candidates && HasData(v, c)
  }

  function FreshLatencies(v: View, candidates: seq<Candidate>): seq<Float> {
    if candidates == [] then []
    else
      var ms := v.freshTTFT(candidates[|candidates| - 1].route.id);
      FreshLatencies(v, candidates[..|candidates| - 1]) + if ms.Some? then [ms.value] else []
  }

  function LatencyScore(v: View, latencies: seq<Float>, c: Candidate): real {
    var ms := v.freshTTFT(c.route.id);
    if ms.Some? then Percentiles.MidRank(ms.value, latencies, false) else UNKNOWN_SCORE
  }

  function RoutingScoreOf(v: View, latencies: seq<Float>, c: Candidate): real {
    ScoreBinding(v.metrics, BindingFor(v, c.model.id), Finite(LatencyScore(v, latencies, c))).routingScore
  }

  function ScoreFor(v: View, latencies: seq<Float>): ScoreLookup {
    (c: Candidate) => Some(Finite(RoutingScoreOf(v, latencies, c)))
  }

  // Without any benchmark data the order is by latency alone.
  function ScoreUsed(v: View, candidates: seq<Candidate>): Option<ScoreLookup> {
    if AnyData(v, candidates) then Some(ScoreFor(v, FreshLatencies(v, candidates))) else None
  }

  function Ranked(v: View, candidates: seq<Candidate>): seq<Candidate> {
    RankWithScore(candidates, Some(v.freshTTFT), ScoreUsed(v, candidates))
  }

  // ----- what the order means

  // The record that the candidate's model is bound to holds a usable metric.
  predicate IsMeasured(v: View, c: Candidate) {
    && c.model.id in v.bindings && v.bindings[c.model.id].sourceModelID in v.metrics
    && var m := v.metrics[v.bindings[c.model.id].sourceModelID];
       || (m.capability.Some? && m.capability.value.Finite?)
       || (m.availability.Some? && m.availability.value.Finite?)
       || (m.intelligence.Some? && m.intelligence.value.Finite?)
  }

  predicate HasLatency(v: View, c: Candidate) {
    var ms := v.freshTTFT(c.route.id);
    ms.Some? && ms.value.Finite? && ms.value.value >= 0.0
  }

  function LatencyOf(v: View, c: Candidate): real
    requires HasLatency(v, c)
  {
    v.freshTTFT(c.route.id).value.value
  }

  // Known latencies come first, ascending, and ids break the remaining ties.
  predicate NoSlower(v: View, a: Candidate, b: Candidate) {
    && (HasLatency(v, b) ==> HasLatency(v, a) && LatencyOf(v, a) <= LatencyOf(v, b))
    && ((HasLatency(v, a) <==> HasLatency(v, b)) && (HasLatency(v, a) ==> LatencyOf(v, a) == LatencyOf(v, b)) ==>
          || StringLess(a.model.id, b.model.id)
          || (a.model.id == b.model.id && !StringLess(b.route.id, a.route.id)))
  }

  // When any candidate is measured the score decides, and otherwise the latency.
  ghost predicate NoWorse(v: View, candidates: seq<Candidate>, a: Candidate, b: Candidate) {
    if exists c :: c in candidates && IsMeasured(v, c) then
      var latencies := FreshLatencies(v, candidates);
      || RoutingScoreOf(v, latencies, a) > RoutingScoreOf(v, latencies, b)
      || (RoutingScoreOf(v, latencies, a) == RoutingScoreOf(v, latencies, b) && NoSlower(v, a, b))
    else NoSlower(v, a, b)
  }

  ghost predicate IsRanking(v: View, candidates: seq<Candidate>, ranked: seq<Candidate>) {
    && multiset(ranked) == multiset(candidates)
    && forall i, j :: 0 <= i < j < |ranked| ==> NoWorse(v, candidates, ranked[i], ranked[j])
  }

  lemma RankedIsRanking(v: View, candidates: seq<Candidate>)
    ensures IsRanking(v, candidates, Ranked(v, candidates))
  {
    var ranked := Ranked(v, candidates);
    RankWithScoreIsSorted(candidates, Some(v.freshTTFT), ScoreUsed(v, candidates));
    forall i, j | 0 <= i < j < |ranked|
      ensures NoWorse(v, candidates, ranked[i], ranked[j])
    {
      assert !RankLess(Some(v.freshTTFT), ScoreUsed(v, candidates))(ranked[j], ranked[i]);
      NotLessIsNoWorse(v, candidates, ranked[i], ranked[j]);
    }
  }

  lemma NotLessIsNoWorse(v: View, candidates: seq<Candidate>, a: Candidate, b: Candidate)
    requires !RankLess(Some(v.freshTTFT), ScoreUsed(v, candidates))(b, a)
    ensures NoWorse(v, candidates, a, b)
  {
    StringLessIsTotal(a.model.id, b.model.id);
    StringLessIsIrreflexive(a.model.id);
    assert forall c :: IsMeasured(v, c) <==> HasData(v, c);
    assert AnyData(v, candidates) <==> exists c :: c in candidates && IsMeasured(v, c);
  }

  method RankCandidates(v: View, candidates: seq<Candidate>) returns (ranked: seq<Candidate>)
    ensures ranked == Ranked(v, candidates)
    ensures IsRanking(v, candidates, ranked)
  {
    RankedIsRanking(v, candidates);
    if !AnyData(v, candidates) {
      return RankWithScore(candidates, Some(v.freshTTFT), None);
    }
    var latencies := [];
    for i := 0 to |candidates|
      invariant latencies == FreshLatencies(v, candidates[..i])
    {
      assert candidates[..i + 1][..i] == candidates[..i];
      var ms := v.freshTTFT(candidates[i].route.id);
      if ms.Some? {
        latencies := latencies + [ms.value];
      }
    }
    assert candidates[..|candidates|] == candidates;
    ranked := RankWithScore(candidates, Some(v.freshTTFT), Some(ScoreFor(v, latencies)));
  }

  // ----- a strictly faster route of equal merit comes first

  function EffectiveOf(v: View, c: Candidate): real {
    ScoreBinding(v.metrics, BindingFor(v, c.model.id), Finite(UNKNOWN_SCORE)).effectivePerformance
  }

  lemma {:induction false} LatencyIsSampled(v: View, candidates: seq<Candidate>, c: Candidate)
    requires c in candidates && v.freshTTFT(c.route.id).Some?
    ensures v.freshTTFT(c.route.id).value in FreshLatencies(v, candidates)
  {
    var init, last := candidates[..|candidates| - 1], candidates[|candidates| - 1];
    assert candidates == init + [last];
    var before, ms := FreshLatencies(v, init), v.freshTTFT(last.route.id);
    if ms.Some? {
      assert (before + [ms.value])[..|before|] == before;
    } else {
      assert FreshLatencies(v, candidates) == before;
    }
    if c in init {
      LatencyIsSampled(v, init, c);
    } else {
      assert c == last;
    }
  }

  lemma FasterScoresHigher(v: View, candidates: seq<Candidate>, fast: Candidate, slow: Candidate)
    requires fast in candidates && slow in candidates
    requires HasLatency(v, fast) && HasLatency(v, slow) && LatencyOf(v, fast) < LatencyOf(v, slow)
    requires EffectiveOf(v, fast) == EffectiveOf(v, slow)
    ensures var latencies := FreshLatencies(v, candidates);
      RoutingScoreOf(v, latencies, fast) > RoutingScoreOf(v, latencies, slow)
  {
    var latencies := FreshLatencies(v, candidates);
    LatencyIsSampled(v, candidates, fast);
    LatencyIsSampled(v, candidates, slow);
    var f, s := v.freshTTFT(fast.route.id).value, v.freshTTFT(slow.route.id).value;
    Percentiles.PercentileIsStrictOnMembers(f, s, latencies);
    LatencyDecides(EffectiveOf(v, fast), LatencyScore(v, latencies, slow), LatencyScore(v, latencies, fast));
  }

  lemma FasterComesFirst(v: View, candidates: seq<Candidate>, i: nat, j: nat)
    requires i < |Ranked(v, candidates)| && j < |Ranked(v, candidates)|
    requires var fast, slow := Ranked(v, candidates)[i], Ranked(v, candidates)[j];
      && HasLatency(v, fast) && HasLatency(v, slow) && LatencyOf(v, fast) < LatencyOf(v, slow)
      && EffectiveOf(v, fast) == EffectiveOf(v, slow)
    ensures i < j
  {
    var ranked, score := Ranked(v, candidates), ScoreUsed(v, candidates);
    RankWithScoreIsSorted(candidates, Some(v.freshTTFT), score);
    PermutationLength(candidates, ranked);
    var fast, slow := ranked[i], ranked[j];
    assert fast in ranked && slow in ranked;
    FasterScoresHigher(v, candidates, fast, slow);
    KeyLessIsTotal(KeyOf(fast, Some(v.freshTTFT), score), KeyOf(slow, Some(v.freshTTFT), score));
    SmallerComesFirst(ranked, RankLess(Some(v.freshTTFT), score), i, j);
  }

  // The score of a candidate: the performance of its bound record, pulled towards neutral by the confidence of the binding,
  // and the percentile of its latency, where a missing one counts as neutral.
  lemma CandidateScoreIs(v: View, latencies: seq<Float>, c: Candidate)
    ensures var ms := v.freshTTFT(c.route.id);
      RoutingScoreOf(v, latencies, c) ==
        Routing(EffectiveOf(v, c), if ms.Some? then Percentiles.MidRank(ms.value, latencies, false) else 50.0)
    ensures EffectiveOf(v, c) ==
      if !IsMeasured(v, c) || v.bindings[c.model.id].sourceModelID == "" then 50.0
      else Effective(Performance(v.metrics[v.bindings[c.model.id].sourceModelID]), v.bindings[c.model.id].confidence)
  {
    MixBounds(0.0, Performance(NO_METRICS));
    if IsBound(v, c) {
      MixBounds(0.0, Performance(v.metrics[v.bindings[c.model.id].sourceModelID]));
    }
  }

  predicate IsBound(v: View, c: Candidate) {
    c.model.id in v.bindings && v.bindings[c.model.id].sourceModelID in v.metrics
  }

  // An effective performance other than neutral comes from data.
  lemma EffectiveIsBounded(v: View, c: Candidate)
    ensures 0.0 <= EffectiveOf(v, c) <= 100.0
    ensures EffectiveOf(v, c) != UNKNOWN_SCORE ==> IsMeasured(v, c)
  {
  }

  // Of two candidates with the same latency the one of strictly higher effective performance comes first, whatever the ids.
  lemma BetterComesFirst(v: View, candidates: seq<Candidate>, i: nat, j: nat)
    requires i < |Ranked(v, candidates)| && j < |Ranked(v, candidates)|
    requires var better, worse := Ranked(v, candidates)[i], Ranked(v, candidates)[j];
      v.freshTTFT(better.route.id) == v.freshTTFT(worse.route.id) && EffectiveOf(v, better) > EffectiveOf(v, worse)
    ensures i < j
  {
    var ranked, latencies := Ranked(v, candidates), FreshLatencies(v, candidates);
    var better, worse := ranked[i], ranked[j];
    RankedIsRanking(v, candidates);
    PermutationLength(candidates, ranked);
    assert better in ranked && worse in ranked;
    EffectiveIsBounded(v, better);
    EffectiveIsBounded(v, worse);
    assert IsMeasured(v, better) || IsMeasured(v, worse);
    PerformanceDecides(EffectiveOf(v, worse), EffectiveOf(v, better), LatencyScore(v, latencies, better));
    assert RoutingScoreOf(v, latencies, better) > RoutingScoreOf(v, latencies, worse);
    assert j < i ==> NoWorse(v, candidates, worse, better);
  }

  // ----- the candidate lists (attempt.go)

  datatype AttemptCandidate = AttemptCandidate(candidate: Candidate, fallbackOnly: bool)

  predicate IsAutoModel(id: string) {
    id == "fmr/auto" || id == "afm/auto"
  }

  // A pin replaces the automatic name; the empty name stays automatic.
  function TargetModel(v: View, req: Request): string {
    if IsAutoModel(req.model) && v.pinnedModel != "" then v.pinnedModel else req.model
  }

  predicate IsExplicit(model: string) {
    model != "" && !IsAutoModel(model)
  }

  function InputFor(v: View, req: Request, explicitID: string, allowUnknown: bool): FilterInput {
    FilterInput(explicitID, v.pool, v.models, v.routes, req.reqs, false, allowUnknown, (r: ProviderRoute) => true, v.available)
  }

  function Eligibles(v: View, req: Request, explicitID: string, allowUnknown: bool): seq<Candidate> {
    EligibleIn(InputFor(v, req, explicitID, allowUnknown), IDs(InputFor(v, req, explicitID, allowUnknown)))
  }

  function RouteIDs(candidates: seq<Candidate>): set<string> {
    set c | c in candidates :: c.route.id
  }

  function ModelIDs(candidates: seq<Candidate>): set<string> {
    set c | c in candidates :: c.model.id
  }

  lemma IDsAppend(s: seq<Candidate>, c: Candidate)
    ensures RouteIDs(s + [c]) == RouteIDs(s) + {c.route.id}
    ensures ModelIDs(s + [c]) == ModelIDs(s) + {c.model.id}
  {
    assert forall x :: x in s + [c] <==> x in s || x == c;
    assert c in s + [c];
  }

  // The candidates whose route is not listed yet, one per route.
  function Unlisted(candidates: seq<Candidate>, existing: set<string>): seq<Candidate> {
    if candidates == [] then []
    else
      var before, last := Unlisted(candidates[..|candidates| - 1], existing), candidates[|candidates| - 1];
      if last.route.id in existing + RouteIDs(before) then before else before + [last]
  }

  method RankedUnique(v: View, candidates: seq<Candidate>, existing: seq<Candidate>) returns (result: seq<Candidate>)
    ensures result == Unlisted(Ranked(v, candidates), RouteIDs(existing))
  {
    var ranked := RankCandidates(v, candidates);
    result := Unseen(ranked, RouteIDs(existing));
  }

  method Unseen(ranked: seq<Candidate>, existing: set<string>) returns (result: seq<Candidate>)
    ensures result == Unlisted(ranked, existing)
  {
    var seen := existing;
    result := [];
    for i := 0 to |ranked|
      invariant result == Unlisted(ranked[..i], existing)
      invariant seen == existing + RouteIDs(result)
    {
      assert ranked[..i + 1][..i] == ranked[..i];
      if ranked[i].route.id in seen {
        continue;
      }
      seen := seen + {ranked[i].route.id};
      IDsAppend(result, ranked[i]);
      result := result + [ranked[i]];
    }
    assert ranked[..|ranked|] == ranked;
  }

  function Normal(v: View, req: Request): seq<Candidate> {
    var model := TargetModel(v, req);
    if IsExplicit(model) then
      var chosen := Ranked(v, Eligibles(v, req, model, false));
      if chosen == [] then [] else chosen + Unlisted(Ranked(v, Eligibles(v, req, "", false)), RouteIDs(chosen))
    else Ranked(v, Eligibles(v, req, "", false))
  }

  // An explicit model that is also pooled is looked up twice here.
  function Unknown(v: View, req: Request): seq<Candidate> {
    var model := TargetModel(v, req);
    (if IsExplicit(model) then Eligibles(v, req, model, true) else []) + Eligibles(v, req, "", true)
  }

  predicate IsFallback(normal: seq<Candidate>, c: Candidate) {
    c.route.id !in RouteIDs(normal) && c.model.id in ModelIDs(normal) && c.route.EffectiveAccess().AccessUnknown?
  }

  function Fallbacks(normal: seq<Candidate>, unknown: seq<Candidate>): seq<AttemptCandidate> {
    if unknown == [] then []
    else
      Fallbacks(normal, unknown[..|unknown| - 1]) +
      if IsFallback(normal, unknown[|unknown| - 1]) then [AttemptCandidate(unknown[|unknown| - 1], true)] else []
  }

  function AsNormal(normal: seq<Candidate>): (r: seq<AttemptCandidate>)
    ensures |r| == |normal| && forall i :: 0 <= i < |r| ==> r[i] == AttemptCandidate(normal[i], false)
  {
    if normal == [] then [] else AsNormal(normal[..|normal| - 1]) + [AttemptCandidate(normal[|normal| - 1], false)]
  }

  function Resolved(v: View, req: Request): seq<AttemptCandidate> {
    AsNormal(Normal(v, req)) + Fallbacks(Normal(v, req), Ranked(v, Unknown(v, req)))
  }

  method NormalCandidates(v: View, req: Request) returns (normal: seq<Candidate>)
    ensures normal == Normal(v, req)
  {
    var model := TargetModel(v, req);
    var pool := Filter(InputFor(v, req, "", false));
    if !IsExplicit(model) {
      normal := RankCandidates(v, pool);
      return;
    }
    var chosen := Filter(InputFor(v, req, model, false));
    normal := RankCandidates(v, chosen);
    if normal != [] {
      var more := RankedUnique(v, pool, normal);
      normal := normal + more;
    }
  }

  method UnknownCandidates(v: View, req: Request) returns (unknown: seq<Candidate>)
    ensures unknown == Ranked(v, Unknown(v, req))
  {
    var model := TargetModel(v, req);
    unknown := [];
    if IsExplicit(model) {
      unknown := Filter(InputFor(v, req, model, true));
    }
    var pooled := Filter(InputFor(v, req, "", true));
    unknown := RankCandidates(v, unknown + pooled);
  }

  method ListNormal(normal: seq<Candidate>)
    returns (result: seq<AttemptCandidate>, normalRoutes: set<string>, normalModels: set<string>)
    ensures result == AsNormal(normal)
    ensures normalRoutes == RouteIDs(normal) && normalModels == ModelIDs(normal)
  {
    result, normalRoutes, normalModels := [], {}, {};
    for i := 0 to |normal|
      invariant result == AsNormal(normal[..i])
      invariant normalRoutes == RouteIDs(normal[..i]) && normalModels == ModelIDs(normal[..i])
    {
      assert normal[..i + 1] == normal[..i] + [normal[i]] && normal[..i + 1][..i] == normal[..i];
      IDsAppend(normal[..i], normal[i]);
      result := result + [AttemptCandidate(normal[i], false)];
      normalRoutes := normalRoutes + {normal[i].route.id};
      normalModels := normalModels + {normal[i].model.id};
    }
    assert normal[..|normal|] == normal;
  }

  method ListFallbacks(normal: seq<Candidate>, unknown: seq<Candidate>, normalRoutes: set<string>, normalModels: set<string>)
    returns (result: seq<AttemptCandidate>)
    requires normalRoutes == RouteIDs(normal) && normalModels == ModelIDs(normal)
    ensures result == Fallbacks(normal, unknown)
  {
    result := [];
    for i := 0 to |unknown|
      invariant result == Fallbacks(normal, unknown[..i])
    {
      assert unknown[..i + 1][..i] == unknown[..i];
      var c := unknown[i];
      if c.route.id in normalRoutes || c.model.id !in normalModels || !c.route.EffectiveAccess().AccessUnknown? {
        continue;
      }
      result := result + [AttemptCandidate(c, true)];
    }
    assert unknown[..|unknown|] == unknown;
  }

  method ResolveAttemptCandidates(v: View, req: Request) returns (result: seq<AttemptCandidate>)
    ensures result == Resolved(v, req)
  {
    var normal := NormalCandidates(v, req);
    if normal == [] && IsExplicit(TargetModel(v, req)) {
      NothingFallsBack(Ranked(v, Unknown(v, req)));
      return [];
    }
    var listed, normalRoutes, normalModels := ListNormal(normal);
    var unknown := UnknownCandidates(v, req);
    var fallbacks := ListFallbacks(normal, unknown, normalRoutes, normalModels);
    result := listed + fallbacks;
  }

  lemma {:induction false} NothingFallsBack(unknown: seq<Candidate>)
    ensures Fallbacks([], unknown) == []
  {
    if unknown != [] {
      NothingFallsBack(unknown[..|unknown| - 1]);
    }
  }

  // ----- what a resolved candidate is

  lemma {:induction false} FallbacksContain(normal: seq<Candidate>, unknown: seq<Candidate>, a: AttemptCandidate)
    ensures a in Fallbacks(normal, unknown) <==> a.fallbackOnly && a.candidate in unknown && IsFallback(normal, a.candidate)
  {
    if unknown != [] {
      var init, last := unknown[..|unknown| - 1], unknown[|unknown| - 1];
      FallbacksContain(normal, init, a);
      assert unknown == init + [last];
      assert a == AttemptCandidate(a.candidate, a.fallbackOnly);
    }
  }

  lemma {:induction false} UnlistedContain(candidates: seq<Candidate>, existing: set<string>)
    ensures forall c :: c in Unlisted(candidates, existing) ==> c in candidates && c.route.id !in existing
    ensures forall c :: c in candidates ==> c.route.id in existing + RouteIDs(Unlisted(candidates, existing))
    ensures forall i, j :: 0 <= i < j < |Unlisted(candidates, existing)| ==>
      Unlisted(candidates, existing)[i].route.id != Unlisted(candidates, existing)[j].route.id
  {
    if candidates != [] {
      var init, last := candidates[..|candidates| - 1], candidates[|candidates| - 1];
      UnlistedContain(init, existing);
      assert candidates == init + [last];
      var before := Unlisted(init, existing);
      forall i | 0 <= i < |before|
        ensures before[i].route.id in RouteIDs(before)
      {
        assert before[i] in before;
      }
    }
  }

  lemma RankedContains(v: View, candidates: seq<Candidate>, c: Candidate)
    ensures c in Ranked(v, candidates) <==> c in candidates
  {
    RankWithScoreIsSorted(candidates, Some(v.freshTTFT), ScoreUsed(v, candidates));
    PermutationLength(candidates, Ranked(v, candidates));
  }

  // The models a request may reach: its own, or the selected ones.
  predicate Reaches(v: View, req: Request, id: string) {
    id in v.pool || (IsExplicit(TargetModel(v, req)) && id == TargetModel(v, req))
  }

  ghost predicate Admitted(v: View, req: Request, allowUnknown: bool, c: Candidate) {
    exists id :: Reaches(v, req, id) && IsEligible(InputFor(v, req, "", allowUnknown), id, c)
  }

  lemma EligiblesAre(v: View, req: Request, explicitID: string, allowUnknown: bool, c: Candidate)
    requires explicitID == "" || (IsExplicit(TargetModel(v, req)) && explicitID == TargetModel(v, req))
    requires c in Eligibles(v, req, explicitID, allowUnknown)
    ensures Admitted(v, req, allowUnknown, c)
  {
    var input := InputFor(v, req, explicitID, allowUnknown);
    EligibleInContains(input, IDs(input), c);
    var id :| id in IDs(input) && IsEligible(input, id, c);
    assert IsEligible(InputFor(v, req, "", allowUnknown), id, c);
  }

  lemma NormalIsAdmitted(v: View, req: Request, c: Candidate)
    requires c in Normal(v, req)
    ensures Admitted(v, req, false, c)
  {
    var model := TargetModel(v, req);
    RankedContains(v, Eligibles(v, req, "", false), c);
    if IsExplicit(model) {
      var chosen := Ranked(v, Eligibles(v, req, model, false));
      RankedContains(v, Eligibles(v, req, model, false), c);
      UnlistedContain(Ranked(v, Eligibles(v, req, "", false)), RouteIDs(chosen));
      if c in chosen {
        EligiblesAre(v, req, model, false, c);
      } else {
        EligiblesAre(v, req, "", false, c);
      }
    } else {
      EligiblesAre(v, req, "", false, c);
    }
  }

  lemma UnknownIsAdmitted(v: View, req: Request, c: Candidate)
    requires c in Unknown(v, req)
    ensures Admitted(v, req, true, c)
  {
    var model := TargetModel(v, req);
    if IsExplicit(model) && c in Eligibles(v, req, model, true) {
      EligiblesAre(v, req, model, true, c);
    } else {
      EligiblesAre(v, req, "", true, c);
    }
  }

  // Enabled, healthy, able to serve the request on both the model and the route side, and free unless its own
  // policy says otherwise.
  ghost predicate Serves(v: View, req: Request, c: Candidate, fallbackOnly: bool) {
    && c.route.enabled && v.available(c.route.id)
    && c.model.base.Supports(req.reqs)
    && (c.route.capabilityOverride.Some? ==> c.route.capabilityOverride.value.Supports(req.reqs))
    && (c.route.access in {Free, FreeTier} || c.route.autoRouteAllowed == Some(true)
        || (fallbackOnly && c.route.access in {Unset, AccessUnknown}))
  }

  // A route of a catalogued model.
  predicate IsListed(v: View, id: string, c: Candidate) {
    id in v.models && id in v.routes && c.model == v.models[id] && c.route in v.routes[id]
  }

  lemma ServingIsEligible(v: View, req: Request, id: string, c: Candidate, allowUnknown: bool)
    ensures IsEligible(InputFor(v, req, "", allowUnknown), id, c) <==> IsListed(v, id, c) && Serves(v, req, c, allowUnknown)
  {
    AdmitsExactly(InputFor(v, req, "", allowUnknown), c.model, c.route);
  }

  lemma AdmittedServes(v: View, req: Request, allowUnknown: bool, c: Candidate)
    requires Admitted(v, req, allowUnknown, c)
    ensures Serves(v, req, c, allowUnknown)
  {
    var id :| Reaches(v, req, id) && IsEligible(InputFor(v, req, "", allowUnknown), id, c);
    ServingIsEligible(v, req, id, c, allowUnknown);
  }

  ghost predicate NormalEntry(v: View, req: Request, j: nat) {
    j < |Resolved(v, req)| && !Resolved(v, req)[j].fallbackOnly
  }

  ghost function ModelAt(v: View, req: Request, j: nat): string
    requires NormalEntry(v, req, j)
  {
    Resolved(v, req)[j].candidate.model.id
  }

  // Normal candidates come first; a fallback-only one is an Unknown-access route, not itself a normal candidate,
  // of a model that is.
  lemma ResolvedCandidatesServe(v: View, req: Request, k: nat)
    requires k < |Resolved(v, req)|
    ensures var a := Resolved(v, req)[k];
      && Serves(v, req, a.candidate, a.fallbackOnly) && Admitted(v, req, a.fallbackOnly, a.candidate)
      && (a.fallbackOnly <==> k >= |Normal(v, req)|)
      && (a.fallbackOnly ==> a.candidate.route.access in {Unset, AccessUnknown})
      && (a.fallbackOnly ==> a.candidate.route.id !in RouteIDs(Normal(v, req)))
      && (a.fallbackOnly ==> exists j: nat :: NormalEntry(v, req, j) && ModelAt(v, req, j) == a.candidate.model.id)
  {
    var normal, a := Normal(v, req), Resolved(v, req)[k];
    var unknown := Ranked(v, Unknown(v, req));
    if k < |normal| {
      NormalIsAdmitted(v, req, a.candidate);
    } else {
      assert a in Fallbacks(normal, unknown);
      FallbacksContain(normal, unknown, a);
      RankedContains(v, Unknown(v, req), a.candidate);
      UnknownIsAdmitted(v, req, a.candidate);
      var j: nat :| j < |normal| && normal[j].model.id == a.candidate.model.id;
      assert Resolved(v, req)[j] == AttemptCandidate(normal[j], false);
      assert NormalEntry(v, req, j) && ModelAt(v, req, j) == a.candidate.model.id;
    }
    AdmittedServes(v, req, a.fallbackOnly, a.candidate);
  }

  lemma HeadIsNormal(v: View, req: Request)
    requires Resolved(v, req) != []
    ensures Normal(v, req) != [] && Resolved(v, req)[0] == AttemptCandidate(Normal(v, req)[0], false)
  {
    if Normal(v, req) == [] {
      NothingFallsBack(Ranked(v, Unknown(v, req)));
    }
  }

  // The model that a request is bound to: the one it names, or else the pinned one. The empty name is never bound.
  function BoundModel(v: View, req: Request): Option<string> {
    var id := if req.model in {"fmr/auto", "afm/auto"} && v.pinnedModel != "" then v.pinnedModel else req.model;
    if id in {"", "fmr/auto", "afm/auto"} then None else Some(id)
  }

  // What the head of the list is chosen from: the routes that serve the request, of the bound model or else of the pool.
  ghost predicate Competes(v: View, req: Request, c: Candidate) {
    && Serves(v, req, c, false)
    && if BoundModel(v, req).Some? then IsListed(v, BoundModel(v, req).value, c)
       else exists id :: id in v.pool && IsListed(v, id, c)
  }

  // The list of a bound request starts with a route of its model, and of any other with one of the pool. No candidate
  // that competes with it is better.
  lemma HeadOfResolved(v: View, req: Request) returns (field: seq<Candidate>)
    requires Resolved(v, req) != []
    ensures var head := Resolved(v, req)[0];
      && !head.fallbackOnly && Competes(v, req, head.candidate)
      && (forall c :: c in field <==> Competes(v, req, c))
      && forall c :: c in field ==> NoWorse(v, field, head.candidate, c)
  {
    HeadIsNormal(v, req);
    var explicitID := BoundOrNone(v, req);
    HeadIsRanked(v, req);
    field := Eligibles(v, req, explicitID, false);
    forall c
      ensures c in field <==> Competes(v, req, c)
    {
      FieldIsCompeting(v, req, explicitID, c);
    }
    HeadIsBest(v, field);
    RankedContains(v, field, Normal(v, req)[0]);
  }

  function BoundOrNone(v: View, req: Request): string {
    if BoundModel(v, req).Some? then BoundModel(v, req).value else ""
  }

  lemma HeadIsRanked(v: View, req: Request)
    requires Normal(v, req) != []
    ensures var ranked := Ranked(v, Eligibles(v, req, BoundOrNone(v, req), false));
      ranked != [] && Normal(v, req)[0] == ranked[0]
  {
    BoundIsTarget(v, req);
    var named, pooled := Ranked(v, Eligibles(v, req, TargetModel(v, req), false)), Ranked(v, Eligibles(v, req, "", false));
    JoinStarts(IsExplicit(TargetModel(v, req)), named, pooled, Normal(v, req));
  }

  lemma BoundIsTarget(v: View, req: Request)
    ensures BoundOrNone(v, req) == if IsExplicit(TargetModel(v, req)) then TargetModel(v, req) else ""
  {
  }

  lemma JoinStarts(explicit: bool, named: seq<Candidate>, pooled: seq<Candidate>, normal: seq<Candidate>)
    requires normal != []
    requires normal == if !explicit then pooled else if named == [] then [] else named + Unlisted(pooled, RouteIDs(named))
    ensures var first := if explicit then named else pooled; first != [] && normal[0] == first[0]
  {
  }

  ghost predicate Ordered<T(!new)>(s: seq<T>, before: (T, T) -> bool) {
    forall i, j :: 0 <= i < j < |s| ==> before(s[i], s[j])
  }

  ghost function Merit(v: View, candidates: seq<Candidate>): (Candidate, Candidate) -> bool {
    (a: Candidate, b: Candidate) => NoWorse(v, candidates, a, b)
  }

  ghost function OnAttempts(before: (Candidate, Candidate) -> bool): (AttemptCandidate, AttemptCandidate) -> bool {
    (a: AttemptCandidate, b: AttemptCandidate) => before(a.candidate, b.candidate)
  }

  lemma OrderedInit<T(!new)>(s: seq<T>, init: seq<T>, last: T, before: (T, T) -> bool)
    requires Ordered(s, before) && s == init + [last]
    ensures Ordered(init, before)
    ensures forall x :: x in init ==> before(x, last)
  {
    assert forall i :: 0 <= i < |init| ==> s[i] == init[i];
    forall x | x in init
      ensures before(x, last)
    {
      var i :| 0 <= i < |init| && init[i] == x;
      assert s[i] == x && s[|init|] == last;
    }
  }

  lemma OrderedAppend<T(!new)>(s: seq<T>, x: T, before: (T, T) -> bool)
    requires Ordered(s, before) && forall y :: y in s ==> before(y, x)
    ensures Ordered(s + [x], before)
  {
  }

  lemma {:induction false} UnlistedKeepsOrder(s: seq<Candidate>, existing: set<string>, before: (Candidate, Candidate) -> bool)
    requires Ordered(s, before)
    ensures Ordered(Unlisted(s, existing), before)
  {
    if s != [] {
      var init := s[..|s| - 1];
      OrderedInit(s, init, s[|s| - 1], before);
      UnlistedKeepsOrder(init, existing, before);
      UnlistedContain(init, existing);
      OrderedAppend(Unlisted(init, existing), s[|s| - 1], before);
    }
  }

  lemma {:induction false} FallbacksKeepOrder(normal: seq<Candidate>, s: seq<Candidate>, before: (Candidate, Candidate) -> bool)
    requires Ordered(s, before)
    ensures Ordered(Fallbacks(normal, s), OnAttempts(before))
  {
    if s != [] {
      var init, last := s[..|s| - 1], s[|s| - 1];
      OrderedInit(s, init, last, before);
      FallbacksKeepOrder(normal, init, before);
      forall a | a in Fallbacks(normal, init)
        ensures OnAttempts(before)(a, AttemptCandidate(last, true))
      {
        FallbacksContain(normal, init, a);
      }
      OrderedAppend(Fallbacks(normal, init), AttemptCandidate(last, true), OnAttempts(before));
      assert Fallbacks(normal, init) + [] == Fallbacks(normal, init);
    }
  }

  lemma RankedIsOrdered(v: View, candidates: seq<Candidate>)
    ensures Ordered(Ranked(v, candidates), Merit(v, candidates))
  {
    RankedIsRanking(v, candidates);
  }

  ghost predicate InOrder(v: View, candidates: seq<Candidate>, r: seq<AttemptCandidate>) {
    Ordered(r, OnAttempts(Merit(v, candidates)))
  }

  lemma NormalsInOrder(v: View, candidates: seq<Candidate>, s: seq<Candidate>)
    requires Ordered(s, Merit(v, candidates))
    ensures InOrder(v, candidates, AsNormal(s))
  {
  }

  lemma AsNormalSplits(s: seq<Candidate>, t: seq<Candidate>)
    ensures AsNormal(s + t) == AsNormal(s) + AsNormal(t)
  {
  }

  // The list has three parts, each in ranking order: the routes of the bound model, those of the pool, the alternates.
  lemma ResolvedIsInOrder(v: View, req: Request)
    returns (named: seq<AttemptCandidate>, pooled: seq<AttemptCandidate>, alternates: seq<AttemptCandidate>)
    requires Resolved(v, req) != []
    ensures Resolved(v, req) == named + pooled + alternates
    ensures BoundModel(v, req).Some? <==> named != []
    ensures forall a :: a in named ==> !a.fallbackOnly && Competes(v, req, a.candidate)
    ensures (forall a :: a in pooled ==> !a.fallbackOnly) && (forall a :: a in alternates ==> a.fallbackOnly)
    ensures InOrder(v, Eligibles(v, req, BoundOrNone(v, req), false), named)
    ensures InOrder(v, Eligibles(v, req, "", false), pooled) && InOrder(v, Unknown(v, req), alternates)
  {
    HeadIsNormal(v, req);
    named, pooled := NormalParts(v, req);
    var unknown := Ranked(v, Unknown(v, req));
    alternates := Fallbacks(Normal(v, req), unknown);
    RankedIsOrdered(v, Unknown(v, req));
    FallbacksKeepOrder(Normal(v, req), unknown, Merit(v, Unknown(v, req)));
    forall a | a in alternates
      ensures a.fallbackOnly
    {
      FallbacksContain(Normal(v, req), unknown, a);
    }
  }

  lemma NormalParts(v: View, req: Request) returns (named: seq<AttemptCandidate>, pooled: seq<AttemptCandidate>)
    requires Normal(v, req) != []
    ensures AsNormal(Normal(v, req)) == named + pooled && (BoundModel(v, req).Some? <==> named != [])
    ensures forall a :: a in named ==> !a.fallbackOnly && Competes(v, req, a.candidate)
    ensures forall a :: a in pooled ==> !a.fallbackOnly
    ensures InOrder(v, Eligibles(v, req, BoundOrNone(v, req), false), named)
    ensures InOrder(v, Eligibles(v, req, "", false), pooled)
  {
    var field, pool := Eligibles(v, req, BoundOrNone(v, req), false), Eligibles(v, req, "", false);
    var chosen, more := NormalIsJoined(v, req);
    named, pooled := AsNormal(chosen), AsNormal(more);
    AsNormalSplits(chosen, more);
    PartsInOrder(v, field, pool, chosen, more);
    ChosenCompete(v, req, chosen);
  }

  // The normal candidates, as the ranked routes of the bound model and the rest of the pool's.
  lemma NormalIsJoined(v: View, req: Request) returns (chosen: seq<Candidate>, more: seq<Candidate>)
    requires Normal(v, req) != []
    ensures Normal(v, req) == chosen + more && (BoundModel(v, req).Some? <==> chosen != [])
    ensures chosen == [] || chosen == Ranked(v, Eligibles(v, req, BoundOrNone(v, req), false))
    ensures var pooled := Ranked(v, Eligibles(v, req, "", false));
      more == pooled || more == Unlisted(pooled, RouteIDs(chosen))
  {
    BoundIsTarget(v, req);
    var model := TargetModel(v, req);
    if IsExplicit(model) {
      chosen := Ranked(v, Eligibles(v, req, model, false));
      more := Unlisted(Ranked(v, Eligibles(v, req, "", false)), RouteIDs(chosen));
    } else {
      chosen, more := [], Normal(v, req);
    }
  }

  lemma PartsInOrder(v: View, field: seq<Candidate>, pool: seq<Candidate>, chosen: seq<Candidate>, more: seq<Candidate>)
    requires chosen == [] || chosen == Ranked(v, field)
    requires more == Ranked(v, pool) || more == Unlisted(Ranked(v, pool), RouteIDs(chosen))
    ensures InOrder(v, field, AsNormal(chosen)) && InOrder(v, pool, AsNormal(more))
  {
    RankedIsOrdered(v, field);
    NormalsInOrder(v, field, chosen);
    RankedIsOrdered(v, pool);
    UnlistedKeepsOrder(Ranked(v, pool), RouteIDs(chosen), Merit(v, pool));
    NormalsInOrder(v, pool, more);
  }

  lemma ChosenCompete(v: View, req: Request, chosen: seq<Candidate>)
    requires chosen == [] || chosen == Ranked(v, Eligibles(v, req, BoundOrNone(v, req), false))
    ensures forall a :: a in AsNormal(chosen) ==> Competes(v, req, a.candidate)
  {
    forall a | a in AsNormal(chosen)
      ensures Competes(v, req, a.candidate)
    {
      assert a.candidate in chosen;
      RankedContains(v, Eligibles(v, req, BoundOrNone(v, req), false), a.candidate);
      FieldIsCompeting(v, req, BoundOrNone(v, req), a.candidate);
    }
  }

  lemma FieldIsCompeting(v: View, req: Request, explicitID: string, c: Candidate)
    requires explicitID == BoundOrNone(v, req)
    ensures c in Eligibles(v, req, explicitID, false) <==> Competes(v, req, c)
  {
    var input := InputFor(v, req, explicitID, false);
    EligibleInContains(input, IDs(input), c);
    forall id
      ensures IsEligible(input, id, c) <==> IsListed(v, id, c) && Serves(v, req, c, false)
    {
      ServingIsEligible(v, req, id, c, false);
      assert IsEligible(input, id, c) <==> IsEligible(InputFor(v, req, "", false), id, c);
    }
  }

  lemma HeadIsBest(v: View, field: seq<Candidate>)
    requires Ranked(v, field) != []
    ensures forall c :: c in field ==> NoWorse(v, field, Ranked(v, field)[0], c)
  {
    RankedIsRanking(v, field);
    PermutationLength(field, Ranked(v, field));
    forall c | c in field
      ensures NoWorse(v, field, Ranked(v, field)[0], c)
    {
      var k :| 0 <= k < |Ranked(v, field)| && Ranked(v, field)[k] == c;
      StringLessIsIrreflexive(c.route.id);
    }
  }

  lemma EligibleIsFound(v: View, req: Request, explicitID: string, allowUnknown: bool, id: string, c: Candidate)
    requires if explicitID == "" then id in v.pool else id == explicitID
    requires IsEligible(InputFor(v, req, "", allowUnknown), id, c)
    ensures c in Eligibles(v, req, explicitID, allowUnknown)
  {
    var input := InputFor(v, req, explicitID, allowUnknown);
    assert id in IDs(input) && IsEligible(input, id, c);
    EligibleInContains(input, IDs(input), c);
  }

  // No route of a selected model that serves the request is left out once the request has a normal candidate: it is
  // listed, or another candidate of the same route is.
  lemma AdmittedIsResolved(v: View, req: Request, id: string, c: Candidate)
    requires id in v.pool && IsListed(v, id, c) && Serves(v, req, c, false) && Resolved(v, req) != []
    ensures exists k: nat :: NormalEntry(v, req, k) && Resolved(v, req)[k].candidate.route.id == c.route.id
  {
    ServingIsEligible(v, req, id, c, false);
    HeadIsNormal(v, req);
    EligibleIsFound(v, req, "", false, id, c);
    FoundIsNormal(v, req, c);
    var normal := Normal(v, req);
    var k: nat :| k < |normal| && normal[k].route.id == c.route.id;
    assert NormalEntry(v, req, k) && Resolved(v, req)[k] == AttemptCandidate(normal[k], false);
  }

  lemma FoundIsNormal(v: View, req: Request, c: Candidate)
    requires c in Eligibles(v, req, "", false) && Normal(v, req) != []
    ensures c.route.id in RouteIDs(Normal(v, req))
  {
    var model := TargetModel(v, req);
    RankedContains(v, Eligibles(v, req, "", false), c);
    JoinContains(
      IsExplicit(model), Ranked(v, Eligibles(v, req, model, false)), Ranked(v, Eligibles(v, req, "", false)), Normal(v, req), c);
  }

  lemma JoinContains(explicit: bool, named: seq<Candidate>, pooled: seq<Candidate>, normal: seq<Candidate>, c: Candidate)
    requires normal != [] && c in pooled
    requires normal == if !explicit then pooled else if named == [] then [] else named + Unlisted(pooled, RouteIDs(named))
    ensures c.route.id in RouteIDs(normal)
  {
    UnlistedContain(pooled, RouteIDs(named));
    if explicit {
      var more := Unlisted(pooled, RouteIDs(named));
      var d :| (d in named || d in more) && d.route.id == c.route.id;
      assert d in named + more;
    }
  }

  lemma {:induction false} FallbackCount(normal: seq<Candidate>, unknown: seq<Candidate>, c: Candidate)
    requires IsFallback(normal, c)
    ensures multiset(Fallbacks(normal, unknown))[AttemptCandidate(c, true)] == multiset(unknown)[c]
  {
    if unknown != [] {
      assert unknown == unknown[..|unknown| - 1] + [unknown[|unknown| - 1]];
      FallbackCount(normal, unknown[..|unknown| - 1], c);
    }
  }

  // Every Unknown-access alternate that serves the request is listed. The list may repeat a route: an alternate of an
  // explicit model that is also selected is listed at least twice.
  lemma AlternatesAreResolved(v: View, req: Request, id: string, c: Candidate)
    requires Reaches(v, req, id) && IsListed(v, id, c) && Serves(v, req, c, true) && c.route.access in {Unset, AccessUnknown}
    requires (forall d :: d in Normal(v, req) ==> d.route.id != c.route.id)
      && exists d :: d in Normal(v, req) && d.model.id == c.model.id
    ensures multiset(Resolved(v, req))[AttemptCandidate(c, true)] >= 1
    ensures IsExplicit(TargetModel(v, req)) && id == TargetModel(v, req) && id in v.pool ==>
      multiset(Resolved(v, req))[AttemptCandidate(c, true)] >= 2
  {
    var unknown := Unknown(v, req);
    ServingIsEligible(v, req, id, c, true);
    AlternatesAreGathered(v, req, id, c);
    RankWithScoreIsSorted(unknown, Some(v.freshTTFT), ScoreUsed(v, unknown));
    FallbackCount(Normal(v, req), Ranked(v, unknown), c);
  }

  lemma AlternatesAreGathered(v: View, req: Request, id: string, c: Candidate)
    requires Reaches(v, req, id) && IsEligible(InputFor(v, req, "", true), id, c)
    ensures multiset(Unknown(v, req))[c] >= 1
    ensures IsExplicit(TargetModel(v, req)) && id == TargetModel(v, req) && id in v.pool ==> multiset(Unknown(v, req))[c] >= 2
  {
    var model, unknown, pooled := TargetModel(v, req), Unknown(v, req), Eligibles(v, req, "", true);
    if id in v.pool {
      EligibleIsFound(v, req, "", true, id, c);
      assert c in multiset(pooled);
    }
    if IsExplicit(model) {
      var named := Eligibles(v, req, model, true);
      assert multiset(unknown) == multiset(named) + multiset(pooled);
      if id == model {
        EligibleIsFound(v, req, model, true, id, c);
        assert c in multiset(named);
      }
    }
  }
}
