/** Capabilities, access classes, models and routes (internal/model/types.go). */
module ModelTypes {
  import opened Wrappers

  datatype Feature = Streaming | Tools | Vision | StructuredOutput | Reasoning

  datatype FeatureState = FeatureUnknown | Unsupported | Supported

  // `positive` holds the boolean fields that are set, `unknown` the bits of omitted metadata.
  datatype Capabilities = Capabilities(positive: set<Feature>, unknown: set<Feature>, contextLength: int, maxOutput: int) {
    function State(f: Feature): FeatureState {
      if f in unknown then FeatureUnknown else if f in positive then FeatureState.Supported else Unsupported
    }

    predicate Supports(req: Requirements) {
      && (forall f :: f in req.features ==> State(f) == FeatureState.Supported)
      && !(req.minContextLength > 0 && contextLength > 0 && contextLength < req.minContextLength)
      && !(req.maxOutputTokens > 0 && maxOutput > 0 && maxOutput < req.maxOutputTokens)
    }

    function Intersect(o: Capabilities): Capabilities {
      Capabilities(
        (set f: Feature | IntersectFeature(f in positive, f in unknown, f in o.positive, f in o.unknown).0),
        (set f: Feature | IntersectFeature(f in positive, f in unknown, f in o.positive, f in o.unknown).1),
        MinPositive(contextLength, o.contextLength),
        MinPositive(maxOutput, o.maxOutput))
    }

    // A feature must be known to be there; a length that is not stated meets any requirement.
    lemma SupportsExactly(req: Requirements)
      ensures Supports(req) <==>
        && req.features <= positive - unknown
        && (contextLength >= req.minContextLength || contextLength <= 0 || req.minContextLength <= 0)
        && (maxOutput >= req.maxOutputTokens || maxOutput <= 0 || req.maxOutputTokens <= 0)
    {
      assert forall f :: f in req.features && State(f) == FeatureState.Supported ==> f in positive - unknown;
      assert forall f :: f in req.features && f in positive - unknown ==> State(f) == FeatureState.Supported;
    }

    // A requirement is met by an intersection exactly when both sides meet it.
    lemma IntersectSupports(o: Capabilities, req: Requirements)
      ensures Intersect(o).Supports(req) <==> Supports(req) && o.Supports(req)
    {
      var both := Intersect(o);
      forall f: Feature
        ensures both.State(f) == FeatureState.Supported <==> State(f) == FeatureState.Supported && o.State(f) == FeatureState.Supported
      {
      }
      if both.Supports(req) {
        forall f | f in req.features
          ensures State(f) == FeatureState.Supported && o.State(f) == FeatureState.Supported
        {
          assert both.State(f) == FeatureState.Supported;
        }
      }
    }
  }

  datatype Requirements = Requirements(features: set<Feature>, minContextLength: int, maxOutputTokens: int)

  // A definite "unsupported" wins over unknown metadata; unknown stays visible otherwise.
  function IntersectFeature(a: bool, aUnknown: bool, b: bool, bUnknown: bool): (bool, bool) {
    if (!aUnknown && !a) || (!bUnknown && !b) then (false, false)
    else if aUnknown || bUnknown then (a && b, true)
    else (a && b, false)
  }

  // The model part of "<provider>/<model>", split at the first slash; both parts must be non-empty.
  function ModelSegment(id: string, i: nat := 0): Option<string>
    requires i <= |id|
    decreases |id| - i
  {
    if i == |id| then None
    else if id[i] != '/' then ModelSegment(id, i + 1)
    else if i == 0 || i == |id| - 1 then None
    else Some(id[i + 1..])
  }

  lemma {:induction false} SegmentFrom(id: string, i: nat, n: nat)
    requires i <= n <= |id| && (forall k :: i <= k < n ==> id[k] != '/') && (n < |id| ==> id[n] == '/')
    ensures ModelSegment(id, i) == if n == |id| || n == 0 || n == |id| - 1 then None else Some(id[n + 1..])
    decreases n - i
  {
    if i < n {
      SegmentFrom(id, i + 1, n);
    }
  }

  // The part after the first slash, when there is something on both sides of it.
  lemma SegmentIsAfterFirstSlash(provider: string, rest: string)
    requires '/' !in provider
    ensures ModelSegment(provider).None?
    ensures ModelSegment(provider + "/" + rest) == if provider == "" || rest == "" then None else Some(rest)
  {
    var id := provider + "/" + rest;
    SegmentFrom(provider, 0, |provider|);
    SegmentFrom(id, 0, |provider|);
    assert id[|provider| + 1..] == rest;
  }

  function MinPositive(a: int, b: int): int {
    if a <= 0 then b else if b <= 0 then a else if a < b then a else b
  }

  // Unset is the empty string, Unclassified any other unrecognized value.
  datatype Access = Unset | AccessUnknown | Free | FreeTier | Paid | Unclassified {
    predicate AutoRoutable() {
      Free? || FreeTier?
    }
  }

  datatype ProviderModel = ProviderModel(
    id: string, canonicalKey: string, displayName: string, upstreamID: string, base: Capabilities)

  datatype ProviderRoute = ProviderRoute(
    id: string, provider: string, credentialID: string, access: Access, capabilityOverride: Option<Capabilities>,
    enabled: bool, autoRouteAllowed: Option<bool>, defaultSelected: Option<bool>)
  {
    function EffectiveAccess(): Access {
      if access.Unset? then AccessUnknown else access
    }

    predicate AllowsAutomaticRouting() {
      if autoRouteAllowed.Some? then autoRouteAllowed.value else EffectiveAccess().AutoRoutable()
    }

    predicate SelectedByDefault() {
      defaultSelected == Some(true)
    }

    function EffectiveCapabilities(base: Capabilities): Capabilities {
      if capabilityOverride.None? then base else base.Intersect(capabilityOverride.value)
    }
  }

  datatype Candidate = Candidate(model: ProviderModel, route: ProviderRoute)
}
