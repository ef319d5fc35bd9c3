/** The eligibility chain that runs before any ranking (internal/router/filter.go). */
module Eligibility {
  import opened Wrappers
  import opened ModelTypes

  datatype FilterInput = FilterInput(
    explicitID: string,
    pool: seq<string>,
    models: map<string, ProviderModel>,
    routes: map<string, seq<ProviderRoute>>,
    reqs: Requirements,
    allowPaid: bool,
    allowUnknown: bool,
    compatible: ProviderRoute -> bool,
    available: string -> bool)

  function IDs(input: FilterInput): seq<string> {
    if input.explicitID != "" then [input.explicitID] else input.pool
  }

  predicate AccessAllowed(a: Access, allowPaid: bool, allowUnknown: bool) {
    a.AutoRoutable() || (a.Paid? && allowPaid) || (a.AccessUnknown? && allowUnknown)
  }

  predicate Admits(input: FilterInput, pm: ProviderModel, r: ProviderRoute) {
    && r.enabled
    && r.EffectiveCapabilities(pm.base).Supports(input.reqs)
    && input.compatible(r)
    && input.available(r.id)
    && (r.AllowsAutomaticRouting() || AccessAllowed(r.EffectiveAccess(), input.allowPaid, input.allowUnknown))
  }

  function AdmittedRoutes(input: FilterInput, pm: ProviderModel, routes: seq<ProviderRoute>): seq<Candidate> {
    if routes == [] then []
    else
      var last := routes[|routes| - 1];
      AdmittedRoutes(input, pm, routes[..|routes| - 1]) + if Admits(input, pm, last) then [Candidate(pm, last)] else []
  }

  function EligibleFor(input: FilterInput, id: string): seq<Candidate> {
    if id in input.models && id in input.routes then AdmittedRoutes(input, input.models[id], input.routes[id]) else []
  }

  // Each id is considered once, at its first place in the list.
  function EligibleIn(input: FilterInput, ids: seq<string>): seq<Candidate> {
    if ids == [] then []
    else
      var init, last := ids[..|ids| - 1], ids[|ids| - 1];
      EligibleIn(input, init) + if last in init then [] else EligibleFor(input, last)
  }

  method FilterRoutes(input: FilterInput, pm: ProviderModel, routes: seq<ProviderRoute>) returns (admitted: seq<Candidate>)
    ensures admitted == AdmittedRoutes(input, pm, routes)
  {
    admitted := [];
    for k := 0 to |routes|
      invariant admitted == AdmittedRoutes(input, pm, routes[..k])
    {
      var route := routes[k];
      assert routes[..k + 1][..k] == routes[..k];
      if !route.enabled {
        continue;
      }
      if !route.EffectiveCapabilities(pm.base).Supports(input.reqs) || !input.compatible(route) || !input.available(route.id) {
        continue;
      }
      if !route.AllowsAutomaticRouting() && !AccessAllowed(route.EffectiveAccess(), input.allowPaid, input.allowUnknown) {
        continue;
      }
      admitted := admitted + [Candidate(pm, route)];
    }
    assert routes[..|routes|] == routes;
  }

  method Filter(input: FilterInput) returns (eligible: seq<Candidate>)
    ensures eligible == EligibleIn(input, IDs(input))
  {
    eligible := [];
    var seen, ids := {}, IDs(input);
    for i := 0 to |ids|
      invariant seen == set id | id in ids[..i]
      invariant eligible == EligibleIn(input, ids[..i])
    {
      var id := ids[i];
      assert ids[..i + 1] == ids[..i] + [id] && ids[..i + 1][..i] == ids[..i];
      if id in seen {
        continue;
      }
      seen := seen + {id};
      if id in input.models && id in input.routes {
        var admitted := FilterRoutes(input, input.models[id], input.routes[id]);
        eligible := eligible + admitted;
      }
    }
    assert ids[..|ids|] == ids;
  }

  // ----- what is eligible

  ghost predicate IsEligible(input: FilterInput, id: string, c: Candidate) {
    && id in input.models && id in input.routes
    && c.model == input.models[id] && c.route in input.routes[id]
    && Admits(input, c.model, c.route)
  }

  lemma {:induction false} AdmittedRoutesContain(input: FilterInput, pm: ProviderModel, routes: seq<ProviderRoute>, c: Candidate)
    ensures c in AdmittedRoutes(input, pm, routes) <==> c.model == pm && c.route in routes && Admits(input, pm, c.route)
  {
    if routes != [] {
      AdmittedRoutesContain(input, pm, routes[..|routes| - 1], c);
      assert routes == routes[..|routes| - 1] + [routes[|routes| - 1]];
      assert c == Candidate(c.model, c.route);
    }
  }

  lemma {:induction false} EligibleInContains(input: FilterInput, ids: seq<string>, c: Candidate)
    ensures c in EligibleIn(input, ids) <==> exists id :: id in ids && IsEligible(input, id, c)
  {
    if ids != [] {
      var init, last := ids[..|ids| - 1], ids[|ids| - 1];
      EligibleInContains(input, init, c);
      assert ids == init + [last];
      if last in input.models && last in input.routes {
        AdmittedRoutesContain(input, input.models[last], input.routes[last], c);
      }
      assert c in EligibleFor(input, last) <==> IsEligible(input, last, c);
    }
  }

  // The routes of a model keep their order, and those of a further model come after those listed before it.
  lemma {:induction false} AdmittedInOrder(input: FilterInput, pm: ProviderModel, a: seq<ProviderRoute>, b: seq<ProviderRoute>)
    ensures AdmittedRoutes(input, pm, a + b) == AdmittedRoutes(input, pm, a) + AdmittedRoutes(input, pm, b)
  {
    if b == [] {
      assert a + b == a;
    } else {
      AdmittedInOrder(input, pm, a, b[..|b| - 1]);
      assert (a + b)[..|a + b| - 1] == a + b[..|b| - 1];
    }
  }

  lemma EligibleAppend(input: FilterInput, ids: seq<string>, id: string)
    ensures EligibleIn(input, ids + [id]) == EligibleIn(input, ids) + if id in ids then [] else EligibleFor(input, id)
  {
    assert (ids + [id])[..|ids|] == ids;
  }

  // What the filter asks of a route: both its model and its override meet the request, and it is free unless its own
  // policy or the request's says otherwise.
  lemma AdmitsExactly(input: FilterInput, pm: ProviderModel, r: ProviderRoute)
    ensures Admits(input, pm, r) <==>
      && r.enabled && input.compatible(r) && input.available(r.id)
      && pm.base.Supports(input.reqs)
      && (r.capabilityOverride.Some? ==> r.capabilityOverride.value.Supports(input.reqs))
      && (r.access in {Free, FreeTier} || r.autoRouteAllowed == Some(true)
          || (r.access == Paid && input.allowPaid) || (r.access in {Unset, AccessUnknown} && input.allowUnknown))
  {
    if r.capabilityOverride.Some? {
      pm.base.IntersectSupports(r.capabilityOverride.value, input.reqs);
    }
  }
}
