/**
 * Runs of the process on its one configuration (internal/app/app.go): update calls, and in between, under the same
 * lock, the writes of the pool and the pin, which raise no revision.
 */
module ConfigRuns {
  import opened ConfigUpdate
  import opened ExampleConfig
  import opened ProviderConfigs
  import opened Runs
  import opened Secrets
  import opened Wrappers

  // What the gateway's control state contributes to the config.
  datatype Control = Control(modelPool: seq<string>, modelPoolMode: string, pinnedModel: string)

  function ControlOf(cfg: Config): Control {
    Control(cfg.modelPool, cfg.modelPoolMode, cfg.pinnedModel)
  }

  function WithControl(cfg: Config, k: Control): Config {
    cfg.(modelPool := k.modelPool, modelPoolMode := k.modelPoolMode, pinnedModel := k.pinnedModel)
  }

  datatype Input = Update(call: Call) | Persist(control: Control)

  datatype Reply = Updated(result: Result<Response, UpdateError>) | Persisted(saved: bool) {
    predicate Succeeds() {
      Updated? && result.Ok?
    }
  }

  type Log = seq<Entry<State, Reply>>

  // The control state is in the config even when saving it fails.
  ghost predicate RunStep(env: Env, s: State, i: Input, t: State, reply: Reply) {
    match i
    case Update(c) => reply.Updated? && Step(env, s, c, t, reply.result)
    case Persist(k) => reply.Persisted? && t == s.(config := WithControl(s.config, k)) && (s.config.sourcePath == "" ==> reply.saved)
  }

  ghost predicate IsRun(env: Env, start: State, inputs: seq<Input>, log: Log) {
    History((s, i, t, reply) => RunStep(env, s, i, t, reply), start, inputs, log)
  }

  method PersistControlState(cell: ConfigCell, store: SecretStore, k: Control) returns (saved: bool)
    modifies cell, store`clock
    ensures cell.config == WithControl(old(cell.config), k)
    ensures saved <==> old(cell.config).sourcePath == "" || store.script(old(store.clock)).works
    ensures store.clock >= old(store.clock)
  {
    cell.config := cell.config.(modelPool := []);
    for i := 0 to |k.modelPool|
      modifies cell
      invariant cell.config == old(cell.config).(modelPool := k.modelPool[..i])
    {
      cell.config := cell.config.(modelPool := cell.config.modelPool + [k.modelPool[i]]);
    }
    cell.config := cell.config.(modelPoolMode := k.modelPoolMode);
    cell.config := cell.config.(pinnedModel := k.pinnedModel);
    if cell.config.sourcePath == "" {
      return true;
    }
    var save := store.Fate();
    saved := save.works;
  }

  ghost predicate Ready(cell: ConfigCell, store: SecretStore, endpointOk: string -> bool)
    reads cell, store
  {
    store.Valid() && ValidProviders(cell.config.providers, endpointOk) && RefsNotNewer(cell.config)
  }

  method Turn(cell: ConfigCell, store: SecretStore, input: Input, endpointOk: string -> bool) returns (reply: Reply)
    requires Ready(cell, store, endpointOk)
    modifies cell, store`vault, store`clock
    ensures Ready(cell, store, endpointOk)
    ensures RunStep(Env(endpointOk, store.size), State(old(cell.config), old(store.vault)), input,
      State(cell.config, store.vault), reply)
  {
    ghost var env, s := Env(endpointOk, store.size), State(cell.config, store.vault);
    match input {
      case Update(c) =>
        var r := UpdateConfig(cell, store, c, endpointOk);
        StepKeepsConfig(env, s, c, State(cell.config, store.vault), r);
        reply := Updated(r);
      case Persist(k) =>
        var saved := PersistControlState(cell, store, k);
        reply := Persisted(saved);
    }
  }

  lemma StepKeepsConfig(env: Env, s: State, c: Call, t: State, r: Result<Response, UpdateError>)
    requires ValidProviders(s.config.providers, env.endpointOk) && RefsNotNewer(s.config) && Step(env, s, c, t, r)
    ensures ValidProviders(t.config.providers, env.endpointOk) && RefsNotNewer(t.config)
  {
    if r.Ok? {
      SuccessKeepsSecretsExactly(env, s, c, t, r);
    }
  }

  // Serves any sequence of inputs, each under the config lock, whatever fails in between.
  method Serve(cell: ConfigCell, store: SecretStore, inputs: seq<Input>, endpointOk: string -> bool) returns (log: Log)
    requires Ready(cell, store, endpointOk)
    modifies cell, store`vault, store`clock
    ensures Ready(cell, store, endpointOk)
    ensures IsRun(Env(endpointOk, store.size), State(old(cell.config), old(store.vault)), inputs, log)
    ensures State(cell.config, store.vault) == Before(State(old(cell.config), old(store.vault)), log, |log|)
  {
    ghost var env := Env(endpointOk, store.size);
    ghost var step := (s, i, t, reply) => RunStep(env, s, i, t, reply);
    ghost var start := State(cell.config, store.vault);
    log := [];
    for i := 0 to |inputs|
      invariant Ready(cell, store, endpointOk)
      invariant History(step, start, inputs[..i], log)
      invariant State(cell.config, store.vault) == Before(start, log, i)
    {
      var reply := Turn(cell, store, inputs[i], endpointOk);
      assert inputs[..i + 1] == inputs[..i] + [inputs[i]];
      HistoryGrows(step, start, inputs[..i], log, inputs[i], State(cell.config, store.vault), reply);
      log := log + [Entry(State(cell.config, store.vault), reply)];
    }
    assert inputs[..|inputs|] == inputs;
  }

  // ----- soundness

  ghost predicate SoundUpTo(env: Env, start: State, log: Log, n: nat)
    requires n <= |log|
  {
    forall k: nat :: k <= n ==> IsSound(env, Before(start, log, k))
  }

  ghost predicate SecuredAt(start: State, inputs: seq<Input>, log: Log, k: nat)
    requires k < |log| == |inputs|
  {
    inputs[k].Update? ==> Secures(Before(start, log, k), inputs[k].call, log[k].after)
  }

  ghost predicate SecuredUpTo(start: State, inputs: seq<Input>, log: Log, n: nat)
    requires n <= |log| == |inputs|
  {
    forall k: nat :: k < n ==> SecuredAt(start, inputs, log, k)
  }

  // Throughout a run every reference names a readable secret exactly when every call was secure.
  lemma {:induction false} RunIsSoundExactly(env: Env, start: State, inputs: seq<Input>, log: Log, n: nat)
    requires IsRun(env, start, inputs, log) && IsSound(env, start) && n <= |log|
    ensures SoundUpTo(env, start, log, n) <==> SecuredUpTo(start, inputs, log, n)
  {
    if n > 0 {
      RunIsSoundExactly(env, start, inputs, log, n - 1);
      var s, t := Before(start, log, n - 1), Before(start, log, n);
      assert SoundUpTo(env, start, log, n) <==> SoundUpTo(env, start, log, n - 1) && IsSound(env, t);
      assert SecuredUpTo(start, inputs, log, n) <==> SecuredUpTo(start, inputs, log, n - 1) && SecuredAt(start, inputs, log, n - 1);
      if IsSound(env, s) {
        assert StepAt((s, i, t, reply) => RunStep(env, s, i, t, reply), start, inputs, log, n - 1);
        TurnIsSoundExactly(env, s, inputs[n - 1], t, log[n - 1].reply);
      } else {
        assert !SoundUpTo(env, start, log, n - 1);
      }
    }
  }

  lemma TurnIsSoundExactly(env: Env, s: State, i: Input, t: State, reply: Reply)
    requires IsSound(env, s) && RunStep(env, s, i, t, reply)
    ensures IsSound(env, t) <==> (i.Update? ==> Secures(s, i.call, t))
  {
    match i
    case Update(c) => StepIsSoundExactly(env, s, c, t, reply.result);
    case Persist(k) => assert Refs(t.config) == Refs(s.config);
  }

  // ----- the revision

  // The control state after these inputs.
  function LastControl(inputs: seq<Input>, i: nat, j: nat, k: Control): Control
    requires i <= j <= |inputs|
    decreases j - i
  {
    if i == j then k
    else if inputs[j - 1].Persist? then inputs[j - 1].control
    else LastControl(inputs, i, j - 1, k)
  }

  // What a turn does to the config, as far as the revision tells.
  ghost predicate CountsSuccess(s: State, i: Input, t: State, reply: Reply) {
    && (i.Update? <==> reply.Updated?)
    && if reply.Succeeds() then
         i.call.request.revision == s.config.configRevision && t.config.configRevision == s.config.configRevision + 1
       else t.config == if i.Persist? then WithControl(s.config, i.control) else s.config
  }

  ghost predicate CountsSuccesses(step: (State, Input, State, Reply) -> bool) {
    forall s, i, t, reply :: step(s, i, t, reply) ==> CountsSuccess(s, i, t, reply)
  }

  lemma TurnCountsSuccesses(env: Env)
    ensures CountsSuccesses((s, i, t, reply) => RunStep(env, s, i, t, reply))
  {
    forall s, i, t, reply | RunStep(env, s, i, t, reply)
      ensures CountsSuccess(s, i, t, reply)
    {
      TurnCountsSuccess(env, s, i, t, reply);
    }
  }

  lemma TurnCountsSuccess(env: Env, s: State, i: Input, t: State, reply: Reply)
    requires RunStep(env, s, i, t, reply)
    ensures CountsSuccess(s, i, t, reply)
  {
  }

  // The revision counts the successes of a run. While it stays the same, only the control state changes.
  lemma {:induction false} RevisionCounts(
    step: (State, Input, State, Reply) -> bool, start: State, inputs: seq<Input>, log: Log, i: nat, j: nat)
    requires CountsSuccesses(step) && History(step, start, inputs, log) && i <= j <= |log|
    ensures var a, b := Before(start, log, i).config, Before(start, log, j).config;
      && a.configRevision <= b.configRevision
      && (a.configRevision == b.configRevision ==> b == WithControl(a, LastControl(inputs, i, j, ControlOf(a))))
    decreases j - i
  {
    if i < j {
      RevisionCounts(step, start, inputs, log, i, j - 1);
      assert StepAt(step, start, inputs, log, j - 1);
    }
  }

  lemma SuccessIsUnrivalled(
    step: (State, Input, State, Reply) -> bool, start: State, inputs: seq<Input>, log: Log, i: nat, j: nat)
    requires CountsSuccesses(step) && History(step, start, inputs, log) && i <= j < |log|
    requires inputs[j].Update? && log[j].reply.Succeeds()
    requires inputs[j].call.request.revision == Before(start, log, i).config.configRevision
    ensures Before(start, log, j).config.configRevision == Before(start, log, i).config.configRevision
    ensures forall n :: i <= n < j ==> !log[n].reply.Succeeds()
  {
    assert StepAt(step, start, inputs, log, j);
    forall n | i <= n < j
      ensures !log[n].reply.Succeeds()
    {
      assert StepAt(step, start, inputs, log, n);
      RevisionCounts(step, start, inputs, log, i, n);
      RevisionCounts(step, start, inputs, log, n + 1, j);
    }
  }

  // A call that succeeds on the revision it read sees the config it read but for the control state persisted since, so
  // the whole config is the one read exactly when that is what it was. Rival calls in between are refused.
  lemma SuccessSeesItsRead(env: Env, start: State, inputs: seq<Input>, log: Log, i: nat, j: nat)
    requires IsRun(env, start, inputs, log) && i <= j < |log|
    requires inputs[j].Update? && log[j].reply.Succeeds()
    requires inputs[j].call.request.revision == Before(start, log, i).config.configRevision
    ensures var read, seen := Before(start, log, i).config, Before(start, log, j).config;
      var persisted := LastControl(inputs, i, j, ControlOf(read));
      seen == WithControl(read, persisted) && (seen == read <==> persisted == ControlOf(read))
    ensures forall n :: i <= n < j && inputs[n].Update? ==> !log[n].reply.Succeeds()
  {
    var step := (s, i, t, reply) => RunStep(env, s, i, t, reply);
    TurnCountsSuccesses(env);
    SuccessIsUnrivalled(step, start, inputs, log, i, j);
    RevisionCounts(step, start, inputs, log, i, j);
  }

  // ----- where a credential is sent

  lemma {:induction false} ConfigStaysValid(env: Env, start: State, inputs: seq<Input>, log: Log, k: nat)
    requires IsRun(env, start, inputs, log) && k <= |log|
    requires ValidProviders(start.config.providers, env.endpointOk) && RefsNotNewer(start.config)
    ensures var cfg := Before(start, log, k).config; ValidProviders(cfg.providers, env.endpointOk) && RefsNotNewer(cfg)
  {
    if k > 0 {
      ConfigStaysValid(env, start, inputs, log, k - 1);
      assert StepAt((s, i, t, reply) => RunStep(env, s, i, t, reply), start, inputs, log, k - 1);
      if inputs[k - 1].Update? {
        StepKeepsConfig(env, Before(start, log, k - 1), inputs[k - 1].call, Before(start, log, k), log[k - 1].reply.result);
      }
    }
  }

  // From its issue on a reference is only ever paired with one provider and one endpoint.
  lemma {:induction false} OneEndpointPerReference(
    env: Env, start: State, inputs: seq<Input>, log: Log, i: nat, j: nat, p: ProviderConfig, q: ProviderConfig)
    requires IsRun(env, start, inputs, log) && i <= j <= |log|
    requires ValidProviders(start.config.providers, env.endpointOk) && RefsNotNewer(start.config)
    requires p in Before(start, log, i).config.providers && q in Before(start, log, j).config.providers
    requires p.credentialRef == q.credentialRef != ""
    ensures p.id == q.id && p.baseURL == q.baseURL
    decreases j - i
  {
    var u := Before(start, log, i);
    ConfigStaysValid(env, start, inputs, log, i);
    if i == j {
      SameOwner(u.config, env.endpointOk, p.credentialRef, p, q);
    } else {
      ConfigStaysValid(env, start, inputs, log, j - 1);
      RunAt(env, start, inputs, log, i, j - 1);
      var s, t := Before(start, log, j - 1), Before(start, log, j);
      var q' := EarlierPairing(env, u, s, inputs[j - 1], t, log[j - 1].reply, p, q);
      OneEndpointPerReference(env, start, inputs, log, i, j - 1, p, q');
    }
  }

  lemma RunAt(env: Env, start: State, inputs: seq<Input>, log: Log, i: nat, k: nat)
    requires IsRun(env, start, inputs, log) && i <= k < |log|
    ensures RunStep(env, Before(start, log, k), inputs[k], Before(start, log, k + 1), log[k].reply)
    ensures Before(start, log, i).config.configRevision <= Before(start, log, k).config.configRevision
  {
    var step := (s, i, t, reply) => RunStep(env, s, i, t, reply);
    TurnCountsSuccesses(env);
    RevisionCounts(step, start, inputs, log, i, k);
    assert StepAt(step, start, inputs, log, k);
  }

  // A reference that was in use before a turn, at whatever time, is paired after it as it was before it.
  lemma EarlierPairing(
    env: Env, u: State, s: State, i: Input, t: State, reply: Reply, p: ProviderConfig, q: ProviderConfig)
    returns (q': ProviderConfig)
    requires ValidProviders(u.config.providers, env.endpointOk) && RefsNotNewer(u.config)
    requires ValidProviders(s.config.providers, env.endpointOk) && RefsNotNewer(s.config)
    requires u.config.configRevision <= s.config.configRevision && RunStep(env, s, i, t, reply)
    requires p in u.config.providers && q in t.config.providers && p.credentialRef == q.credentialRef != ""
    ensures q' in s.config.providers && q'.credentialRef == q.credentialRef && q'.id == q.id && q'.baseURL == q.baseURL
  {
    if !i.Update? || reply.result.Err? {
      return q;
    }
    if q.credentialRef !in Refs(s.config) {
      SuccessFacts(env, s, i.call, t, reply.result);
      assert q.credentialRef in NewRefs(s.config, i.call.request);
      NewIsNotOld(env, u.config, s.config, i.call.request, p);
      assert false;
    }
    q' := KeptKeyKeepsEndpoint(env, s, i.call, t, reply.result, q);
  }

  // A new reference carries a revision that none in use before it has.
  lemma NewIsNotOld(env: Env, earlier: Config, cfg: Config, request: Request, p: ProviderConfig)
    requires ValidProviders(earlier.providers, env.endpointOk) && RefsNotNewer(earlier) && p in earlier.providers && p.credentialRef != ""
    requires ValidProviders(cfg.providers, env.endpointOk) && RefsNotNewer(cfg) && Accepted(cfg, request, env.endpointOk)
    requires earlier.configRevision <= cfg.configRevision
    ensures p.credentialRef !in NewRefs(cfg, request)
  {
    if p.credentialRef in NewRefs(cfg, request) {
      var item :| item in request.providers && item.Key() != "" && p.credentialRef == CredentialRef(item.id, cfg.configRevision + 1);
      NewRefIsFresh(cfg, request, env.endpointOk, item);
      FreshRef(item.id, cfg.configRevision + 1);
      assert ValidProvider(p, env.endpointOk);
      RefNamesOneProvider(p.credentialRef, p.id, item.id);
    }
  }

  // ----- a persisted change goes unseen

  predicate ValidControl(k: Control) {
    k.modelPoolMode in {"", "Automatic", "Manual"} && (k.pinnedModel != "" ==> k.pinnedModel in k.modelPool)
  }

  // A request is accepted on any valid control state, and carries it over.
  lemma ControlIsCarriedOver(cfg: Config, k: Control, request: Request, endpointOk: string -> bool)
    requires Accepted(cfg, request, endpointOk) && ValidControl(k)
    ensures Accepted(WithControl(cfg, k), request, endpointOk)
    ensures Candidate(WithControl(cfg, k), request) == WithControl(Candidate(cfg, request), k)
  {
    assert DesiredProviders(WithControl(cfg, k), request.providers) == DesiredProviders(cfg, request.providers);
  }

  // The input: a client reads the config, another one changes the pool or the pin, and the first one's update succeeds
  // on the revision it read although the config is no longer what it read.
  lemma PersistGoesUnseen(env: Env, v: Vault, k: Control)
    requires env.endpointOk(URL) && ValidControl(k) && k != ControlOf(START)
    ensures var seen := WithControl(START, k);
      var inputs := [Persist(k), Update(Ask(START.configRevision, None, None))];
      var log := [Entry(State(seen, v), Persisted(true)),
                  Entry(State(WithControl(Configured(1, "", ""), k), v), Updated(Ok(Response(false, ""))))];
      IsRun(env, State(START, v), inputs, log) && seen != START && seen.configRevision == START.configRevision
  {
    var s, t := State(WithControl(START, k), v), State(WithControl(Configured(1, "", ""), k), v);
    UnseenStep(env, v, k);
    var inputs := [Persist(k), Update(Ask(0, None, None))];
    var step := (s, i, t, reply) => RunStep(env, s, i, t, reply);
    var log := [Entry(s, Persisted(true)), Entry(t, Updated(Ok(Response(false, ""))))];
    assert Before(State(START, v), log, 1) == s;
    assert StepAt(step, State(START, v), inputs, log, 0);
    assert StepAt(step, State(START, v), inputs, log, 1);
  }

  lemma UnseenStep(env: Env, v: Vault, k: Control)
    requires env.endpointOk(URL) && ValidControl(k)
    ensures Step(env, State(WithControl(START, k), v), Ask(0, None, None), State(WithControl(Configured(1, "", ""), k), v),
      Ok(Response(false, "")))
  {
    var s, t := State(WithControl(START, k), v), State(WithControl(Configured(1, "", ""), k), v);
    PlainCall(env.endpointOk);
    assert START == Configured(0, "", "");
    ControlIsCarriedOver(START, k, Ask(0, None, None).request, env.endpointOk);
    NothingIsCommitted(env, s, Ask(0, None, None), t);
  }

  lemma NothingIsCommitted(env: Env, s: State, c: Call, t: State)
    requires Accepted(s.config, c.request, env.endpointOk) && t == State(Candidate(s.config, c.request), s.vault)
    requires Staged(c.request.providers, t.config.configRevision) == map[] && InferenceKey(c.request, c.newToken).None?
    requires Refs(s.config) <= Refs(t.config)
    ensures Step(env, s, c, t, Ok(Response(false, "")))
  {
  }
}
