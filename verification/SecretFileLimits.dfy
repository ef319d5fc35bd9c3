/** What the configuration transaction may lose of the secret file: all of it, when it is too large or set aside. */
module SecretFileLimits {
  import opened ConfigUpdate
  import opened ExampleConfig
  import opened ProviderConfigs
  import opened Secrets
  import opened Strings
  import opened Wrappers

  // ----- a file that is set aside

  predicate SetsAside(x: Faults) {
    x.works && !x.install && x.setAside && !x.retry && !x.restore
  }

  // The first write of a call ends with the file set aside. The call fails, and with it every secret in the file is gone.
  lemma SetAsideStep(env: Env, s: State, c: Call, key: string, value: string, x: Faults, error: UpdateError)
    requires Accepted(s.config, c.request, env.endpointOk) && s.vault.file.Readable() && SetsAside(x)
    requires if key in NewRefs(s.config, c.request) then error == CredentialWrite(false)
      else error == InferenceWrite(false) && NewRefs(s.config, c.request) == {} && IsNewKey(InferenceKey(c.request, c.newToken))
    ensures var t := State(s.config, s.vault.WithFile(Written(s.vault.file, env.size, key, value, x)));
      Step(env, s, c, t, Err(error)) && t.vault.file.Absent? && t.vault.losses == s.vault.losses + 1
  {
    var v, issued := s.vault, NewRefs(s.config, c.request);
    var w := v.WithFile(Written(v.file, env.size, key, value, x));
    assert w == v.(file := Absent, losses := v.losses + 1);
    assert forall k :: Kept(v, w, k);
    assert Effect(env.size, v, w, issued) && Effect(env.size, v, w, issued + {INFERENCE_TOKEN_KEY});
    if key in issued {
      assert Undone(issued - {key}, v, w);
    }
  }

  // A credential, of whatever value, whose write ends with the file set aside fails the call, and takes a secret in use
  // with it.
  lemma SetAsideDuringUpdate(env: Env, s: State, c: Call, ref: string, value: string, held: string, x: Faults)
    requires IsSound(env, s) && Accepted(s.config, c.request, env.endpointOk) && ref in NewRefs(s.config, c.request)
    requires held in Refs(s.config) && s.vault.file.Readable() && s.vault.ReliesOnFile(held) && SetsAside(x)
    ensures var t := State(s.config, s.vault.WithFile(Written(s.vault.file, env.size, ref, value, x)));
      Step(env, s, c, t, Err(CredentialWrite(false))) && s.vault.Get(held).Some? && t.vault.Get(held).None?
  {
    SetAsideStep(env, s, c, ref, value, x, CredentialWrite(false));
    HeldIsLost(env, s, ref, value, held, x);
  }

  lemma HeldIsLost(env: Env, s: State, ref: string, value: string, held: string, x: Faults)
    requires IsSound(env, s) && held in Refs(s.config) && s.vault.file.Readable() && s.vault.ReliesOnFile(held) && SetsAside(x)
    ensures s.vault.Get(held).Some?
    ensures s.vault.WithFile(Written(s.vault.file, env.size, ref, value, x)).Get(held).None?
  {
    SetAsideLosesAll(env.size, ref, value, x, s.vault, held);
  }

  // The secrets that the config goes on naming stay what they were, whatever fails.
  ghost predicate LossSafe(env: Env, s: State, c: Call) {
    forall t, r :: Step(env, s, c, t, r) ==> KeepsSecrets(s, t)
  }

  predicate KeepsSecrets(s: State, t: State) {
    forall ref :: ref in Refs(s.config) * Refs(t.config) ==> SameAt(s.vault, t.vault, ref)
  }

  // A caller can tell beforehand whether any fault can lose a secret in use: exactly when the file holds one and can be
  // written.
  lemma LossSafeExactly(env: Env, s: State, c: Call)
    requires ValidProviders(s.config.providers, env.endpointOk) && RefsNotNewer(s.config)
    requires Accepted(s.config, c.request, env.endpointOk) && StoresKeys(s.config, c)
    ensures LossSafe(env, s, c) <==>
      !s.vault.file.Writable() || forall ref :: ref in Refs(s.config) ==> s.vault.FileValue(ref).None?
  {
    if !s.vault.file.Writable() || forall ref :: ref in Refs(s.config) ==> s.vault.FileValue(ref).None? {
      forall t, r | Step(env, s, c, t, r)
        ensures KeepsSecrets(s, t)
      {
        UnheldAreKept(env, s, c, t, r);
      }
    } else {
      var held :| held in Refs(s.config) && s.vault.FileValue(held).Some?;
      HeldMayBeLost(env, s, c, held);
    }
  }

  lemma HeldMayBeLost(env: Env, s: State, c: Call, held: string)
    requires Accepted(s.config, c.request, env.endpointOk) && StoresKeys(s.config, c)
    requires held in Refs(s.config) && s.vault.FileValue(held).Some? && s.vault.file.Writable()
    ensures !LossSafe(env, s, c)
  {
    var issued := NewRefs(s.config, c.request);
    var x := Faults(true, false, false, true, false, false, false);
    var key := if issued != {} then (var ref :| ref in issued; ref) else INFERENCE_TOKEN_KEY;
    SetAsideStep(env, s, c, key, "", x, if issued != {} then CredentialWrite(false) else InferenceWrite(false));
    var t := State(s.config, s.vault.WithFile(Written(s.vault.file, env.size, key, "", x)));
    assert !SameAt(s.vault, t.vault, held) && held in Refs(s.config) * Refs(t.config);
  }

  lemma UnheldAreKept(env: Env, s: State, c: Call, t: State, r: Result<Response, UpdateError>)
    requires ValidProviders(s.config.providers, env.endpointOk) && RefsNotNewer(s.config)
    requires Step(env, s, c, t, r)
    requires !s.vault.file.Writable() || forall ref :: ref in Refs(s.config) ==> s.vault.FileValue(ref).None?
    ensures KeepsSecrets(s, t)
  {
    if !s.vault.file.Writable() {
      UnwritableIsNotLost(env, s, c, t, r);
    }
    if r.Ok? {
      KeptBySuccess(env, s, c, t, r);
    } else {
      KeptByFailure(env, s, c, t, r);
    }
  }

  lemma KeptBySuccess(env: Env, s: State, c: Call, t: State, r: Result<Response, UpdateError>)
    requires ValidProviders(s.config.providers, env.endpointOk) && RefsNotNewer(s.config) && Step(env, s, c, t, r) && r.Ok?
    requires t.vault.losses == s.vault.losses || forall ref :: ref in Refs(s.config) ==> s.vault.FileValue(ref).None?
    ensures KeepsSecrets(s, t)
  {
    SuccessKeepsSecretsExactly(env, s, c, t, r);
  }

  lemma KeptByFailure(env: Env, s: State, c: Call, t: State, r: Result<Response, UpdateError>)
    requires ValidProviders(s.config.providers, env.endpointOk) && RefsNotNewer(s.config) && Step(env, s, c, t, r) && r.Err?
    requires t.vault.losses == s.vault.losses || forall ref :: ref in Refs(s.config) ==> s.vault.FileValue(ref).None?
    ensures KeepsSecrets(s, t)
  {
    FailureKeepsSecretsExactly(env, s, c, t, r);
  }

  lemma UnwritableIsNotLost(env: Env, s: State, c: Call, t: State, r: Result<Response, UpdateError>)
    requires Step(env, s, c, t, r) && !s.vault.file.Writable()
    ensures t.vault.losses == s.vault.losses
  {
  }

  // ----- two credentials of 600 KiB, with no failing operation

  // A call that changes the secrets by one key of 600 KiB or more, and keeps every reference.
  ghost predicate StoresOne(cfg: Config, c: Call, next: Config, ref: string, key: string, endpointOk: string -> bool) {
    && Accepted(cfg, c.request, endpointOk) && Candidate(cfg, c.request) == next && Refs(cfg) <= Refs(next)
    && Staged(c.request.providers, cfg.configRevision + 1) == map[ref := key] && IsStorable(ref) && IsKey(key)
    && InferenceKey(c.request, c.newToken).None?
  }

  lemma OneIsStored(
    env: Env, s: State, c: Call, t: State, r: Result<Response, UpdateError>, next: Config, ref: string, key: string)
    requires IsSound(env, s) && StoresOne(s.config, c, next, ref, key, env.endpointOk) && Step(env, s, c, t, r) && r.Ok?
    requires s.vault.backend.None? && t.vault.losses == s.vault.losses
    ensures var values := s.vault.file.Contents()[ref := key];
      && t.config == next && t.vault.backend.None? && t.vault.file == Held(values, env.size(values))
      && (env.size(values) <= MAX_SECRET_FILE_BYTES ==> IsSound(env, t))
  {
    assert StoresKeys(s.config, c) by {
      StagedAreNew(s.config, c.request, env.endpointOk);
      assert ref in map[ref := key].Keys;
    }
    assert t.config == next && t.vault.backend.None?;
    SoundExactlyWithinLimit(env, s, c, t, r);
    NothingRemoved(Refs(s.config), Refs(next), t.vault);
    UpdatedByOne(s.config, s.vault, c, next, ref, key, env.endpointOk);
  }

  lemma NothingRemoved(refs: set<string>, next: set<string>, w: Vault)
    requires refs <= next
    ensures Removals(refs, next, w) == {}
  {
  }

  lemma UpdatedByOne(cfg: Config, v: Vault, c: Call, next: Config, ref: string, key: string, endpointOk: string -> bool)
    requires StoresOne(cfg, c, next, ref, key, endpointOk)
    ensures Updated(cfg, v, c, {}) == v.file.Contents()[ref := key]
  {
  }

  // Without faults such a call succeeds on a file that can be written, whatever the size of the result.
  method StoreOne(
      cell: ConfigCell, store: SecretStore, c: Call, endpointOk: string -> bool, ghost next: Config, ghost ref: string, ghost key: string)
    returns (r: Result<Response, UpdateError>)
    requires store.Valid() && store.hasFile && Faultless(store.script, store.clock)
    requires IsSound(Env(endpointOk, store.size), State(cell.config, store.vault))
    requires StoresOne(cell.config, c, next, ref, key, endpointOk)
    requires store.vault.backend.None? && store.vault.file.Writable()
    modifies cell, store`vault, store`clock
    ensures store.Valid() && Faultless(store.script, store.clock) && r.Ok? && cell.config == next
    ensures store.vault.backend.None? && store.vault.losses == old(store.vault).losses
    ensures var values := old(store.vault).file.Contents()[ref := key];
      && store.vault.file == Held(values, store.size(values))
      && (store.size(values) <= MAX_SECRET_FILE_BYTES ==> IsSound(Env(endpointOk, store.size), State(cell.config, store.vault)))
  {
    ghost var env, s := Env(endpointOk, store.size), State(cell.config, store.vault);
    TrimmedKey(key);
    r := UpdateConfig(cell, store, c, endpointOk);
    OneIsStored(env, s, c, State(cell.config, store.vault), r, next, ref, key);
  }

  lemma TrimmedKey(key: string)
    requires IsKey(key)
    ensures IsStorable(key)
  {
  }

  // Two providers get a key of 600 KiB each, one call after the other. Both calls succeed and nothing fails, and
  // afterwards every reference in the config names a secret that cannot be read.
  method TwoLargeKeysAreLost(cell: ConfigCell, store: SecretStore, x: string, y: string, endpointOk: string -> bool)
    returns (first: Result<Response, UpdateError>, second: Result<Response, UpdateError>)
    requires store.Valid() && store.hasFile && CountsValues(store.size) && Faultless(store.script, store.clock)
    requires store.vault.backend.None? && store.vault.file.Absent? && cell.config == START && endpointOk(URL)
    requires IsKey(x) && IsKey(y) && store.size(map[FIRST := x]) <= MAX_SECRET_FILE_BYTES
    modifies cell, store`vault, store`clock
    ensures first.Ok? && second.Ok? && store.vault.losses == old(store.vault).losses
    ensures Refs(cell.config) == {FIRST, SECOND}
    ensures forall ref :: ref in Refs(cell.config) ==> store.vault.Get(ref).None?
  {
    var one, two := Ask(0, Some(x), None), Ask(1, None, Some(y));
    ghost var halfway, done := Configured(1, FIRST, ""), Configured(2, FIRST, SECOND);
    assert StoresOne(START, one, halfway, FIRST, x, endpointOk) by {
      FirstStoresOne(x, endpointOk);
    }
    assert StoresOne(halfway, two, done, SECOND, y, endpointOk) by {
      SecondStoresOne(y, endpointOk);
    }
    StartIsSound(Env(endpointOk, store.size), store.vault);
    TooLarge(store.size, FIRST, SECOND, x, y);
    first, second := StoreTwo(cell, store, endpointOk, one, two, FIRST, SECOND, x, y, halfway, done);
    RefsOf(2);
  }

  method StoreTwo(
      cell: ConfigCell, store: SecretStore, endpointOk: string -> bool, one: Call, two: Call, ghost a: string, ghost b: string,
      ghost x: string, ghost y: string, ghost halfway: Config, ghost done: Config)
    returns (first: Result<Response, UpdateError>, second: Result<Response, UpdateError>)
    requires store.Valid() && store.hasFile && Faultless(store.script, store.clock)
    requires IsSound(Env(endpointOk, store.size), State(cell.config, store.vault))
    requires store.vault.backend.None? && store.vault.file.Absent? && store.size(map[a := x]) <= MAX_SECRET_FILE_BYTES
    requires StoresOne(cell.config, one, halfway, a, x, endpointOk) && StoresOne(halfway, two, done, b, y, endpointOk)
    requires store.size(map[a := x][b := y]) > MAX_SECRET_FILE_BYTES
    modifies cell, store`vault, store`clock
    ensures first.Ok? && second.Ok? && store.vault.losses == old(store.vault).losses && cell.config == done
    ensures forall ref :: store.vault.Get(ref).None?
  {
    assert store.vault.file.Contents()[a := x] == map[a := x];
    first := StoreOne(cell, store, one, endpointOk, halfway, a, x);
    second := StoreOne(cell, store, two, endpointOk, done, b, y);
  }

  lemma TooLarge(size: Size, a: string, b: string, x: string, y: string)
    requires CountsValues(size) && a != b && IsKey(x) && IsKey(y)
    ensures size(map[a := x][b := y]) > MAX_SECRET_FILE_BYTES
  {
    var both := map[a := x][b := y];
    assert a in both && b in both && |both[a]| + |both[b]| <= size(both);
  }

  lemma StartIsSound(env: Env, v: Vault)
    requires env.endpointOk(URL)
    ensures IsSound(env, State(START, v))
  {
    AreReady(env.endpointOk);
    RefsOf(0);
  }

  lemma FirstStoresOne(x: string, endpointOk: string -> bool)
    requires IsKey(x) && endpointOk(URL)
    ensures StoresOne(START, Ask(0, Some(x), None), Configured(1, FIRST, ""), FIRST, x, endpointOk)
  {
    AreReady(endpointOk);
    AreStorable();
    StagedByCalls(x, x);
    FirstCall(x, endpointOk);
    RefsOf(0);
  }

  lemma SecondStoresOne(y: string, endpointOk: string -> bool)
    requires IsKey(y) && endpointOk(URL)
    ensures StoresOne(Configured(1, FIRST, ""), Ask(1, None, Some(y)), Configured(2, FIRST, SECOND), SECOND, y, endpointOk)
  {
    AreReady(endpointOk);
    AreStorable();
    StagedByCalls(y, y);
    SecondCall(y, endpointOk);
    RefsOf(1);
    RefsOf(2);
  }
}
