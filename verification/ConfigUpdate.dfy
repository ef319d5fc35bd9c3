/**
 * The configuration transaction (internal/app/config_update.go): credentials are staged under fresh names, the
 * config is saved, and only then is it published and the stale credentials removed. Any store or save may fail.
 */
module ConfigUpdate {
  import opened ProviderConfigs
  import opened Secrets
  import opened Strings
  import opened Wrappers

  const INFERENCE_TOKEN_KEY := "FMR_INFERENCE_TOKEN"

  datatype ProviderUpdate = ProviderUpdate(
    id: string, name: string, protocol: string, baseURL: string, enabled: bool,
    apiKey: Option<string>, autoProbe: Option<bool>, excludedModelIDs: Option<seq<string>>)
  {
    // The credential to store, empty when there is none.
    function Key(): string {
      if apiKey.Some? then TrimSpace(apiKey.value) else ""
    }
  }

  datatype Request = Request(
    revision: int, bind: string, providers: seq<ProviderUpdate>, inferenceKey: Option<string>, generateInferenceKey: bool)

  datatype Response = Response(cleanupPending: bool, generatedKey: string)

  datatype UpdateError =
    | RevisionConflict
    | EndpointChanged
    | NoneEnabled
    | Invalid
    | CredentialWrite(cleanupFailed: bool)
    | SaveFailed(cleanupFailed: bool)
    | InferenceWrite(cleanupFailed: bool)
  {
    predicate IsWriteError() {
      CredentialWrite? || SaveFailed? || InferenceWrite?
    }
  }

  // ----- the requested configuration

  function Find(providers: seq<ProviderConfig>, id: string): Option<ProviderConfig> {
    if providers == [] then None
    else if providers[|providers| - 1].id == id then Some(providers[|providers| - 1])
    else Find(providers[..|providers| - 1], id)
  }

  lemma {:induction false} FindFacts(providers: seq<ProviderConfig>, id: string)
    ensures Find(providers, id).None? ==> forall p :: p in providers ==> p.id != id
    ensures Find(providers, id).Some? ==> Find(providers, id).value in providers && Find(providers, id).value.id == id
    ensures UniqueIDs(providers) ==> forall p :: p in providers && p.id == id ==> Find(providers, id) == Some(p)
  {
    if providers != [] {
      FindFacts(providers[..|providers| - 1], id);
      assert providers == providers[..|providers| - 1] + [providers[|providers| - 1]];
    }
  }

  // An omitted key keeps the reference, a blank one clears it, and any other gets a reference of the new revision.
  function Desired(known: Option<ProviderConfig>, item: ProviderUpdate, revision: int): ProviderConfig {
    ProviderConfig(
      item.id, item.name, item.protocol, item.baseURL, item.enabled,
      if item.Key() != "" then CredentialRef(item.id, revision)
      else if item.apiKey.None? && known.Some? then known.value.credentialRef
      else "",
      if item.autoProbe.Some? then item.autoProbe else if known.Some? then known.value.autoProbe else Some(true),
      if item.excludedModelIDs.Some? then item.excludedModelIDs.value
      else if known.Some? then known.value.excludedModelIDs
      else [])
  }

  // A kept credential may not be sent to a new endpoint.
  predicate EndpointConflict(known: Option<ProviderConfig>, item: ProviderUpdate) {
    known.Some? && known.value.baseURL != item.baseURL && known.value.credentialRef != "" && item.apiKey.None?
  }

  function Candidate(cfg: Config, request: Request): Config {
    cfg.(bind := TrimSpace(request.bind), configRevision := cfg.configRevision + 1,
         providers := DesiredProviders(cfg, request.providers))
  }

  function DesiredProviders(cfg: Config, items: seq<ProviderUpdate>): (r: seq<ProviderConfig>)
    ensures |r| == |items|
    ensures forall i :: 0 <= i < |r| ==> r[i] == Desired(Find(cfg.providers, items[i].id), items[i], cfg.configRevision + 1)
  {
    seq(|items|, i requires 0 <= i < |items| => Desired(Find(cfg.providers, items[i].id), items[i], cfg.configRevision + 1))
  }

  predicate NoEndpointConflict(cfg: Config, items: seq<ProviderUpdate>) {
    forall item :: item in items ==> !EndpointConflict(Find(cfg.providers, item.id), item)
  }

  predicate Acceptable(c: Config, endpointOk: string -> bool) {
    SomeEnabled(c) && ValidSettings(c) && ValidProviders(c.providers, endpointOk)
  }

  predicate Accepted(cfg: Config, request: Request, endpointOk: string -> bool) {
    && request.revision == cfg.configRevision
    && NoEndpointConflict(cfg, request.providers)
    && Acceptable(Candidate(cfg, request), endpointOk)
  }

  predicate SomeEnabled(c: Config) {
    exists p :: p in c.providers && p.enabled
  }

  // The first check that fails.
  function Refusal(cfg: Config, request: Request, endpointOk: string -> bool): Option<UpdateError> {
    if request.revision != cfg.configRevision then Some(RevisionConflict)
    else if !NoEndpointConflict(cfg, request.providers) then Some(EndpointChanged)
    else if !SomeEnabled(Candidate(cfg, request)) then Some(NoneEnabled)
    else if !Acceptable(Candidate(cfg, request), endpointOk) then Some(Invalid)
    else None
  }

  // ----- references

  function Refs(cfg: Config): set<string> {
    set p | p in cfg.providers && p.credentialRef != "" :: p.credentialRef
  }

  function NewRefs(cfg: Config, request: Request): set<string> {
    set item | item in request.providers && item.Key() != "" :: CredentialRef(item.id, cfg.configRevision + 1)
  }

  predicate RefsNotNewer(cfg: Config) {
    forall p :: p in cfg.providers && IsCredentialRef(p.credentialRef, p.id) ==>
      RefRevision(p.credentialRef, p.id) <= cfg.configRevision
  }

  // Every reference names a readable secret and was issued no later than the current revision.
  predicate Sound(cfg: Config, v: Vault, endpointOk: string -> bool) {
    && ValidProviders(cfg.providers, endpointOk)
    && RefsNotNewer(cfg)
    && forall ref :: ref in Refs(cfg) ==> v.Get(ref).Some?
  }

  lemma OwnerOf(cfg: Config, endpointOk: string -> bool, ref: string) returns (p: ProviderConfig)
    requires ValidProviders(cfg.providers, endpointOk) && ref in Refs(cfg)
    ensures p in cfg.providers && p.credentialRef == ref && IsProviderID(p.id) && IsCredentialRef(ref, p.id)
    ensures Find(cfg.providers, p.id) == Some(p)
    ensures TrimSpace(ref) == ref && ref != INFERENCE_TOKEN_KEY && IsStorable(ref)
  {
    p :| p in cfg.providers && p.credentialRef == ref;
    assert ValidProvider(p, endpointOk);
    FindFacts(cfg.providers, p.id);
    RefIsPlain(ref, p.id);
  }

  lemma DesiredOwner(cfg: Config, request: Request, p: ProviderConfig) returns (item: ProviderUpdate)
    requires p in Candidate(cfg, request).providers
    ensures item in request.providers && p == Desired(Find(cfg.providers, item.id), item, cfg.configRevision + 1)
  {
    var i :| 0 <= i < |Candidate(cfg, request).providers| && Candidate(cfg, request).providers[i] == p;
    item := request.providers[i];
  }

  lemma DesiredOf(cfg: Config, request: Request, endpointOk: string -> bool, item: ProviderUpdate)
    requires ValidProviders(DesiredProviders(cfg, request.providers), endpointOk) && item in request.providers
    ensures var p := Desired(Find(cfg.providers, item.id), item, cfg.configRevision + 1);
      && p in DesiredProviders(cfg, request.providers) && ValidProvider(p, endpointOk)
      && Find(DesiredProviders(cfg, request.providers), item.id) == Some(p)
  {
    var providers := DesiredProviders(cfg, request.providers);
    var i :| 0 <= i < |request.providers| && request.providers[i] == item;
    assert providers[i] in providers;
    FindFacts(providers, item.id);
  }

  // A staged reference is new: its revision exceeds every one in use.
  lemma NewRefIsFresh(cfg: Config, request: Request, endpointOk: string -> bool, item: ProviderUpdate)
    requires ValidProviders(cfg.providers, endpointOk) && RefsNotNewer(cfg)
    requires Accepted(cfg, request, endpointOk) && item in request.providers && item.Key() != ""
    ensures var ref := CredentialRef(item.id, cfg.configRevision + 1);
      && cfg.configRevision >= -1 && IsProviderID(item.id) && IsCredentialRef(ref, item.id)
      && ref !in Refs(cfg) && ref in Refs(Candidate(cfg, request))
      && TrimSpace(ref) == ref && ref != INFERENCE_TOKEN_KEY && IsStorable(ref)
  {
    var ref := CredentialRef(item.id, cfg.configRevision + 1);
    DesiredOf(cfg, request, endpointOk, item);
    if cfg.configRevision + 1 < 0 {
      NegativeRef(item.id, cfg.configRevision + 1);
    } else {
      FreshRef(item.id, cfg.configRevision + 1);
    }
    RefIsPlain(ref, item.id);
    if ref in Refs(cfg) {
      var p := OwnerOf(cfg, endpointOk, ref);
      RefNamesOneProvider(ref, p.id, item.id);
    }
  }

  lemma RefsArePlain(cfg: Config, request: Request, endpointOk: string -> bool, ref: string)
    requires ValidProviders(cfg.providers, endpointOk) && RefsNotNewer(cfg) && Accepted(cfg, request, endpointOk)
    requires ref in Refs(cfg) + NewRefs(cfg, request)
    ensures TrimSpace(ref) == ref && ref != INFERENCE_TOKEN_KEY && IsStorable(ref)
  {
    if ref in Refs(cfg) {
      var _ := OwnerOf(cfg, endpointOk, ref);
    } else {
      var item :| item in request.providers && item.Key() != "" && ref == CredentialRef(item.id, cfg.configRevision + 1);
      NewRefIsFresh(cfg, request, endpointOk, item);
    }
  }

  // The references of the requested config are kept ones and new ones.
  lemma CandidateRefs(cfg: Config, request: Request, endpointOk: string -> bool)
    requires ValidProviders(cfg.providers, endpointOk) && RefsNotNewer(cfg) && Accepted(cfg, request, endpointOk)
    ensures Refs(Candidate(cfg, request)) - Refs(cfg) == NewRefs(cfg, request)
  {
    var next := Candidate(cfg, request);
    forall ref | ref in NewRefs(cfg, request)
      ensures ref in Refs(next) - Refs(cfg)
    {
      var item :| item in request.providers && item.Key() != "" && ref == CredentialRef(item.id, cfg.configRevision + 1);
      NewRefIsFresh(cfg, request, endpointOk, item);
    }
    forall ref | ref in Refs(next)
      ensures ref in Refs(cfg) + NewRefs(cfg, request)
    {
      var p := OwnerOf(next, endpointOk, ref);
      DesiredRef(cfg, request, endpointOk, p);
    }
  }

  lemma CandidateIsNotNewer(cfg: Config, request: Request, endpointOk: string -> bool)
    requires ValidProviders(cfg.providers, endpointOk) && RefsNotNewer(cfg) && Accepted(cfg, request, endpointOk)
    ensures RefsNotNewer(Candidate(cfg, request))
  {
    forall p | p in Candidate(cfg, request).providers && IsCredentialRef(p.credentialRef, p.id)
      ensures RefRevision(p.credentialRef, p.id) <= cfg.configRevision + 1
    {
      DesiredRef(cfg, request, endpointOk, p);
    }
  }

  lemma DesiredRef(cfg: Config, request: Request, endpointOk: string -> bool, p: ProviderConfig)
    requires ValidProviders(cfg.providers, endpointOk) && RefsNotNewer(cfg) && Accepted(cfg, request, endpointOk)
    requires p in Candidate(cfg, request).providers && IsCredentialRef(p.credentialRef, p.id)
    ensures p.credentialRef in Refs(cfg) + NewRefs(cfg, request)
    ensures RefRevision(p.credentialRef, p.id) <= cfg.configRevision + 1
  {
    var item := DesiredOwner(cfg, request, p);
    FindFacts(cfg.providers, item.id);
    if item.Key() != "" {
      NewRefIsFresh(cfg, request, endpointOk, item);
      FreshRef(item.id, cfg.configRevision + 1);
    }
  }

  // ----- which references go stale

  predicate Replaces(cfg: Config, item: ProviderUpdate, ref: string) {
    && item.apiKey.Some? && ref != ""
    && Find(cfg.providers, item.id).Some? && Find(cfg.providers, item.id).value.credentialRef == ref
  }

  predicate Drops(cfg: Config, items: seq<ProviderUpdate>, ref: string) {
    ref != "" && exists p :: p in cfg.providers && p.credentialRef == ref && forall item :: item in items ==> item.id != p.id
  }

  // A reference goes stale exactly when its provider is re-keyed or removed.
  lemma StaleRefs(cfg: Config, request: Request, endpointOk: string -> bool, ref: string)
    requires ValidProviders(cfg.providers, endpointOk) && RefsNotNewer(cfg) && Accepted(cfg, request, endpointOk)
    ensures ref in Refs(cfg) - Refs(Candidate(cfg, request)) <==>
      Drops(cfg, request.providers, ref) || exists item :: item in request.providers && Replaces(cfg, item, ref)
  {
    var next := Candidate(cfg, request);
    if ref in Refs(cfg) {
      var p := OwnerOf(cfg, endpointOk, ref);
      if item :| item in request.providers && item.id == p.id {
        KeptOrReplaced(cfg, request, endpointOk, ref, p, item);
      } else {
        assert Drops(cfg, request.providers, ref);
        if ref in Refs(next) {
          var q := OwnerOf(next, endpointOk, ref);
          RefNamesOneProvider(ref, p.id, q.id);
          var item := DesiredOwner(cfg, request, q);
          assert false;
        }
      }
    } else {
      forall item | item in request.providers
        ensures !Replaces(cfg, item, ref)
      {
        FindFacts(cfg.providers, item.id);
      }
    }
  }

  predicate UniqueItems(items: seq<ProviderUpdate>) {
    forall i, j :: 0 <= i < j < |items| ==> items[i].id != items[j].id
  }

  lemma ItemsAreUnique(cfg: Config, items: seq<ProviderUpdate>)
    requires UniqueIDs(DesiredProviders(cfg, items))
    ensures UniqueItems(items)
  {
    forall i, j | 0 <= i < j < |items|
      ensures items[i].id != items[j].id
    {
      DesiredID(cfg, items, i);
      DesiredID(cfg, items, j);
    }
  }

  lemma DesiredID(cfg: Config, items: seq<ProviderUpdate>, i: nat)
    requires i < |items|
    ensures DesiredProviders(cfg, items)[i].id == items[i].id
  {
  }

  lemma ItemOf(items: seq<ProviderUpdate>, a: ProviderUpdate, b: ProviderUpdate)
    requires UniqueItems(items)
    requires a in items && b in items && a.id == b.id
    ensures a == b
  {
  }

  lemma KeptOrReplaced(
    cfg: Config, request: Request, endpointOk: string -> bool, ref: string, p: ProviderConfig, item: ProviderUpdate)
    requires ValidProviders(cfg.providers, endpointOk) && RefsNotNewer(cfg) && Accepted(cfg, request, endpointOk)
    requires p in cfg.providers && p.credentialRef == ref != "" && item in request.providers && item.id == p.id
    ensures !Drops(cfg, request.providers, ref)
    ensures (exists other :: other in request.providers && Replaces(cfg, other, ref)) <==> item.apiKey.Some?
    ensures ref in Refs(Candidate(cfg, request)) <==> item.apiKey.None?
  {
    FindFacts(cfg.providers, item.id);
    forall other | other in cfg.providers && other.credentialRef == ref
      ensures other == p
    {
      SameOwner(cfg, endpointOk, ref, p, other);
    }
    forall other | other in request.providers && Replaces(cfg, other, ref)
      ensures other == item
    {
      FindFacts(cfg.providers, other.id);
      ItemsAreUnique(cfg, request.providers);
      ItemOf(request.providers, other, item);
    }
    assert item.apiKey.Some? ==> Replaces(cfg, item, ref);
    KeptInCandidate(cfg, request, endpointOk, ref, p, item);
  }

  lemma SameOwner(cfg: Config, endpointOk: string -> bool, ref: string, p: ProviderConfig, q: ProviderConfig)
    requires ValidProviders(cfg.providers, endpointOk)
    requires p in cfg.providers && q in cfg.providers && p.credentialRef == q.credentialRef == ref != ""
    ensures p == q
  {
    assert ValidProvider(p, endpointOk) && ValidProvider(q, endpointOk);
    RefNamesOneProvider(ref, p.id, q.id);
    FindFacts(cfg.providers, p.id);
  }

  lemma KeptInCandidate(
    cfg: Config, request: Request, endpointOk: string -> bool, ref: string, p: ProviderConfig, item: ProviderUpdate)
    requires ValidProviders(cfg.providers, endpointOk) && RefsNotNewer(cfg) && Accepted(cfg, request, endpointOk)
    requires p in cfg.providers && p.credentialRef == ref != "" && item in request.providers && item.id == p.id
    ensures ref in Refs(Candidate(cfg, request)) <==> item.apiKey.None?
  {
    var next := Candidate(cfg, request);
    assert ValidProvider(p, endpointOk);
    FindFacts(cfg.providers, item.id);
    DesiredOf(cfg, request, endpointOk, item);
    if item.apiKey.Some? && ref in Refs(next) {
      var q := OwnerOf(next, endpointOk, ref);
      RefNamesOneProvider(ref, p.id, q.id);
      NewRefIsFresh(cfg, request, endpointOk, item);
    }
  }

  // ----- building the candidate

  // The credentials to write, a later item winning over an earlier one of the same id.
  function Staged(items: seq<ProviderUpdate>, revision: int): map<string, string> {
    if items == [] then map[]
    else
      var last := items[|items| - 1];
      var before := Staged(items[..|items| - 1], revision);
      if last.Key() != "" then before[CredentialRef(last.id, revision) := last.Key()] else before
  }

  function Replaced(cfg: Config, items: seq<ProviderUpdate>): set<string> {
    if items == [] then {}
    else
      var last, before := items[|items| - 1], Replaced(cfg, items[..|items| - 1]);
      var known := Find(cfg.providers, last.id);
      if last.apiKey.Some? && known.Some? && known.value.credentialRef != "" then before + {known.value.credentialRef} else before
  }

  lemma {:induction false} ReplacedFacts(cfg: Config, items: seq<ProviderUpdate>, ref: string)
    ensures ref in Replaced(cfg, items) <==> exists item :: item in items && Replaces(cfg, item, ref)
  {
    if items != [] {
      var init, last := items[..|items| - 1], items[|items| - 1];
      assert items == init + [last];
      ReplacedFacts(cfg, init, ref);
      if item :| item in items && Replaces(cfg, item, ref) {
        assert item in init || item == last;
      }
      if ref in Replaced(cfg, items) && ref !in Replaced(cfg, init) {
        assert last in items && Replaces(cfg, last, ref);
      }
    }
  }

  lemma {:induction false} StagedFacts(items: seq<ProviderUpdate>, revision: int)
    requires UniqueItems(items)
    ensures forall ref :: ref in Staged(items, revision) ==>
      exists item :: item in items && item.Key() != "" && ref == CredentialRef(item.id, revision)
    ensures forall item :: item in items && item.Key() != "" ==>
      && CredentialRef(item.id, revision) in Staged(items, revision)
      && Staged(items, revision)[CredentialRef(item.id, revision)] == item.Key()
  {
    if items != [] {
      var init, last := items[..|items| - 1], items[|items| - 1];
      assert items == init + [last];
      StagedFacts(init, revision);
      forall item | item in init
        ensures CredentialRef(item.id, revision) != CredentialRef(last.id, revision)
      {
        RefsDiffer(item.id, last.id, revision);
      }
    }
  }

  lemma RefsDiffer(a: string, b: string, revision: int)
    requires a != b
    ensures CredentialRef(a, revision) != CredentialRef(b, revision)
  {
    SuffixOfRef(a, revision);
    SuffixOfRef(b, revision);
  }

  lemma SuffixOfRef(id: string, revision: int)
    ensures var ref, n := CredentialRef(id, revision), |Decimal(revision)|;
      |"provider."| <= |ref| - n - 1 && ref[|"provider."|..|ref| - n - 1] == id
  {
  }

  ghost predicate IsIndex(existing: map<string, ProviderConfig>, providers: seq<ProviderConfig>) {
    forall id :: Find(providers, id) == if id in existing then Some(existing[id]) else None
  }

  method Index(providers: seq<ProviderConfig>) returns (existing: map<string, ProviderConfig>)
    ensures IsIndex(existing, providers)
  {
    existing := map[];
    for i := 0 to |providers|
      invariant IsIndex(existing, providers[..i])
    {
      assert providers[..i + 1][..i] == providers[..i];
      existing := existing[providers[i].id := providers[i]];
    }
    assert providers[..|providers|] == providers;
  }

  method HasID(providers: seq<ProviderConfig>, id: string) returns (found: bool)
    ensures found <==> exists p :: p in providers && p.id == id
  {
    for i := 0 to |providers|
      invariant forall j :: 0 <= j < i ==> providers[j].id != id
    {
      if providers[i].id == id {
        return true;
      }
    }
    found := false;
  }

  method CountEnabled(providers: seq<ProviderConfig>) returns (enabled: nat)
    ensures enabled > 0 <==> exists p :: p in providers && p.enabled
  {
    enabled := 0;
    for i := 0 to |providers|
      invariant enabled > 0 <==> exists j :: 0 <= j < i && providers[j].enabled
    {
      if providers[i].enabled {
        enabled := enabled + 1;
      }
    }
  }

  datatype Draft = Draft(providers: seq<ProviderConfig>, stale: seq<string>, staged: map<string, string>)

  ghost predicate Drafts(cfg: Config, items: seq<ProviderUpdate>, d: Draft) {
    && d.providers == DesiredProviders(cfg, items)
    && AsSet(d.stale) == Replaced(cfg, items)
    && d.staged == Staged(items, cfg.configRevision + 1)
    && NoEndpointConflict(cfg, items)
  }

  // What one item adds to the draft: its provider, and the reference that goes stale with it, if any.
  function StaleOf(known: Option<ProviderConfig>, item: ProviderUpdate): seq<string> {
    if item.apiKey.Some? && known.Some? && known.value.credentialRef != "" then [known.value.credentialRef] else []
  }

  function StagedWith(staged: map<string, string>, item: ProviderUpdate, revision: int): map<string, string> {
    if item.Key() != "" then staged[CredentialRef(item.id, revision) := item.Key()] else staged
  }

  lemma DesiredAppend(cfg: Config, items: seq<ProviderUpdate>, item: ProviderUpdate)
    ensures DesiredProviders(cfg, items + [item]) ==
      DesiredProviders(cfg, items) + [Desired(Find(cfg.providers, item.id), item, cfg.configRevision + 1)]
  {
  }

  lemma ReplacedAppend(cfg: Config, items: seq<ProviderUpdate>, stale: seq<string>, item: ProviderUpdate)
    requires AsSet(stale) == Replaced(cfg, items)
    ensures AsSet(stale + StaleOf(Find(cfg.providers, item.id), item)) == Replaced(cfg, items + [item])
  {
    assert (items + [item])[..|items|] == items;
    var more := StaleOf(Find(cfg.providers, item.id), item);
    assert forall ref :: ref in stale + more <==> ref in Replaced(cfg, items) || ref in more;
  }

  lemma StagedAppend(items: seq<ProviderUpdate>, item: ProviderUpdate, revision: int)
    ensures Staged(items + [item], revision) == StagedWith(Staged(items, revision), item, revision)
  {
    assert (items + [item])[..|items|] == items;
  }

  method DraftItem(known: Option<ProviderConfig>, item: ProviderUpdate, revision: int, staged: map<string, string>)
    returns (r: Result<Draft, UpdateError>)
    ensures r.Err? <==> EndpointConflict(known, item)
    ensures r.Err? ==> r.error == EndpointChanged
    ensures r.Ok? ==>
      r.value == Draft([Desired(known, item, revision)], StaleOf(known, item), StagedWith(staged, item, revision))
  {
    var provider := ProviderConfig(item.id, item.name, item.protocol, item.baseURL, item.enabled, "", None, []);
    var stale, written := [], staged;
    if known.Some? {
      provider := provider.(credentialRef := known.value.credentialRef, autoProbe := known.value.autoProbe,
                            excludedModelIDs := known.value.excludedModelIDs);
      if known.value.baseURL != item.baseURL && known.value.credentialRef != "" && item.apiKey.None? {
        return Err(EndpointChanged);
      }
    }
    if item.autoProbe.Some? {
      provider := provider.(autoProbe := item.autoProbe);
    } else if known.None? {
      provider := provider.(autoProbe := Some(true));
    }
    if item.excludedModelIDs.Some? {
      provider := provider.(excludedModelIDs := item.excludedModelIDs.value);
    }
    if item.apiKey.Some? {
      if provider.credentialRef != "" {
        stale := [provider.credentialRef];
      }
      provider := provider.(credentialRef := "");
      var value := TrimSpace(item.apiKey.value);
      if value != "" {
        provider := provider.(credentialRef := CredentialRef(item.id, revision));
        written := staged[provider.credentialRef := value];
      }
    }
    r := Ok(Draft([provider], stale, written));
  }

  method DraftProviders(cfg: Config, existing: map<string, ProviderConfig>, items: seq<ProviderUpdate>)
    returns (r: Result<Draft, UpdateError>)
    requires IsIndex(existing, cfg.providers)
    ensures r.Ok? <==> NoEndpointConflict(cfg, items)
    ensures r.Ok? ==> Drafts(cfg, items, r.value)
    ensures r.Err? ==> r.error == EndpointChanged
  {
    var d := Draft([], [], map[]);
    ghost var done: seq<ProviderUpdate> := [];
    for i := 0 to |items|
      invariant done == items[..i] && Drafts(cfg, done, d)
    {
      var more := DraftNext(cfg, existing, done, d, items[i]);
      if more.Err? {
        assert items[i] in items;
        return more;
      }
      done, d := done + [items[i]], more.value;
    }
    assert done == items;
    r := Ok(d);
  }

  method DraftNext(
      cfg: Config, existing: map<string, ProviderConfig>, ghost done: seq<ProviderUpdate>, d: Draft, item: ProviderUpdate)
    returns (r: Result<Draft, UpdateError>)
    requires IsIndex(existing, cfg.providers) && Drafts(cfg, done, d)
    ensures r.Ok? <==> !EndpointConflict(Find(cfg.providers, item.id), item)
    ensures r.Ok? ==> Drafts(cfg, done + [item], r.value)
    ensures r.Err? ==> r.error == EndpointChanged
  {
    var known := if item.id in existing then Some(existing[item.id]) else None;
    assert known == Find(cfg.providers, item.id);
    var one := DraftItem(known, item, cfg.configRevision + 1, d.staged);
    if one.Err? {
      return Err(one.error);
    }
    DraftGrows(cfg, done, d, item, one.value);
    r := Ok(Draft(d.providers + one.value.providers, d.stale + one.value.stale, one.value.staged));
  }

  lemma DraftGrows(cfg: Config, items: seq<ProviderUpdate>, d: Draft, item: ProviderUpdate, one: Draft)
    requires Drafts(cfg, items, d)
    requires var known := Find(cfg.providers, item.id); var revision := cfg.configRevision + 1;
      && !EndpointConflict(known, item)
      && one == Draft([Desired(known, item, revision)], StaleOf(known, item), StagedWith(d.staged, item, revision))
    ensures Drafts(cfg, items + [item], Draft(d.providers + one.providers, d.stale + one.stale, one.staged))
  {
    DesiredAppend(cfg, items, item);
    ReplacedAppend(cfg, items, d.stale, item);
    StagedAppend(items, item, cfg.configRevision + 1);
  }

  // Adds the references of removed providers, in any order.
  method AddRemoved(cfg: Config, existing: map<string, ProviderConfig>, items: seq<ProviderUpdate>, d: Draft)
    returns (stale: seq<string>)
    requires UniqueIDs(cfg.providers)
    requires IsIndex(existing, cfg.providers)
    requires d.providers == DesiredProviders(cfg, items)
    ensures forall ref :: ref in stale <==> ref in d.stale || Drops(cfg, items, ref)
  {
    stale := d.stale;
    var remaining := existing.Keys;
    while remaining != {}
      invariant remaining <= existing.Keys
      invariant forall ref :: ref in d.stale ==> ref in stale
      invariant forall ref :: ref in stale ==> ref in d.stale || Drops(cfg, items, ref)
      invariant forall id :: id in existing.Keys - remaining && Removed(existing[id], items) ==>
        existing[id].credentialRef in stale
      decreases remaining
    {
      var id :| id in remaining;
      remaining := remaining - {id};
      var found := HasID(d.providers, id);
      FindFacts(cfg.providers, id);
      DesiredIDs(cfg, items, id);
      if !found && existing[id].credentialRef != "" {
        assert Drops(cfg, items, existing[id].credentialRef);
        stale := stale + [existing[id].credentialRef];
      }
    }
    forall ref | Drops(cfg, items, ref)
      ensures ref in stale
    {
      var p :| p in cfg.providers && p.credentialRef == ref && forall item :: item in items ==> item.id != p.id;
      FindFacts(cfg.providers, p.id);
      assert Removed(existing[p.id], items);
    }
  }

  predicate Removed(p: ProviderConfig, items: seq<ProviderUpdate>) {
    p.credentialRef != "" && forall item :: item in items ==> item.id != p.id
  }

  lemma DesiredIDs(cfg: Config, items: seq<ProviderUpdate>, id: string)
    ensures (exists p :: p in DesiredProviders(cfg, items) && p.id == id) <==> exists item :: item in items && item.id == id
    ensures (exists p :: p in DesiredProviders(cfg, items) && p.enabled) <==> exists item :: item in items && item.enabled
  {
    var providers := DesiredProviders(cfg, items);
    forall i | 0 <= i < |items|
      ensures providers[i] in providers && items[i] in items
    {
    }
  }

  datatype Plan = Plan(candidate: Config, stale: seq<string>, staged: map<string, string>)

  method CheckCandidate(candidate: Config, endpointOk: string -> bool) returns (error: Option<UpdateError>)
    ensures error.None? <==> Acceptable(candidate, endpointOk)
    ensures error.Some? ==> error.value == if SomeEnabled(candidate) then Invalid else NoneEnabled
  {
    var enabled := CountEnabled(candidate.providers);
    if enabled == 0 {
      return Some(NoneEnabled);
    }
    var valid := ValidateProviders(candidate.providers, endpointOk);
    error := if ValidSettings(candidate) && valid then None else Some(Invalid);
  }

  // All checks come before the first write.
  method PlanUpdate(cfg: Config, request: Request, endpointOk: string -> bool) returns (r: Result<Plan, UpdateError>)
    requires ValidProviders(cfg.providers, endpointOk) && RefsNotNewer(cfg)
    ensures r.Ok? <==> Accepted(cfg, request, endpointOk)
    ensures r.Err? ==> Refusal(cfg, request, endpointOk) == Some(r.error)
    ensures r.Ok? ==>
      && r.value.candidate == Candidate(cfg, request)
      && AsSet(r.value.stale) == Refs(cfg) - Refs(Candidate(cfg, request))
      && r.value.staged == Staged(request.providers, cfg.configRevision + 1)
  {
    if request.revision != cfg.configRevision {
      return Err(RevisionConflict);
    }
    var existing := Index(cfg.providers);
    var drafted := DraftProviders(cfg, existing, request.providers);
    if drafted.Err? {
      return Err(drafted.error);
    }
    var d := drafted.value;
    var candidate := cfg.(bind := TrimSpace(request.bind), configRevision := cfg.configRevision + 1, providers := d.providers);
    var stale := AddRemoved(cfg, existing, request.providers, d);
    var error := CheckCandidate(candidate, endpointOk);
    if error.Some? {
      return Err(error.value);
    }
    StaleIsExact(cfg, request, endpointOk, d, stale);
    r := Ok(Plan(candidate, stale, d.staged));
  }

  lemma StaleIsExact(cfg: Config, request: Request, endpointOk: string -> bool, d: Draft, stale: seq<string>)
    requires ValidProviders(cfg.providers, endpointOk) && RefsNotNewer(cfg) && Accepted(cfg, request, endpointOk)
    requires Drafts(cfg, request.providers, d)
    requires forall ref :: ref in stale <==> ref in d.stale || Drops(cfg, request.providers, ref)
    ensures AsSet(stale) == Refs(cfg) - Refs(Candidate(cfg, request))
  {
    forall ref: string
      ensures ref in stale <==> ref in Refs(cfg) - Refs(Candidate(cfg, request))
    {
      assert ref in d.stale <==> ref in Replaced(cfg, request.providers);
      ReplacedFacts(cfg, request.providers, ref);
      StaleRefs(cfg, request, endpointOk, ref);
    }
  }

  // ----- the transaction

  ghost predicate AllPlain(refs: set<string>) {
    forall ref :: ref in refs ==> TrimSpace(ref) == ref
  }

  ghost predicate AllStorable(refs: set<string>) {
    forall ref :: ref in refs ==> IsStorable(ref)
  }

  // Stored at some time since v, and there unless a later loss of the file took it.
  predicate StoredSince(v: Vault, w: Vault, key: string, value: string) {
    w.Holds(key, value) || (w.losses > v.losses && w.FileValue(key).None?)
  }

  ghost predicate AllStored(v: Vault, w: Vault, staged: map<string, string>, refs: set<string>) {
    forall ref :: ref in refs ==> ref in staged && TrimSpace(staged[ref]) != "" && StoredSince(v, w, ref, TrimSpace(staged[ref]))
  }

  lemma StoredGrows(size: Size, v: Vault, u: Vault, w: Vault, staged: map<string, string>, refs: set<string>, ref: string)
    requires AllStored(v, u, staged, refs) && v.losses <= u.losses && Effect(size, u, w, {ref})
    requires ref in staged && TrimSpace(staged[ref]) != "" && w.Holds(ref, TrimSpace(staged[ref]))
    ensures AllStored(v, w, staged, refs + {ref})
  {
    forall other | other in refs && other != ref
      ensures StoredSince(v, w, other, TrimSpace(staged[other]))
    {
      assert Kept(u, w, other);
    }
  }

  lemma StoredStays(size: Size, v: Vault, u: Vault, w: Vault, staged: map<string, string>, keys: set<string>)
    requires AllStored(v, u, staged, staged.Keys) && v.losses <= u.losses && Effect(size, u, w, keys) && keys !! staged.Keys
    ensures AllStored(v, w, staged, staged.Keys)
  {
    forall ref | ref in staged
      ensures StoredSince(v, w, ref, TrimSpace(staged[ref]))
    {
      assert Kept(u, w, ref);
    }
  }

  // Secrets are kept in the backend alone.
  predicate OnlyBackend(v: Vault) {
    v.backend.Some? && v.file.Absent?
  }

  predicate CanStoreOne(hasFile: bool, v: Vault, key: string, value: string) {
    IsStorable(key) && IsStorable(value) && (v.backend.Some? || (hasFile && v.file.Writable()))
  }

  // Without faults these credentials can be stored. Into the file goes only one: its length is checked before the next.
  ghost predicate CanStore(hasFile: bool, v: Vault, staged: map<string, string>) {
    && (forall ref :: ref in staged ==> IsStorable(ref) && IsStorable(staged[ref]))
    && (v.backend.Some? || forall a, b :: a in staged && b in staged ==> a == b && hasFile && v.file.Writable())
  }

  // These credentials have been written.
  ghost predicate Staging(size: Size, v: Vault, w: Vault, staged: map<string, string>, done: set<string>) {
    && AllStored(v, w, staged, done) && Effect(size, v, w, done) && (done == {} ==> w == v)
    && (done != {} && v.backend.None? ==> IsEncoded(size, w.file))
  }

  lemma StagingGrows(size: Size, v: Vault, u: Vault, w: Vault, staged: map<string, string>, done: set<string>, ref: string)
    requires Staging(size, v, u, staged, done) && Effect(size, u, w, {ref})
    requires ref in staged && TrimSpace(staged[ref]) != "" && w.Holds(ref, TrimSpace(staged[ref]))
    requires u.backend.None? ==> IsEncoded(size, w.file)
    ensures Staging(size, v, w, staged, done + {ref})
  {
    EffectTwice(size, v, u, w, done, {ref});
    StoredGrows(size, v, u, w, staged, done, ref);
  }

  method StageOne(store: SecretStore, staged: map<string, string>, ref: string, ghost v: Vault, ghost done: set<string>)
    returns (ok: bool)
    requires store.Valid() && Staging(store.size, v, store.vault, staged, done) && ref in staged && TrimSpace(ref) == ref
    modifies store`vault, store`clock
    ensures store.Valid() && store.clock >= old(store.clock)
    ensures if ok then Staging(store.size, v, store.vault, staged, done + {ref}) else Effect(store.size, v, store.vault, done + {ref})
    ensures Faultless(store.script, old(store.clock)) ==>
      && store.vault.losses == old(store.vault).losses
      && (CanStoreOne(store.hasFile, old(store.vault), ref, staged[ref]) ==> ok)
      && (OnlyBackend(old(store.vault)) ==> OnlyBackend(store.vault))
  {
    ghost var before := store.vault;
    ok := store.Set(ref, staged[ref]);
    if ok {
      StagingGrows(store.size, v, before, store.vault, staged, done, ref);
    } else {
      EffectTwice(store.size, v, before, store.vault, done, {ref});
    }
  }

  // Writes the staged credentials in any order and stops at the first failure.
  method StageSecrets(store: SecretStore, staged: map<string, string>) returns (written: seq<string>, failed: Option<string>)
    requires store.Valid() && AllPlain(staged.Keys)
    modifies store`vault, store`clock
    ensures store.Valid()
    ensures AsSet(written) <= staged.Keys
    ensures failed.None? ==> AllStored(old(store.vault), store.vault, staged, staged.Keys) && AsSet(written) == staged.Keys
    ensures failed.None? && staged.Keys != {} && old(store.vault).backend.None? ==> IsEncoded(store.size, store.vault.file)
    ensures failed.Some? ==> failed.value in staged
    ensures Effect(store.size, old(store.vault), store.vault,
      AsSet(written) + if failed.Some? then {failed.value} else {})
    ensures store.clock >= old(store.clock)
    ensures Faultless(store.script, old(store.clock)) ==>
      && store.vault.losses == old(store.vault).losses
      && (CanStore(store.hasFile, old(store.vault), staged) ==> failed.None?)
      && (OnlyBackend(old(store.vault)) ==> OnlyBackend(store.vault))
  {
    written := [];
    failed := None;
    var remaining := staged.Keys;
    ghost var done := {};
    while remaining != {}
      invariant store.Valid() && remaining <= staged.Keys
      invariant done == AsSet(written) == staged.Keys - remaining
      invariant Staging(store.size, old(store.vault), store.vault, staged, done)
      invariant store.clock >= old(store.clock)
      invariant Faultless(store.script, old(store.clock)) ==>
        store.vault.losses == old(store.vault).losses && (OnlyBackend(old(store.vault)) ==> OnlyBackend(store.vault))
      decreases remaining
    {
      var ref :| ref in remaining;
      remaining := remaining - {ref};
      assert TrimSpace(ref) == ref;
      var ok := StageOne(store, staged, ref, old(store.vault), done);
      if !ok {
        failed := Some(ref);
        return;
      }
      assert forall other :: other in written + [ref] <==> other in written || other == ref;
      written, done := written + [ref], done + {ref};
    }
  }

  ghost predicate Cleaned(size: Size, v: Vault, w: Vault, refs: seq<string>, failed: bool) {
    && Effect(size, v, w, AsSet(refs))
    && forall ref :: ref in refs ==> Remains(v, w, ref) && (!failed ==> w.Gone(ref))
  }

  lemma CleanedGrows(size: Size, u: Vault, v: Vault, w: Vault, refs: seq<string>, failed: bool, ref: string, ok: bool)
    requires Cleaned(size, u, v, refs, failed)
    requires Effect(size, v, w, {ref}) && Remains(v, w, ref) && (ok ==> w.Gone(ref))
    ensures Cleaned(size, u, w, refs + [ref], failed || !ok)
  {
    EffectTwice(size, u, v, w, AsSet(refs), {ref});
    assert AsSet(refs + [ref]) == AsSet(refs) + {ref};
    forall other | other in refs + [ref]
      ensures Remains(u, w, other) && (!failed && ok ==> w.Gone(other))
    {
      assert other in refs || Kept(u, v, other);
      assert other == ref || Kept(v, w, other);
    }
  }

  // Removes every listed secret that it can.
  method CleanUp(store: SecretStore, refs: seq<string>) returns (failed: bool)
    requires store.Valid() && AllPlain(AsSet(refs))
    modifies store`vault, store`clock
    ensures store.Valid() && store.clock >= old(store.clock)
    ensures Cleaned(store.size, old(store.vault), store.vault, refs, failed)
    ensures Faultless(store.script, old(store.clock)) ==>
      store.vault.losses == old(store.vault).losses && (old(store.vault).file.Absent? && AllStorable(AsSet(refs)) ==> !failed)
  {
    failed := false;
    for i := 0 to |refs|
      invariant store.Valid() && store.clock >= old(store.clock)
      invariant Cleaned(store.size, old(store.vault), store.vault, refs[..i], failed)
      invariant Faultless(store.script, old(store.clock)) ==>
        && store.vault.losses == old(store.vault).losses
        && (old(store.vault).file.Absent? ==> store.vault.file.Absent? && (AllStorable(AsSet(refs)) ==> !failed))
    {
      ghost var before := store.vault;
      assert refs[i] in AsSet(refs);
      var ok := store.DeleteStrict(refs[i]);
      CleanedGrows(store.size, old(store.vault), before, store.vault, refs[..i], failed, refs[i], ok);
      assert refs[..i + 1] == refs[..i] + [refs[i]];
      if !ok {
        failed := true;
      }
    }
    assert refs[..|refs|] == refs;
  }

  ghost predicate InferenceKeyStored(v: Vault, w: Vault, key: Option<string>) {
    if key.None? then Kept(v, w, INFERENCE_TOKEN_KEY)
    else if TrimSpace(key.value) == "" then w.Gone(INFERENCE_TOKEN_KEY)
    else StoredSince(v, w, INFERENCE_TOKEN_KEY, TrimSpace(key.value))
  }

  // A key to store rather than to delete.
  predicate IsNewKey(key: Option<string>) {
    key.Some? && TrimSpace(key.value) != ""
  }

  method StoreInferenceKey(store: SecretStore, key: Option<string>) returns (ok: bool)
    requires store.Valid()
    modifies store`vault, store`clock
    ensures store.Valid()
    ensures Effect(store.size, old(store.vault), store.vault, {INFERENCE_TOKEN_KEY})
    ensures ok ==> InferenceKeyStored(old(store.vault), store.vault, key)
    ensures ok && IsNewKey(key) && old(store.vault).backend.None? ==> IsEncoded(store.size, store.vault.file)
    ensures key.None? ==> ok && store.vault == old(store.vault)
    ensures store.clock >= old(store.clock)
    ensures Faultless(store.script, old(store.clock)) ==> store.vault.losses == old(store.vault).losses
  {
    ok := true;
    assert TrimSpace(INFERENCE_TOKEN_KEY) == INFERENCE_TOKEN_KEY;
    if key.Some? {
      var value := TrimSpace(key.value);
      TrimmedHasNoOuterSpace(key.value);
      if value == "" {
        ok := store.DeleteStrict(INFERENCE_TOKEN_KEY);
      } else {
        ok := store.Set(INFERENCE_TOKEN_KEY, value);
      }
    }
  }

  // A generated token replaces the requested key, and an empty token (no randomness) deletes the stored one.
  function InferenceKey(request: Request, newToken: string): Option<string> {
    if request.generateInferenceKey then Some(newToken) else request.inferenceKey
  }

  // ----- outcomes, on the references the config has, those to be written, and those it will have

  // A success stores what is new, keeps what is kept, and removes what is dropped unless a cleanup is pending. A loss
  // of the file takes what the file held by then.
  ghost predicate Committed(
    size: Size, refs: set<string>, staged: map<string, string>, next: set<string>, key: Option<string>, pending: bool,
    v: Vault, w: Vault)
  {
    && AllStored(v, w, staged, staged.Keys)
    && InferenceKeyStored(v, w, key)
    && (forall ref :: ref in refs - next ==> Remains(v, w, ref) && (!pending ==> w.Gone(ref)))
    && (v.backend.None? && (staged.Keys != {} || IsNewKey(key)) ==> IsEncoded(size, w.file))
    && Effect(size, v, w, staged.Keys + (if key.Some? then {INFERENCE_TOKEN_KEY} else {}) + (refs - next))
  }

  // A failure leaves every secret in use alone but for a loss of the file and, unless a cleanup failed, no new one but
  // perhaps the write that failed.
  ghost predicate RolledBack(size: Size, issued: set<string>, error: UpdateError, v: Vault, w: Vault) {
    match error
    case CredentialWrite(cleanupFailed) =>
      Effect(size, v, w, issued) && exists lost :: lost in issued && (!cleanupFailed ==> Undone(issued - {lost}, v, w))
    case SaveFailed(cleanupFailed) => Effect(size, v, w, issued) && (!cleanupFailed ==> Undone(issued, v, w))
    case InferenceWrite(cleanupFailed) =>
      Effect(size, v, w, issued + {INFERENCE_TOKEN_KEY}) && (!cleanupFailed ==> Undone(issued, v, w))
    case _ => w == v
  }

  ghost predicate Undone(refs: set<string>, v: Vault, w: Vault) {
    forall ref :: ref in refs ==> w.Gone(ref) || Kept(v, w, ref)
  }

  // Cleaning up after a failure undoes every write but the one that failed.
  lemma CleanUpUndoes(size: Size, issued: set<string>, written: set<string>, lost: set<string>, v: Vault, w: Vault, x: Vault)
    requires written <= issued
    requires Effect(size, v, w, written + lost) && Effect(size, w, x, written)
    ensures Effect(size, v, x, issued + lost)
    ensures (forall ref :: ref in written ==> x.Gone(ref)) ==> Undone(issued - lost, v, x)
  {
    EffectTwice(size, v, w, x, written + lost, written);
  }

  lemma CommitHolds(
    size: Size, refs: set<string>, staged: map<string, string>, next: set<string>, key: Option<string>, pending: bool,
    v: Vault, written: Vault, keyed: Vault, w: Vault)
    requires staged.Keys !! refs && INFERENCE_TOKEN_KEY !in refs && INFERENCE_TOKEN_KEY !in staged
    requires Effect(size, v, written, staged.Keys) && AllStored(v, written, staged, staged.Keys)
    requires Effect(size, written, keyed, {INFERENCE_TOKEN_KEY}) && InferenceKeyStored(written, keyed, key)
    requires key.None? ==> keyed == written
    requires v.backend.None? && staged.Keys != {} ==> IsEncoded(size, written.file)
    requires v.backend.None? && IsNewKey(key) ==> IsEncoded(size, keyed.file)
    requires Effect(size, keyed, w, refs - next)
    requires forall ref :: ref in refs - next ==> Remains(keyed, w, ref) && (!pending ==> w.Gone(ref))
    ensures Committed(size, refs, staged, next, key, pending, v, w)
  {
    EffectTwice(size, written, keyed, w, {INFERENCE_TOKEN_KEY}, refs - next);
    StoredStays(size, v, written, w, staged, {INFERENCE_TOKEN_KEY} + (refs - next));
    assert Kept(keyed, w, INFERENCE_TOKEN_KEY) && Kept(v, written, INFERENCE_TOKEN_KEY);
    forall ref | ref in refs - next
      ensures Remains(v, w, ref)
    {
      assert Kept(v, written, ref) && Kept(written, keyed, ref);
    }
    if key.Some? {
      EffectTwice(size, v, written, w, staged.Keys, {INFERENCE_TOKEN_KEY} + (refs - next));
      assert staged.Keys + ({INFERENCE_TOKEN_KEY} + (refs - next)) == staged.Keys + {INFERENCE_TOKEN_KEY} + (refs - next);
    } else {
      EffectTwice(size, v, written, w, staged.Keys, refs - next);
      assert staged.Keys + {} + (refs - next) == staged.Keys + (refs - next);
    }
  }

  // ----- the transaction itself

  // The in-memory configuration that the process shares.
  class ConfigCell {
    var config: Config

    constructor (config: Config)
      ensures this.config == config
    {
      this.config := config;
    }
  }

  // Cleans up after a failure since v.
  method RollBack(store: SecretStore, written: seq<string>, ghost v: Vault, ghost issued: set<string>, ghost lost: set<string>)
    returns (failed: bool)
    requires store.Valid() && AllPlain(AsSet(written)) && AsSet(written) <= issued
    requires Effect(store.size, v, store.vault, AsSet(written) + lost)
    modifies store`vault, store`clock
    ensures store.Valid() && Effect(store.size, v, store.vault, issued + lost)
    ensures !failed ==> Undone(issued - lost, v, store.vault)
    ensures store.clock >= old(store.clock)
    ensures Faultless(store.script, old(store.clock)) ==>
      && store.vault.losses == old(store.vault).losses
      && (old(store.vault).file.Absent? && AllStorable(AsSet(written)) ==> !failed)
  {
    ghost var w := store.vault;
    failed := CleanUp(store, written);
    CleanUpUndoes(store.size, issued, AsSet(written), lost, v, w, store.vault);
  }

  // Stages the credentials and saves the config, or rolls back.
  method StageAndSave(store: SecretStore, staged: map<string, string>, hasSource: bool)
    returns (written: seq<string>, error: Option<UpdateError>)
    requires store.Valid() && AllPlain(staged.Keys)
    modifies store`vault, store`clock
    ensures store.Valid() && store.clock >= old(store.clock)
    ensures error.None? ==>
      && AsSet(written) == staged.Keys && Effect(store.size, old(store.vault), store.vault, staged.Keys)
      && AllStored(old(store.vault), store.vault, staged, staged.Keys)
      && (old(store.vault).backend.None? && staged.Keys != {} ==> IsEncoded(store.size, store.vault.file))
    ensures error.Some? ==> error.value.CredentialWrite? || error.value.SaveFailed?
    ensures error.Some? ==> RolledBack(store.size, staged.Keys, error.value, old(store.vault), store.vault)
    ensures Faultless(store.script, old(store.clock)) ==>
      && store.vault.losses == old(store.vault).losses
      && (CanStore(store.hasFile, old(store.vault), staged) ==> error.None?)
      && (OnlyBackend(old(store.vault)) && error.None? ==> OnlyBackend(store.vault))
      && (OnlyBackend(old(store.vault)) && AllStorable(staged.Keys) && error.Some? ==> error == Some(CredentialWrite(false)))
  {
    ghost var v, issued := store.vault, staged.Keys;
    var failed;
    written, failed := StageSecrets(store, staged);
    if failed.Some? {
      var cleanupFailed := RollBack(store, written, v, issued, {failed.value});
      assert issued + {failed.value} == issued;
      return written, Some(CredentialWrite(cleanupFailed));
    }
    error := None;
    if hasSource {
      var save := store.Fate();
      if !save.works {
        var cleanupFailed := RollBack(store, written, v, issued, {});
        assert issued + {} == issued - {} == issued;
        return written, Some(SaveFailed(cleanupFailed));
      }
    }
  }

  // The transaction of a plan whose new references are apart from those in use, `refs`.
  method Execute(cell: ConfigCell, store: SecretStore, plan: Plan, key: Option<string>, ghost refs: set<string>)
    returns (r: Result<bool, UpdateError>)
    requires store.Valid() && AllPlain(plan.staged.Keys) && AllPlain(refs)
    requires plan.staged.Keys !! refs && INFERENCE_TOKEN_KEY !in refs && INFERENCE_TOKEN_KEY !in plan.staged
    requires AsSet(plan.stale) == refs - Refs(plan.candidate)
    modifies cell, store`vault, store`clock
    ensures store.Valid() && store.clock >= old(store.clock)
    ensures cell.config == if r.Ok? then plan.candidate else old(cell.config)
    ensures r.Ok? ==>
      Committed(store.size, refs, plan.staged, Refs(plan.candidate), key, r.value, old(store.vault), store.vault)
    ensures r.Err? ==> r.error.IsWriteError() && RolledBack(store.size, plan.staged.Keys, r.error, old(store.vault), store.vault)
    ensures Faultless(store.script, old(store.clock)) ==>
      && store.vault.losses == old(store.vault).losses
      && (key.None? && CanStore(store.hasFile, old(store.vault), plan.staged) ==> r.Ok?)
      && (key.None? && OnlyBackend(old(store.vault)) && AllStorable(plan.staged.Keys + refs) ==>
            r == Ok(false) || r == Err(CredentialWrite(false)))
  {
    ghost var v, issued, size := store.vault, plan.staged.Keys, store.size;
    var written, error := StageAndSave(store, plan.staged, plan.candidate.sourcePath != "");
    if error.Some? {
      return Err(error.value);
    }
    ghost var staged := store.vault;
    var stored := StoreInferenceKey(store, key);
    ghost var keyed := store.vault;
    if !stored {
      if plan.candidate.sourcePath != "" {
        var _ := store.Fate();
      }
      EffectTwice(size, v, staged, keyed, issued, {INFERENCE_TOKEN_KEY});
      var cleanupFailed := RollBack(store, written, v, issued, {INFERENCE_TOKEN_KEY});
      assert issued - {INFERENCE_TOKEN_KEY} == issued;
      return Err(InferenceWrite(cleanupFailed));
    }
    cell.config := plan.candidate;
    var pending := CleanUp(store, plan.stale);
    CommitHolds(size, refs, plan.staged, Refs(plan.candidate), key, pending, v, staged, keyed, store.vault);
    r := Ok(pending);
  }

  ghost predicate Outcome(
    size: Size, cfg: Config, v: Vault, request: Request, newToken: string, r: Result<Response, UpdateError>,
    next: Config, w: Vault)
  {
    if r.Ok? then
      && next == Candidate(cfg, request) && r.value.generatedKey == (if request.generateInferenceKey then newToken else "")
      && Committed(size, Refs(cfg), Staged(request.providers, cfg.configRevision + 1), Refs(next),
                   InferenceKey(request, newToken), r.value.cleanupPending, v, w)
    else next == cfg && RolledBack(size, NewRefs(cfg, request), r.error, v, w)
  }

  lemma StagedAreNew(cfg: Config, request: Request, endpointOk: string -> bool)
    requires ValidProviders(cfg.providers, endpointOk) && RefsNotNewer(cfg) && Accepted(cfg, request, endpointOk)
    ensures Staged(request.providers, cfg.configRevision + 1).Keys == NewRefs(cfg, request)
  {
    ItemsAreUnique(cfg, request.providers);
    StagedFacts(request.providers, cfg.configRevision + 1);
  }

  lemma NewRefsAreApart(cfg: Config, request: Request, endpointOk: string -> bool)
    requires ValidProviders(cfg.providers, endpointOk) && RefsNotNewer(cfg) && Accepted(cfg, request, endpointOk)
    ensures NewRefs(cfg, request) !! Refs(cfg)
    ensures AllPlain(NewRefs(cfg, request)) && AllPlain(Refs(cfg))
    ensures INFERENCE_TOKEN_KEY !in Refs(cfg) && INFERENCE_TOKEN_KEY !in NewRefs(cfg, request)
    ensures AllStorable(NewRefs(cfg, request) + Refs(cfg))
  {
    CandidateRefs(cfg, request, endpointOk);
    forall ref | ref in Refs(cfg) + NewRefs(cfg, request)
      ensures TrimSpace(ref) == ref && ref != INFERENCE_TOKEN_KEY && IsStorable(ref)
    {
      RefsArePlain(cfg, request, endpointOk, ref);
    }
  }

  datatype State = State(config: Config, vault: Vault)

  // `newToken` is what the random source yields for this call.
  datatype Call = Call(request: Request, newToken: string)

  // `endpointOk` stands for the URL rules, and `size` for the JSON encoding of the secret file.
  datatype Env = Env(endpointOk: string -> bool, size: Size)

  // All checks come before the first write, and an accepted request fails only on a write.
  ghost predicate Step(env: Env, s: State, c: Call, t: State, r: Result<Response, UpdateError>) {
    && Outcome(env.size, s.config, s.vault, c.request, c.newToken, r, t.config, t.vault)
    && (r.Ok? || t.vault != s.vault ==> Accepted(s.config, c.request, env.endpointOk))
    && Answers(s.config, c.request, env.endpointOk, r)
  }

  predicate Answers(cfg: Config, request: Request, endpointOk: string -> bool, r: Result<Response, UpdateError>) {
    if Accepted(cfg, request, endpointOk) then r.Ok? || r.error.IsWriteError()
    else r.Err? && Refusal(cfg, request, endpointOk) == Some(r.error)
  }

  // A plan whose new references are apart from those in use.
  ghost predicate Prepared(cfg: Config, request: Request, plan: Plan) {
    && plan.candidate == Candidate(cfg, request)
    && plan.staged == Staged(request.providers, cfg.configRevision + 1) && plan.staged.Keys == NewRefs(cfg, request)
    && AsSet(plan.stale) == Refs(cfg) - Refs(plan.candidate)
    && NewRefs(cfg, request) !! Refs(cfg)
    && AllPlain(NewRefs(cfg, request)) && AllPlain(Refs(cfg))
    && INFERENCE_TOKEN_KEY !in Refs(cfg) && INFERENCE_TOKEN_KEY !in NewRefs(cfg, request)
    && AllStorable(NewRefs(cfg, request) + Refs(cfg))
  }

  method Prepare(cfg: Config, request: Request, endpointOk: string -> bool) returns (r: Result<Plan, UpdateError>)
    requires ValidProviders(cfg.providers, endpointOk) && RefsNotNewer(cfg)
    ensures r.Ok? <==> Accepted(cfg, request, endpointOk)
    ensures r.Err? ==> Refusal(cfg, request, endpointOk) == Some(r.error)
    ensures r.Ok? ==> Prepared(cfg, request, r.value)
  {
    r := PlanUpdate(cfg, request, endpointOk);
    if r.Ok? {
      StagedAreNew(cfg, request, endpointOk);
      NewRefsAreApart(cfg, request, endpointOk);
    }
  }

  // Without faults an accepted call loses nothing. It succeeds if its keys can be stored, and with a backend alone leaves no
  // cleanup to be done.
  ghost predicate Faultlessly(
    store: SecretStore, cfg: Config, v: Vault, c: Call, r: Result<Response, UpdateError>, w: Vault)
  {
    && w.losses == v.losses
    && (InferenceKey(c.request, c.newToken).None? ==>
          && (CanStore(store.hasFile, v, Staged(c.request.providers, cfg.configRevision + 1)) ==> r.Ok?)
          && (OnlyBackend(v) ==> if r.Ok? then !r.value.cleanupPending else r.error == CredentialWrite(false)))
  }

  method CarryOut(cell: ConfigCell, store: SecretStore, c: Call, plan: Plan) returns (r: Result<Response, UpdateError>)
    requires store.Valid()
    requires Prepared(cell.config, c.request, plan)
    modifies cell, store`vault, store`clock
    ensures store.Valid() && (r.Ok? || r.error.IsWriteError()) && store.clock >= old(store.clock)
    ensures Outcome(store.size, old(cell.config), old(store.vault), c.request, c.newToken, r, cell.config, store.vault)
    ensures Faultless(store.script, old(store.clock)) ==>
      Faultlessly(store, old(cell.config), old(store.vault), c, r, store.vault)
  {
    var key := InferenceKey(c.request, c.newToken);
    var executed := Execute(cell, store, plan, key, Refs(cell.config));
    r := if executed.Err? then Err(executed.error)
         else Ok(Response(executed.value, if c.request.generateInferenceKey then c.newToken else ""));
  }

  method UpdateConfig(cell: ConfigCell, store: SecretStore, c: Call, endpointOk: string -> bool)
    returns (r: Result<Response, UpdateError>)
    requires store.Valid() && ValidProviders(cell.config.providers, endpointOk) && RefsNotNewer(cell.config)
    modifies cell, store`vault, store`clock
    ensures store.Valid() && store.clock >= old(store.clock)
    ensures Step(Env(endpointOk, store.size), State(old(cell.config), old(store.vault)), c, State(cell.config, store.vault), r)
    ensures Faultless(store.script, old(store.clock)) ==>
      if Accepted(old(cell.config), c.request, endpointOk) then
        Faultlessly(store, old(cell.config), old(store.vault), c, r, store.vault)
      else store.vault == old(store.vault)
  {
    var planned := Prepare(cell.config, c.request, endpointOk);
    if planned.Err? {
      return Err(planned.error);
    }
    r := CarryOut(cell, store, c, planned.value);
  }

  // ----- what every call keeps

  ghost predicate IsSound(env: Env, s: State) {
    Sound(s.config, s.vault, env.endpointOk)
  }

  // The references whose secret only the file has, if anything does.
  function Reliant(refs: set<string>, v: Vault): set<string> {
    set ref | ref in refs && v.ReliesOnFile(ref)
  }

  lemma SurviveExactly(size: Size, v: Vault, w: Vault, keys: set<string>, refs: set<string>)
    requires Effect(size, v, w, keys) && keys !! refs
    ensures (forall ref :: ref in refs ==> SameAt(v, w, ref)) <==>
      w.losses == v.losses || forall ref :: ref in refs ==> v.FileValue(ref).None?
  {
    forall ref | ref in refs
      ensures SameAt(v, w, ref) <==> w.losses == v.losses || v.FileValue(ref).None?
    {
      assert Kept(v, w, ref);
      KeptExactly(v, w, ref);
    }
  }

  lemma FoundExactly(size: Size, v: Vault, w: Vault, keys: set<string>, refs: set<string>)
    requires Effect(size, v, w, keys) && keys !! refs
    requires forall ref :: ref in refs ==> v.Get(ref).Some?
    ensures (forall ref :: ref in refs ==> w.Get(ref).Some?) <==>
      Reliant(refs, w) == {} || (w.losses == v.losses && w.file.Readable())
  {
    forall ref | ref in refs
      ensures w.Get(ref).Some? <==> !w.ReliesOnFile(ref) || (w.losses == v.losses && w.file.Readable())
    {
      assert Kept(v, w, ref);
    }
    assert forall ref :: ref in Reliant(refs, w) <==> ref in refs && w.ReliesOnFile(ref);
  }

  // A failed call keeps the config. It changes a secret that the config names exactly when the file holds one and some
  // replacement of the file has ended with the file set aside.
  lemma FailureKeepsSecretsExactly(env: Env, s: State, c: Call, t: State, r: Result<Response, UpdateError>)
    requires ValidProviders(s.config.providers, env.endpointOk) && RefsNotNewer(s.config)
    requires Step(env, s, c, t, r) && r.Err?
    ensures t.config == s.config
    ensures (forall ref :: ref in Refs(s.config) ==> SameAt(s.vault, t.vault, ref)) <==>
      t.vault.losses == s.vault.losses || forall ref :: ref in Refs(s.config) ==> s.vault.FileValue(ref).None?
  {
    if t.vault != s.vault {
      NewRefsAreApart(s.config, c.request, env.endpointOk);
      SurviveExactly(env.size, s.vault, t.vault, NewRefs(s.config, c.request) + {INFERENCE_TOKEN_KEY}, Refs(s.config));
    }
  }

  // After a failed call every reference names a readable secret exactly when none relies on the file, or the file was
  // not lost and is still within its limit.
  lemma FailureIsSoundExactly(env: Env, s: State, c: Call, t: State, r: Result<Response, UpdateError>)
    requires IsSound(env, s) && Step(env, s, c, t, r) && r.Err?
    ensures IsSound(env, t) <==>
      Reliant(Refs(t.config), t.vault) == {} || (t.vault.losses == s.vault.losses && t.vault.file.Readable())
  {
    if t.vault != s.vault {
      NewRefsAreApart(s.config, c.request, env.endpointOk);
      FoundExactly(env.size, s.vault, t.vault, NewRefs(s.config, c.request) + {INFERENCE_TOKEN_KEY}, Refs(s.config));
    } else {
      FoundExactly(env.size, s.vault, t.vault, {}, Refs(s.config));
    }
  }

  lemma CommittedIsFoundExactly(
    size: Size, refs: set<string>, staged: map<string, string>, next: set<string>, key: Option<string>, pending: bool,
    v: Vault, w: Vault)
    requires Committed(size, refs, staged, next, key, pending, v, w) && next - refs == staged.Keys
    requires INFERENCE_TOKEN_KEY !in refs && staged.Keys !! refs
    requires forall ref :: ref in refs ==> v.Get(ref).Some?
    ensures (forall ref :: ref in next ==> w.Get(ref).Some?) <==>
      || Reliant(next, w) == {}
      || (w.file.Readable() && (w.losses == v.losses || Reliant(next, w) <= staged.Keys * w.file.Contents().Keys))
  {
    forall ref | ref in staged
      ensures w.ReliesOnFile(ref) ==> w.FileValue(ref) == Some(TrimSpace(staged[ref])) || (w.losses > v.losses && w.FileValue(ref).None?)
      ensures Usable(Some(TrimSpace(staged[ref]))).Some?
    {
      TrimmedHasNoOuterSpace(staged[ref]);
    }
    forall ref | ref in refs * next
      ensures w.ReliesOnFile(ref) ==> (w.Get(ref).Some? <==> w.losses == v.losses && w.file.Readable())
    {
      assert Kept(v, w, ref);
    }
    assert forall ref :: ref in Reliant(next, w) <==> ref in next && w.ReliesOnFile(ref);
  }

  // A success raises the revision by one and adds exactly the new references. It changes a kept secret exactly when
  // the file holds one and some replacement of the file has ended with the file set aside.
  lemma SuccessKeepsSecretsExactly(env: Env, s: State, c: Call, t: State, r: Result<Response, UpdateError>)
    requires ValidProviders(s.config.providers, env.endpointOk) && RefsNotNewer(s.config)
    requires Step(env, s, c, t, r) && r.Ok?
    ensures ValidProviders(t.config.providers, env.endpointOk) && RefsNotNewer(t.config)
    ensures t.config.configRevision == s.config.configRevision + 1
    ensures Refs(t.config) - Refs(s.config) == NewRefs(s.config, c.request)
    ensures var kept := Refs(s.config) * Refs(t.config);
      (forall ref :: ref in kept ==> SameAt(s.vault, t.vault, ref)) <==>
        t.vault.losses == s.vault.losses || forall ref :: ref in kept ==> s.vault.FileValue(ref).None?
  {
    CandidateIsNotNewer(s.config, c.request, env.endpointOk);
    CandidateRefs(s.config, c.request, env.endpointOk);
    StagedAreNew(s.config, c.request, env.endpointOk);
    NewRefsAreApart(s.config, c.request, env.endpointOk);
    var key := InferenceKey(c.request, c.newToken);
    SurviveExactly(env.size, s.vault, t.vault,
      NewRefs(s.config, c.request) + (if key.Some? then {INFERENCE_TOKEN_KEY} else {}) + (Refs(s.config) - Refs(t.config)),
      Refs(s.config) * Refs(t.config));
  }

  // What a call must not do: lose the file, but for credentials stored since, or leave it over its limit, while a
  // reference relies on it.
  predicate Secures(s: State, c: Call, t: State) {
    var reliant := Reliant(Refs(t.config), t.vault);
    || reliant == {}
    || (t.vault.file.Readable() &&
        (t.vault.losses == s.vault.losses || reliant <= NewRefs(s.config, c.request) * t.vault.file.Contents().Keys))
  }

  lemma SuccessFacts(env: Env, s: State, c: Call, t: State, r: Result<Response, UpdateError>)
    requires ValidProviders(s.config.providers, env.endpointOk) && RefsNotNewer(s.config)
    requires Step(env, s, c, t, r) && r.Ok?
    ensures var staged, key := Staged(c.request.providers, s.config.configRevision + 1), InferenceKey(c.request, c.newToken);
      && Committed(env.size, Refs(s.config), staged, Refs(t.config), key, r.value.cleanupPending, s.vault, t.vault)
      && staged.Keys == NewRefs(s.config, c.request) == Refs(t.config) - Refs(s.config)
    ensures INFERENCE_TOKEN_KEY !in Refs(s.config) && t.config == Candidate(s.config, c.request)
    ensures ValidProviders(t.config.providers, env.endpointOk) && RefsNotNewer(t.config)
  {
    SuccessIsCommitted(env, s, c, t, r);
    CandidateFacts(s.config, c.request, env.endpointOk);
  }

  lemma SuccessIsCommitted(env: Env, s: State, c: Call, t: State, r: Result<Response, UpdateError>)
    requires Step(env, s, c, t, r) && r.Ok?
    ensures t.config == Candidate(s.config, c.request) && Accepted(s.config, c.request, env.endpointOk)
    ensures var staged, key := Staged(c.request.providers, s.config.configRevision + 1), InferenceKey(c.request, c.newToken);
      Committed(env.size, Refs(s.config), staged, Refs(t.config), key, r.value.cleanupPending, s.vault, t.vault)
  {
  }

  lemma CandidateFacts(cfg: Config, request: Request, endpointOk: string -> bool)
    requires ValidProviders(cfg.providers, endpointOk) && RefsNotNewer(cfg) && Accepted(cfg, request, endpointOk)
    ensures var next := Candidate(cfg, request);
      && Staged(request.providers, cfg.configRevision + 1).Keys == NewRefs(cfg, request) == Refs(next) - Refs(cfg)
      && ValidProviders(next.providers, endpointOk) && RefsNotNewer(next)
    ensures INFERENCE_TOKEN_KEY !in Refs(cfg)
  {
    CandidateIsNotNewer(cfg, request, endpointOk);
    CandidateRefs(cfg, request, endpointOk);
    StagedAreNew(cfg, request, endpointOk);
    NewRefsAreApart(cfg, request, endpointOk);
  }

  lemma SuccessIsSoundExactly(env: Env, s: State, c: Call, t: State, r: Result<Response, UpdateError>)
    requires IsSound(env, s) && Step(env, s, c, t, r) && r.Ok?
    ensures IsSound(env, t) <==> Secures(s, c, t)
  {
    SuccessFacts(env, s, c, t, r);
    CommittedIsFoundExactly(env.size, Refs(s.config), Staged(c.request.providers, t.config.configRevision), Refs(t.config),
      InferenceKey(c.request, c.newToken), r.value.cleanupPending, s.vault, t.vault);
  }

  // Every reference names a readable secret after a call exactly when the call was secure in this sense.
  lemma StepIsSoundExactly(env: Env, s: State, c: Call, t: State, r: Result<Response, UpdateError>)
    requires IsSound(env, s) && Step(env, s, c, t, r)
    ensures IsSound(env, t) <==> Secures(s, c, t)
  {
    if r.Ok? {
      SuccessIsSoundExactly(env, s, c, t, r);
    } else {
      FailureIsSoundExactly(env, s, c, t, r);
      if t.vault.losses != s.vault.losses {
        NewRefsAreApart(s.config, c.request, env.endpointOk);
        assert Reliant(Refs(t.config), t.vault) <= Refs(s.config);
      }
    }
  }

  // The new key of a re-keyed provider is stored under the reference that the new config carries, unless a loss of the
  // file took it since. Without a loss it is readable there exactly when the backend has it or the file is within its limit.
  lemma NewKeysAreStored(
    env: Env, s: State, c: Call, t: State, r: Result<Response, UpdateError>, item: ProviderUpdate)
    requires ValidProviders(s.config.providers, env.endpointOk) && RefsNotNewer(s.config)
    requires Step(env, s, c, t, r) && r.Ok?
    requires item in c.request.providers && item.Key() != ""
    ensures Find(t.config.providers, item.id).Some?
    ensures var ref := Find(t.config.providers, item.id).value.credentialRef;
      && StoredSince(s.vault, t.vault, ref, item.Key())
      && (t.vault.losses == s.vault.losses ==> ReadableExactly(t.vault, ref, item.Key()))
  {
    var ref := CredentialRef(item.id, s.config.configRevision + 1);
    assert StoredSince(s.vault, t.vault, ref, item.Key()) && TrimSpace(item.Key()) == item.Key() by {
      SuccessFacts(env, s, c, t, r);
      StagedKey(s.config, c.request, env.endpointOk, item);
    }
    StoredIsReadable(s.vault, t.vault, ref, item.Key());
    CarriesNewRef(s.config, c.request, env.endpointOk, item);
  }

  lemma CarriesNewRef(cfg: Config, request: Request, endpointOk: string -> bool, item: ProviderUpdate)
    requires Accepted(cfg, request, endpointOk) && item in request.providers && item.Key() != ""
    ensures var p := Find(Candidate(cfg, request).providers, item.id);
      p.Some? && p.value.credentialRef == CredentialRef(item.id, cfg.configRevision + 1)
  {
    DesiredOf(cfg, request, endpointOk, item);
  }

  predicate ReadableExactly(v: Vault, ref: string, value: string) {
    && v.Holds(ref, value)
    && (v.Get(ref) == Some(value) <==>
          Usable(v.BackendValue(ref)) == Some(value) || (v.ReliesOnFile(ref) && v.file.Readable()))
  }

  lemma StoredIsReadable(v: Vault, w: Vault, ref: string, value: string)
    requires StoredSince(v, w, ref, value) && TrimSpace(value) == value != ""
    ensures w.losses == v.losses ==> ReadableExactly(w, ref, value)
  {
  }

  lemma StagedKey(cfg: Config, request: Request, endpointOk: string -> bool, item: ProviderUpdate)
    requires Accepted(cfg, request, endpointOk) && item in request.providers && item.Key() != ""
    ensures var staged, ref := Staged(request.providers, cfg.configRevision + 1), CredentialRef(item.id, cfg.configRevision + 1);
      ref in staged && staged[ref] == item.Key() && TrimSpace(staged[ref]) == staged[ref]
  {
    ItemsAreUnique(cfg, request.providers);
    StagedFacts(request.providers, cfg.configRevision + 1);
    TrimmedHasNoOuterSpace(item.apiKey.value);
  }

  // ----- what the request asked for

  // A call is refused for an endpoint exactly when it moves a provider with a stored credential and says nothing about the
  // key. Supplying or clearing the key is always let through.
  lemma EndpointIsRefusedExactly(env: Env, s: State, c: Call, t: State, r: Result<Response, UpdateError>)
    requires ValidProviders(s.config.providers, env.endpointOk) && Step(env, s, c, t, r)
    ensures r == Err(EndpointChanged) <==>
      && c.request.revision == s.config.configRevision
      && exists p, item :: p in s.config.providers && item in c.request.providers && p.id == item.id
           && p.baseURL != item.baseURL && p.credentialRef != "" && item.apiKey.None?
  {
    forall item | item in c.request.providers
      ensures EndpointConflict(Find(s.config.providers, item.id), item) <==>
        exists p :: p in s.config.providers && p.id == item.id
          && p.baseURL != item.baseURL && p.credentialRef != "" && item.apiKey.None?
    {
      FindFacts(s.config.providers, item.id);
    }
  }

  // What is accepted, by the fields of the request: besides the revision and the endpoints, names and URLs that are valid,
  // ids that are distinct, a provider that is enabled, and settings that were valid before but for the bind address.
  lemma AcceptedExactly(cfg: Config, request: Request, endpointOk: string -> bool)
    requires ValidProviders(cfg.providers, endpointOk)
    ensures Accepted(cfg, request, endpointOk) <==>
      && request.revision == cfg.configRevision
      && (forall p, item :: p in cfg.providers && item in request.providers && p.id == item.id && item.apiKey.None? ==>
            p.credentialRef == "" || p.baseURL == item.baseURL)
      && (exists item :: item in request.providers && item.enabled)
      && UniqueItems(request.providers) && (forall item :: item in request.providers ==> IsValidItem(cfg, item, endpointOk))
      && TrimSpace(request.bind) != "" && cfg.managementBind != "" && cfg.schemaVersion in {0, 1, 2}
      && cfg.logLevel in {"debug", "info", "warn", "error"} && cfg.modelPoolMode in {"", "Automatic", "Manual"}
      && (cfg.pinnedModel == "" || cfg.pinnedModel in cfg.modelPool)
  {
    var next := Candidate(cfg, request);
    assert SomeEnabled(next) <==> exists item :: item in request.providers && item.enabled by {
      DesiredIDs(cfg, request.providers, "");
    }
    ConflictsAre(cfg, request.providers);
    DesiredAreValid(cfg, request.providers, endpointOk);
    SettingsAre(cfg, request);
  }

  lemma SettingsAre(cfg: Config, request: Request)
    ensures ValidSettings(Candidate(cfg, request)) <==>
      && TrimSpace(request.bind) != "" && cfg.managementBind != "" && cfg.schemaVersion in {0, 1, 2}
      && cfg.logLevel in {"debug", "info", "warn", "error"} && cfg.modelPoolMode in {"", "Automatic", "Manual"}
      && (cfg.pinnedModel == "" || cfg.pinnedModel in cfg.modelPool)
  {
  }

  lemma DesiredAreValid(cfg: Config, items: seq<ProviderUpdate>, endpointOk: string -> bool)
    requires ValidProviders(cfg.providers, endpointOk)
    ensures ValidProviders(DesiredProviders(cfg, items), endpointOk) <==>
      UniqueItems(items) && forall item :: item in items ==> IsValidItem(cfg, item, endpointOk)
  {
    var providers := DesiredProviders(cfg, items);
    UniqueDesired(cfg, items);
    forall i | 0 <= i < |items|
      ensures providers[i] in providers && (ValidProvider(providers[i], endpointOk) <==> IsValidItem(cfg, items[i], endpointOk))
    {
      ValidDesired(cfg, items[i], endpointOk);
    }
  }

  // A new key is refused only where the next revision is negative, which prints a sign.
  predicate IsValidItem(cfg: Config, item: ProviderUpdate, endpointOk: string -> bool) {
    && IsProviderID(item.id) && TrimSpace(item.name) != "" && item.protocol == OPENAI_COMPATIBLE && endpointOk(item.baseURL)
    && (item.excludedModelIDs.Some? ==> ValidExclusions(item.excludedModelIDs.value))
    && (item.Key() != "" ==> cfg.configRevision + 1 >= 0)
  }

  lemma ValidDesired(cfg: Config, item: ProviderUpdate, endpointOk: string -> bool)
    requires ValidProviders(cfg.providers, endpointOk)
    ensures ValidProvider(Desired(Find(cfg.providers, item.id), item, cfg.configRevision + 1), endpointOk) <==>
      IsValidItem(cfg, item, endpointOk)
  {
    FindFacts(cfg.providers, item.id);
    if cfg.configRevision + 1 < 0 {
      NegativeRef(item.id, cfg.configRevision + 1);
    } else {
      FreshRef(item.id, cfg.configRevision + 1);
    }
    var empty: seq<string> := [];
    assert ValidExclusions(empty);
    if Find(cfg.providers, item.id).Some? {
      assert ValidProvider(Find(cfg.providers, item.id).value, endpointOk);
    }
  }

  lemma ConflictsAre(cfg: Config, items: seq<ProviderUpdate>)
    requires UniqueIDs(cfg.providers)
    ensures NoEndpointConflict(cfg, items) <==>
      forall p, item :: p in cfg.providers && item in items && p.id == item.id && item.apiKey.None? ==>
        p.credentialRef == "" || p.baseURL == item.baseURL
  {
    forall item | item in items
      ensures EndpointConflict(Find(cfg.providers, item.id), item) <==>
        exists p :: p in cfg.providers && p.id == item.id && item.apiKey.None? && !(p.credentialRef == "" || p.baseURL == item.baseURL)
    {
      FindFacts(cfg.providers, item.id);
    }
  }

  lemma UniqueDesired(cfg: Config, items: seq<ProviderUpdate>)
    ensures UniqueIDs(DesiredProviders(cfg, items)) <==> UniqueItems(items)
  {
    forall i | 0 <= i < |items|
      ensures DesiredProviders(cfg, items)[i].id == items[i].id
    {
      DesiredID(cfg, items, i);
    }
  }

  // A credential that is kept is never sent anywhere else: its provider has the id and the endpoint that it had.
  lemma KeptKeyKeepsEndpoint(
    env: Env, s: State, c: Call, t: State, r: Result<Response, UpdateError>, p: ProviderConfig)
    returns (q: ProviderConfig)
    requires ValidProviders(s.config.providers, env.endpointOk) && RefsNotNewer(s.config)
    requires Step(env, s, c, t, r) && r.Ok?
    requires p in t.config.providers && p.credentialRef in Refs(s.config)
    ensures q in s.config.providers && q.credentialRef == p.credentialRef && q.id == p.id && q.baseURL == p.baseURL
  {
    SuccessIsCommitted(env, s, c, t, r);
    q := KeptProvider(s.config, c.request, env.endpointOk, p);
  }

  lemma KeptProvider(cfg: Config, request: Request, endpointOk: string -> bool, p: ProviderConfig)
    returns (q: ProviderConfig)
    requires ValidProviders(cfg.providers, endpointOk) && RefsNotNewer(cfg) && Accepted(cfg, request, endpointOk)
    requires p in Candidate(cfg, request).providers && p.credentialRef in Refs(cfg)
    ensures q in cfg.providers && q.credentialRef == p.credentialRef && q.id == p.id && q.baseURL == p.baseURL
  {
    var item := DesiredOwner(cfg, request, p);
    if item.Key() != "" {
      NewRefIsFresh(cfg, request, endpointOk, item);
    }
    FindFacts(cfg.providers, item.id);
    q := Find(cfg.providers, item.id).value;
  }

  // What a request leaves out is kept, and what it says is taken.
  predicate Takes(p: ProviderConfig, item: ProviderUpdate) {
    && p.id == item.id && p.name == item.name && p.protocol == item.protocol && p.baseURL == item.baseURL
    && p.enabled == item.enabled
    && (item.autoProbe.Some? ==> p.autoProbe == item.autoProbe)
    && (item.excludedModelIDs.Some? ==> p.excludedModelIDs == item.excludedModelIDs.value)
    && (item.apiKey.Some? && TrimSpace(item.apiKey.value) == "" ==> p.credentialRef == "")
  }

  predicate Keeps(p: ProviderConfig, q: ProviderConfig, item: ProviderUpdate) {
    && (item.autoProbe.None? ==> p.autoProbe == q.autoProbe)
    && (item.excludedModelIDs.None? ==> p.excludedModelIDs == q.excludedModelIDs)
    && (item.apiKey.None? ==> p.credentialRef == q.credentialRef)
  }

  ghost predicate Configures(cfg: Config, item: ProviderUpdate, p: ProviderConfig) {
    && Takes(p, item)
    && (forall q :: q in cfg.providers && q.id == item.id ==> Keeps(p, q, item))
    && ((forall q :: q in cfg.providers ==> q.id != item.id) ==>
          Keeps(p, ProviderConfig(p.id, p.name, p.protocol, p.baseURL, p.enabled, "", Some(true), []), item))
  }

  // The config that a success leaves is the old one with the requested bind address and providers, in the order of the
  // request, and each key that is supplied gets a reference that is not in use.
  lemma RequestedIsConfigured(cfg: Config, request: Request, endpointOk: string -> bool, i: nat)
    requires ValidProviders(cfg.providers, endpointOk) && RefsNotNewer(cfg) && Accepted(cfg, request, endpointOk)
    requires i < |request.providers|
    ensures var next := Candidate(cfg, request);
      && next == cfg.(bind := TrimSpace(request.bind), configRevision := cfg.configRevision + 1, providers := next.providers)
      && |next.providers| == |request.providers| && Configures(cfg, request.providers[i], next.providers[i])
      && (request.providers[i].Key() != "" ==> next.providers[i].credentialRef in Refs(next) - Refs(cfg))
  {
    var item, p := request.providers[i], Candidate(cfg, request).providers[i];
    assert p == Desired(Find(cfg.providers, item.id), item, cfg.configRevision + 1);
    assert Configures(cfg, item, p) && (item.Key() != "" ==> p.credentialRef == CredentialRef(item.id, cfg.configRevision + 1)) by {
      DesiredConfigures(cfg, item, cfg.configRevision + 1);
    }
    if item.Key() != "" {
      assert p.credentialRef in Refs(Candidate(cfg, request)) - Refs(cfg) by {
        NewRefIsFresh(cfg, request, endpointOk, item);
      }
    }
  }

  lemma DesiredConfigures(cfg: Config, item: ProviderUpdate, revision: int)
    requires UniqueIDs(cfg.providers)
    ensures Configures(cfg, item, Desired(Find(cfg.providers, item.id), item, revision))
    ensures item.Key() != "" ==>
      Desired(Find(cfg.providers, item.id), item, revision).credentialRef == CredentialRef(item.id, revision)
  {
    FindFacts(cfg.providers, item.id);
  }

  // A request that repeats the config.
  function Repeated(cfg: Config): Request {
    Request(cfg.configRevision, cfg.bind, RepeatedItems(cfg.providers), None, false)
  }

  function RepeatedItems(providers: seq<ProviderConfig>): (r: seq<ProviderUpdate>)
    ensures |r| == |providers|
    ensures forall i :: 0 <= i < |r| ==> r[i] == RepeatedItem(providers[i])
  {
    seq(|providers|, i requires 0 <= i < |providers| => RepeatedItem(providers[i]))
  }

  function RepeatedItem(p: ProviderConfig): ProviderUpdate {
    ProviderUpdate(p.id, p.name, p.protocol, p.baseURL, p.enabled, None, None, None)
  }

  // It is accepted, if the config is acceptable, and changes nothing but the revision.
  lemma RepeatChangesNothing(cfg: Config, endpointOk: string -> bool)
    requires Acceptable(cfg, endpointOk) && TrimSpace(cfg.bind) == cfg.bind
    ensures Candidate(cfg, Repeated(cfg)) == cfg.(configRevision := cfg.configRevision + 1)
    ensures Accepted(cfg, Repeated(cfg), endpointOk) && Staged(Repeated(cfg).providers, cfg.configRevision + 1) == map[]
  {
    var items := RepeatedItems(cfg.providers);
    RepeatIsDesired(cfg);
    assert NoEndpointConflict(cfg, items);
    assert Acceptable(cfg.(configRevision := cfg.configRevision + 1), endpointOk);
    NothingIsStaged(items, cfg.configRevision + 1);
  }

  lemma RepeatIsDesired(cfg: Config)
    requires UniqueIDs(cfg.providers)
    ensures DesiredProviders(cfg, RepeatedItems(cfg.providers)) == cfg.providers
    ensures NoEndpointConflict(cfg, RepeatedItems(cfg.providers))
  {
    forall i | 0 <= i < |cfg.providers|
      ensures Find(cfg.providers, cfg.providers[i].id) == Some(cfg.providers[i])
    {
      FindFacts(cfg.providers, cfg.providers[i].id);
    }
  }

  lemma {:induction false} NothingIsStaged(items: seq<ProviderUpdate>, revision: int)
    requires forall item :: item in items ==> item.apiKey.None?
    ensures Staged(items, revision) == map[]
  {
    if items != [] {
      NothingIsStaged(items[..|items| - 1], revision);
    }
  }

  // A generated token is the one in the response, and what is stored; without a request for a key the stored one stays.
  lemma GeneratedKeyIsStored(env: Env, s: State, c: Call, t: State, r: Result<Response, UpdateError>)
    requires Step(env, s, c, t, r) && r.Ok?
    ensures c.request.generateInferenceKey ==> r.value.generatedKey == c.newToken
    ensures c.request.generateInferenceKey && TrimSpace(c.newToken) != "" ==>
      StoredSince(s.vault, t.vault, "FMR_INFERENCE_TOKEN", TrimSpace(c.newToken))
    ensures !c.request.generateInferenceKey ==> r.value.generatedKey == ""
    ensures !c.request.generateInferenceKey && c.request.inferenceKey.None? ==> Kept(s.vault, t.vault, "FMR_INFERENCE_TOKEN")
    ensures !c.request.generateInferenceKey && c.request.inferenceKey.Some? ==>
      var key := TrimSpace(c.request.inferenceKey.value);
      if key == "" then t.vault.Gone("FMR_INFERENCE_TOKEN") else StoredSince(s.vault, t.vault, "FMR_INFERENCE_TOKEN", key)
  {
  }

  // ----- the limit of the file, before the call

  function WithInferenceKey(values: map<string, string>, key: Option<string>): map<string, string> {
    if key.None? then values
    else if IsNewKey(key) then values[INFERENCE_TOKEN_KEY := TrimSpace(key.value)]
    else values - {INFERENCE_TOKEN_KEY}
  }

  // The references that a cleanup has removed, which are all dropped ones unless it is pending.
  function Removals(refs: set<string>, next: set<string>, w: Vault): set<string> {
    set ref | ref in refs - next && w.Gone(ref)
  }

  ghost predicate AreApart(refs: set<string>, staged: map<string, string>, next: set<string>) {
    && staged.Keys !! refs && next - refs == staged.Keys && INFERENCE_TOKEN_KEY !in refs && INFERENCE_TOKEN_KEY !in staged
    && forall ref :: ref in staged ==> TrimSpace(staged[ref]) == staged[ref]
  }

  // With no backend and no loss, the file holds what it held, the new keys, and not the removed ones.
  lemma CommittedContents(
    size: Size, refs: set<string>, staged: map<string, string>, next: set<string>, key: Option<string>, pending: bool,
    v: Vault, w: Vault)
    requires Committed(size, refs, staged, next, key, pending, v, w)
    requires AreApart(refs, staged, next) && v.backend.None? && w.losses == v.losses
    ensures pending || Removals(refs, next, w) == refs - next
    ensures w.file.Contents() == WithInferenceKey(v.file.Contents() + staged, key) - Removals(refs, next, w)
  {
    var after := WithInferenceKey(v.file.Contents() + staged, key) - Removals(refs, next, w);
    forall k: string
      ensures w.FileValue(k) == if k in after then Some(after[k]) else None
    {
      if k in staged {
        assert StoredSince(v, w, k, TrimSpace(staged[k]));
      } else if k in refs - next {
        assert Remains(v, w, k);
      } else if k != INFERENCE_TOKEN_KEY || key.None? {
        assert Kept(v, w, k);
      }
    }
    assert forall k :: k in w.file.Contents() <==> w.FileValue(k).Some?;
  }

  lemma SomeKeyIsHeld(
    size: Size, refs: set<string>, staged: map<string, string>, next: set<string>, key: Option<string>, pending: bool,
    v: Vault, w: Vault)
    requires Committed(size, refs, staged, next, key, pending, v, w) && (staged.Keys != {} || IsNewKey(key))
    requires v.backend.None? && w.losses == v.losses
    ensures w.file.Held? && w.file.length == size(w.file.values)
  {
    if ref :| ref in staged.Keys {
      assert StoredSince(v, w, ref, TrimSpace(staged[ref]));
    }
  }

  lemma CommittedWithinLimit(
    size: Size, refs: set<string>, staged: map<string, string>, next: set<string>, key: Option<string>, pending: bool,
    v: Vault, w: Vault)
    requires Committed(size, refs, staged, next, key, pending, v, w) && (staged.Keys != {} || IsNewKey(key))
    requires AreApart(refs, staged, next) && v.backend.None? && w.losses == v.losses
    requires forall ref :: ref in refs ==> v.Get(ref).Some?
    ensures pending || Removals(refs, next, w) == refs - next
    ensures var after := WithInferenceKey(v.file.Contents() + staged, key) - Removals(refs, next, w);
      && w.file == Held(after, size(after))
      && ((forall ref :: ref in next ==> w.Get(ref).Some?) <==> next == {} || size(after) <= MAX_SECRET_FILE_BYTES)
  {
    CommittedContents(size, refs, staged, next, key, pending, v, w);
    SomeKeyIsHeld(size, refs, staged, next, key, pending, v, w);
    CommittedIsFoundExactly(size, refs, staged, next, key, pending, v, w);
    assert forall ref :: ref in Reliant(next, w) <==> ref in next;
  }

  lemma {:induction false} StagedIsTrimmed(items: seq<ProviderUpdate>, revision: int, ref: string)
    requires ref in Staged(items, revision)
    ensures TrimSpace(Staged(items, revision)[ref]) == Staged(items, revision)[ref] != ""
  {
    var last := items[|items| - 1];
    if last.Key() != "" && ref == CredentialRef(last.id, revision) {
      TrimmedHasNoOuterSpace(last.apiKey.value);
    } else {
      StagedIsTrimmed(items[..|items| - 1], revision, ref);
    }
  }

  lemma AllTrimmed(items: seq<ProviderUpdate>, revision: int)
    ensures forall ref :: ref in Staged(items, revision) ==> TrimSpace(Staged(items, revision)[ref]) == Staged(items, revision)[ref]
  {
    forall ref | ref in Staged(items, revision)
      ensures TrimSpace(Staged(items, revision)[ref]) == Staged(items, revision)[ref]
    {
      StagedIsTrimmed(items, revision, ref);
    }
  }

  // The secrets in the file after an update: `removed` are the dropped references that were cleaned up.
  function Updated(cfg: Config, v: Vault, c: Call, removed: set<string>): map<string, string> {
    var staged := Staged(c.request.providers, cfg.configRevision + 1);
    WithInferenceKey(v.file.Contents() + staged, InferenceKey(c.request, c.newToken)) - removed
  }

  predicate StoresKeys(cfg: Config, c: Call) {
    NewRefs(cfg, c.request) != {} || IsNewKey(InferenceKey(c.request, c.newToken))
  }

  // With no backend and no loss, a success that stores a key leaves these secrets in the file. They, and with them all
  // references, are readable exactly when their encoding is within the limit.
  lemma SoundExactlyWithinLimit(env: Env, s: State, c: Call, t: State, r: Result<Response, UpdateError>)
    requires IsSound(env, s) && Step(env, s, c, t, r) && r.Ok? && StoresKeys(s.config, c)
    requires s.vault.backend.None? && t.vault.losses == s.vault.losses
    ensures var removed := Removals(Refs(s.config), Refs(t.config), t.vault);
      var values := Updated(s.config, s.vault, c, removed);
      && (r.value.cleanupPending || removed == Refs(s.config) - Refs(t.config))
      && t.vault.file == Held(values, env.size(values))
      && (IsSound(env, t) <==> Refs(t.config) == {} || env.size(values) <= MAX_SECRET_FILE_BYTES)
  {
    var staged, key := Staged(c.request.providers, s.config.configRevision + 1), InferenceKey(c.request, c.newToken);
    assert
      && Committed(env.size, Refs(s.config), staged, Refs(t.config), key, r.value.cleanupPending, s.vault, t.vault)
      && staged.Keys == NewRefs(s.config, c.request)
      && ValidProviders(t.config.providers, env.endpointOk) && RefsNotNewer(t.config) by {
      SuccessFacts(env, s, c, t, r);
    }
    assert AreApart(Refs(s.config), staged, Refs(t.config)) by {
      StagedAreApart(s.config, c.request, env.endpointOk);
    }
    CommittedWithinLimit(env.size, Refs(s.config), staged, Refs(t.config), key, r.value.cleanupPending, s.vault, t.vault);
  }

  lemma StagedAreApart(cfg: Config, request: Request, endpointOk: string -> bool)
    requires ValidProviders(cfg.providers, endpointOk) && RefsNotNewer(cfg) && Accepted(cfg, request, endpointOk)
    ensures AreApart(Refs(cfg), Staged(request.providers, cfg.configRevision + 1), Refs(Candidate(cfg, request)))
  {
    StagedAreNew(cfg, request, endpointOk);
    NewRefsAreApart(cfg, request, endpointOk);
    CandidateRefs(cfg, request, endpointOk);
    AllTrimmed(request.providers, cfg.configRevision + 1);
  }
}
