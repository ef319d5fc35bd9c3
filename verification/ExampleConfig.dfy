/** Two providers, and requests that give them keys: the inputs of the counterexamples. */
module ExampleConfig {
  import opened ConfigUpdate
  import opened ProviderConfigs
  import opened Secrets
  import opened Strings
  import opened Wrappers

  const URL := "https://example.net/v1"

  function Provider(id: string): ProviderConfig {
    ProviderConfig(id, id, OPENAI_COMPATIBLE, URL, true, "", Some(true), [])
  }

  function Item(id: string, key: Option<string>): ProviderUpdate {
    ProviderUpdate(id, id, OPENAI_COMPATIBLE, URL, true, key, None, None)
  }

  const BIND := ":80"

  const START := Config(
    2, BIND, ":81", "info", [], "Automatic", "", [Provider("a"), Provider("b")], 0, "")

  // Asks for the same two providers, with or without new keys.
  function Ask(revision: int, a: Option<string>, b: Option<string>): Call {
    Call(Request(revision, BIND, [Item("a", a), Item("b", b)], None, false), "")
  }

  predicate IsKey(key: string) {
    TrimSpace(key) == key && '\0' !in key && |key| >= 600 * 1024
  }

  const FIRST := "provider.a.1"
  const SECOND := "provider.b.2"

  lemma Names()
    ensures CredentialRef("a", 1) == FIRST && CredentialRef("b", 2) == SECOND
  {
    assert Numeral(1) == "1" && Numeral(2) == "2";
    assert RefPrefix("a") == "provider.a." && RefPrefix("b") == "provider.b.";
  }

  function Named(id: string, ref: string): ProviderConfig {
    Provider(id).(credentialRef := ref)
  }

  function Configured(revision: int, a: string, b: string): Config {
    START.(configRevision := revision, providers := [Named("a", a), Named("b", b)])
  }

  lemma FindTwo(a: ProviderConfig, b: ProviderConfig)
    requires a.id == "a" && b.id == "b"
    ensures Find([a, b], "a") == Some(a) && Find([a, b], "b") == Some(b)
  {
    assert [a, b][..1] == [a];
  }

  lemma IsValid(id: string, ref: string, endpointOk: string -> bool)
    requires id in {"a", "b"} && endpointOk(URL) && (ref == "" || IsCredentialRef(ref, id))
    ensures ValidProvider(Named(id, ref), endpointOk)
  {
  }

  lemma AreValid(revision: int, a: string, b: string, endpointOk: string -> bool)
    requires endpointOk(URL) && (a == "" || IsCredentialRef(a, "a")) && (b == "" || IsCredentialRef(b, "b"))
    ensures ValidProviders(Configured(revision, a, b).providers, endpointOk)
    ensures Acceptable(Configured(revision, a, b), endpointOk)
  {
    IsValid("a", a, endpointOk);
    IsValid("b", b, endpointOk);
    assert Named("a", a) in Configured(revision, a, b).providers;
  }

  lemma AreDesired(revision: int, a: string, b: string, x: Option<string>, y: Option<string>)
    ensures DesiredProviders(Configured(revision, a, b), [Item("a", x), Item("b", y)]) ==
      [Desired(Some(Named("a", a)), Item("a", x), revision + 1), Desired(Some(Named("b", b)), Item("b", y), revision + 1)]
  {
    FindTwo(Named("a", a), Named("b", b));
  }

  lemma NoConflict(revision: int, a: string, b: string, x: Option<string>, y: Option<string>)
    ensures NoEndpointConflict(Configured(revision, a, b), [Item("a", x), Item("b", y)])
  {
    FindTwo(Named("a", a), Named("b", b));
  }

  lemma Keyed(id: string, ref: string, key: string, revision: int)
    requires IsKey(key)
    ensures Desired(Some(Named(id, ref)), Item(id, Some(key)), revision) == Named(id, CredentialRef(id, revision))
  {
  }

  lemma Unkeyed(id: string, ref: string, revision: int)
    ensures Desired(Some(Named(id, ref)), Item(id, None), revision) == Named(id, ref)
  {
  }

  lemma StagedTwo(x: ProviderUpdate, y: ProviderUpdate, revision: int)
    ensures Staged([x, y], revision) == StagedWith(StagedWith(map[], x, revision), y, revision)
  {
    assert [x, y][..1] == [x] && [x][..0] == [];
    assert Staged([x], revision) == StagedWith(map[], x, revision);
  }

  lemma CandidateIs(revision: int, a: string, b: string, x: Option<string>, y: Option<string>, a': string, b': string)
    requires Desired(Some(Named("a", a)), Item("a", x), revision + 1) == Named("a", a')
    requires Desired(Some(Named("b", b)), Item("b", y), revision + 1) == Named("b", b')
    ensures Candidate(Configured(revision, a, b), Ask(revision, x, y).request) == Configured(revision + 1, a', b')
  {
    var items := [Item("a", x), Item("b", y)];
    assert DesiredProviders(Configured(revision, a, b), items) == Configured(revision + 1, a', b').providers by {
      AreDesired(revision, a, b, x, y);
    }
    assert TrimSpace(BIND) == BIND;
  }

  lemma IsAccepted(cfg: Config, request: Request, next: Config, endpointOk: string -> bool)
    requires request.revision == cfg.configRevision && NoEndpointConflict(cfg, request.providers)
    requires Candidate(cfg, request) == next && Acceptable(next, endpointOk)
    ensures Accepted(cfg, request, endpointOk)
  {
  }

  lemma FirstCall(x: string, endpointOk: string -> bool)
    requires IsKey(x) && endpointOk(URL)
    ensures Candidate(Configured(0, "", ""), Ask(0, Some(x), None).request) == Configured(1, FIRST, "")
    ensures Accepted(Configured(0, "", ""), Ask(0, Some(x), None).request, endpointOk)
  {
    Names();
    AreCredentialRefs();
    Keyed("a", "", x, 1);
    Unkeyed("b", "", 1);
    CandidateIs(0, "", "", Some(x), None, FIRST, "");
    AreValid(1, FIRST, "", endpointOk);
    NoConflict(0, "", "", Some(x), None);
    IsAccepted(Configured(0, "", ""), Ask(0, Some(x), None).request, Configured(1, FIRST, ""), endpointOk);
  }

  lemma PlainCall(endpointOk: string -> bool)
    requires endpointOk(URL)
    ensures Candidate(Configured(0, "", ""), Ask(0, None, None).request) == Configured(1, "", "")
    ensures Accepted(Configured(0, "", ""), Ask(0, None, None).request, endpointOk)
    ensures Staged(Ask(0, None, None).request.providers, 1) == map[]
  {
    Unkeyed("a", "", 1);
    Unkeyed("b", "", 1);
    CandidateIs(0, "", "", None, None, "", "");
    AreValid(1, "", "", endpointOk);
    NoConflict(0, "", "", None, None);
    IsAccepted(Configured(0, "", ""), Ask(0, None, None).request, Configured(1, "", ""), endpointOk);
    StagedTwo(Item("a", None), Item("b", None), 1);
  }

  lemma SecondCall(y: string, endpointOk: string -> bool)
    requires IsKey(y) && endpointOk(URL)
    ensures Candidate(Configured(1, FIRST, ""), Ask(1, None, Some(y)).request) == Configured(2, FIRST, SECOND)
    ensures Accepted(Configured(1, FIRST, ""), Ask(1, None, Some(y)).request, endpointOk)
  {
    Names();
    AreCredentialRefs();
    Unkeyed("a", FIRST, 2);
    Keyed("b", "", y, 2);
    CandidateIs(1, FIRST, "", None, Some(y), FIRST, SECOND);
    AreValid(2, FIRST, SECOND, endpointOk);
    NoConflict(1, FIRST, "", None, Some(y));
    IsAccepted(Configured(1, FIRST, ""), Ask(1, None, Some(y)).request, Configured(2, FIRST, SECOND), endpointOk);
  }

  lemma StagedByCalls(x: string, y: string)
    requires IsKey(x) && IsKey(y)
    ensures Staged(Ask(0, Some(x), None).request.providers, 1) == map[FIRST := x]
    ensures Staged(Ask(1, None, Some(y)).request.providers, 2) == map[SECOND := y]
  {
    Names();
    StagedTwo(Item("a", Some(x)), Item("b", None), 1);
    StagedTwo(Item("a", None), Item("b", Some(y)), 2);
  }

  lemma AreNotNewer()
    ensures RefsNotNewer(Configured(0, "", "")) && RefsNotNewer(Configured(1, FIRST, ""))
  {
    Names();
    FreshRef("a", 1);
    FreshRef("b", 2);
  }

  lemma RefsOf(revision: int)
    ensures Refs(Configured(revision, "", "")) == {}
    ensures Refs(Configured(revision, FIRST, "")) == {FIRST}
    ensures Refs(Configured(revision, FIRST, SECOND)) == {FIRST, SECOND}
  {
    assert forall p :: p in Configured(revision, FIRST, "").providers <==> p in {Named("a", FIRST), Named("b", "")};
    assert forall p :: p in Configured(revision, FIRST, SECOND).providers <==> p in {Named("a", FIRST), Named("b", SECOND)};
    assert Named("a", FIRST) in Configured(revision, FIRST, "").providers;
    assert Named("a", FIRST) in Configured(revision, FIRST, SECOND).providers;
    assert Named("b", SECOND) in Configured(revision, FIRST, SECOND).providers;
  }

  lemma AreStorable()
    ensures IsStorable(FIRST) && IsStorable(SECOND)
  {
    assert TrimSpace(FIRST) == FIRST && TrimSpace(SECOND) == SECOND;
  }

  lemma AreReady(endpointOk: string -> bool)
    requires endpointOk(URL)
    ensures START == Configured(0, "", "")
    ensures ValidProviders(START.providers, endpointOk) && RefsNotNewer(START)
    ensures ValidProviders(Configured(1, FIRST, "").providers, endpointOk) && RefsNotNewer(Configured(1, FIRST, ""))
  {
    AreNotNewer();
    AreCredentialRefs();
    AreValid(0, "", "", endpointOk);
    AreValid(1, FIRST, "", endpointOk);
  }

  lemma AreCredentialRefs()
    ensures IsCredentialRef(FIRST, "a") && IsCredentialRef(SECOND, "b")
  {
    Names();
    FreshRef("a", 1);
    FreshRef("b", 2);
  }
}
