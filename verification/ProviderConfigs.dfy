/** Provider configurations and the shape of credential references (internal/config/providers.go, config.go). */
module ProviderConfigs {
  import opened Strings
  import opened Wrappers

  const OPENAI_COMPATIBLE := "openai-compatible"

  datatype ProviderConfig = ProviderConfig(
    id: string, name: string, protocol: string, baseURL: string, enabled: bool,
    credentialRef: string, autoProbe: Option<bool>, excludedModelIDs: seq<string>)

  datatype Config = Config(
    schemaVersion: int, bind: string, managementBind: string, logLevel: string, modelPool: seq<string>,
    modelPoolMode: string, pinnedModel: string, providers: seq<ProviderConfig>, configRevision: int, sourcePath: string)

  predicate IsIDChar(c: char) {
    'a' <= c <= 'z' || IsDigit(c) || c == '_' || c == '-'
  }

  predicate IsProviderID(id: string) {
    && id != [] && id[0] != '_' && id[0] != '-'
    && forall i :: 0 <= i < |id| ==> IsIDChar(id[i])
  }

  // ----- credential references

  function RefPrefix(id: string): string {
    "provider." + id + "."
  }

  function CredentialRef(id: string, revision: int): string {
    RefPrefix(id) + Decimal(revision)
  }

  predicate IsCredentialRef(ref: string, id: string) {
    var prefix := RefPrefix(id);
    prefix < ref && AllDigits(ref[|prefix|..])
  }

  function RefRevision(ref: string, id: string): nat
    requires IsCredentialRef(ref, id)
  {
    Value(ref[|RefPrefix(id)|..])
  }

  // Ids contain no dot, so a reference names one provider.
  lemma RefNamesOneProvider(ref: string, a: string, b: string)
    requires IsProviderID(a) && IsProviderID(b)
    requires IsCredentialRef(ref, a) && IsCredentialRef(ref, b)
    ensures a == b
  {
    var n := |"provider."|;
    if |a| < |b| {
      CharsOfID(ref, b, |a|);
      DotAfterID(ref, a);
    } else if |b| < |a| {
      CharsOfID(ref, a, |b|);
      DotAfterID(ref, b);
    } else {
      assert RefPrefix(a) == ref[..n + |a| + 1] == RefPrefix(b);
      assert a == RefPrefix(a)[n..n + |a|] && b == RefPrefix(b)[n..n + |a|];
    }
  }

  lemma DotAfterID(ref: string, id: string)
    requires IsCredentialRef(ref, id)
    ensures ref[|"provider."| + |id|] == '.'
  {
    assert RefPrefix(id)[|"provider."| + |id|] == '.';
  }

  lemma CharsOfID(ref: string, id: string, k: nat)
    requires IsProviderID(id) && IsCredentialRef(ref, id) && k < |id|
    ensures ref[|"provider."| + k] != '.'
  {
    assert RefPrefix(id)[|"provider."| + k] == id[k];
  }

  lemma FreshRef(id: string, revision: nat)
    ensures IsCredentialRef(CredentialRef(id, revision), id)
    ensures RefRevision(CredentialRef(id, revision), id) == revision
  {
    assert CredentialRef(id, revision)[|RefPrefix(id)|..] == Numeral(revision);
  }

  // A negative revision prints a sign, which validation refuses.
  lemma NegativeRef(id: string, revision: int)
    requires revision < 0
    ensures !IsCredentialRef(CredentialRef(id, revision), id)
  {
    assert CredentialRef(id, revision)[|RefPrefix(id)|] == '-';
    assert CredentialRef(id, revision)[|RefPrefix(id)|..][0] == '-';
  }

  lemma RefIsPlain(ref: string, id: string)
    requires IsProviderID(id) && IsCredentialRef(ref, id)
    ensures ref != "" && TrimSpace(ref) == ref && ref[0] == 'p' && '\0' !in ref
  {
    var prefix := RefPrefix(id);
    assert ref == prefix + ref[|prefix|..];
    assert ref[0] == prefix[0] == 'p';
    assert ref[|ref| - 1] == ref[|prefix|..][|ref| - 1 - |prefix|];
    forall i | 0 <= i < |ref|
      ensures ref[i] != '\0'
    {
      if i >= |prefix| {
        assert ref[i] == ref[|prefix|..][i - |prefix|];
      } else {
        assert ref[i] == prefix[i];
      }
    }
  }

  // ----- validation

  predicate IsControl(c: char) {
    c < ' ' || '\U{7F}' <= c <= '\U{9F}'
  }

  predicate ValidExclusions(ids: seq<string>) {
    && |ids| <= 512
    && (forall i :: 0 <= i < |ids| ==> 0 < |ids[i]| <= 512 && forall j :: 0 <= j < |ids[i]| ==> !IsControl(ids[i][j]))
    && (forall i, j :: 0 <= i < j < |ids| ==> ids[i] != ids[j])
  }

  // `endpointOk` stands for the URL rules.
  predicate ValidProvider(p: ProviderConfig, endpointOk: string -> bool) {
    && IsProviderID(p.id) && TrimSpace(p.name) != "" && p.protocol == OPENAI_COMPATIBLE && endpointOk(p.baseURL)
    && (p.credentialRef != "" ==> IsCredentialRef(p.credentialRef, p.id))
    && ValidExclusions(p.excludedModelIDs)
  }

  predicate UniqueIDs(providers: seq<ProviderConfig>) {
    forall i, j :: 0 <= i < j < |providers| ==> providers[i].id != providers[j].id
  }

  predicate ValidProviders(providers: seq<ProviderConfig>, endpointOk: string -> bool) {
    && (forall p :: p in providers ==> ValidProvider(p, endpointOk))
    && UniqueIDs(providers)
  }

  predicate ValidSettings(c: Config) {
    && 0 <= c.schemaVersion <= 2 && c.bind != "" && c.managementBind != ""
    && c.logLevel in {"debug", "info", "warn", "error"}
    && c.modelPoolMode in {"", "Automatic", "Manual"}
    && (c.pinnedModel != "" ==> c.pinnedModel in c.modelPool)
  }

  method ValidateProviders(providers: seq<ProviderConfig>, endpointOk: string -> bool) returns (ok: bool)
    ensures ok == ValidProviders(providers, endpointOk)
  {
    ok := ValidateEach(providers, p => ValidProvider(p, endpointOk));
  }

  method ValidateEach(providers: seq<ProviderConfig>, valid: ProviderConfig -> bool) returns (ok: bool)
    ensures ok == ((forall p :: p in providers ==> valid(p)) && UniqueIDs(providers))
  {
    var seen: set<string> := {};
    for i := 0 to |providers|
      invariant forall j :: 0 <= j < i ==> providers[j].id in seen
      invariant forall id :: id in seen ==> exists j :: 0 <= j < i && providers[j].id == id
      invariant forall j :: 0 <= j < i ==> valid(providers[j])
      invariant forall j, k :: 0 <= j < k < i ==> providers[j].id != providers[k].id
    {
      if !valid(providers[i]) || providers[i].id in seen {
        return false;
      }
      seen := seen + {providers[i].id};
    }
    ok := true;
  }
}
