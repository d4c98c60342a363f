/** Client configuration and the static registry (crates/oidc-core/src/client.rs). */
module Client {
  import opened Basics

  datatype ClientType = Public | Confidential

  datatype AuthMethod = NoAuthentication | ClientSecretBasic

  datatype ClientConfig = ClientConfig(
    clientId: string, redirectUris: seq<string>, allowedScopes: seq<string>,
    clientType: ClientType, authMethod: AuthMethod)

  const SUPPORTED_SCOPES: seq<string> := ["openid"]

  /** `is_valid_redirect_uri` is decided by the `url` crate; every result holds
      for every such decision. */
  type UriPolicy = string -> bool

  /** `ClientRegistry::find`. */
  function Find(clients: seq<ClientConfig>, id: string): Option<ClientConfig> {
    if clients == [] then None
    else if clients[0].clientId == id then Some(clients[0])
    else Find(clients[1..], id)
  }

  predicate MethodMatchesType(clientType: ClientType, authMethod: AuthMethod) {
    match clientType
    case Public => authMethod == NoAuthentication
    case Confidential => authMethod == ClientSecretBasic
  }

  /** What `validate_client` demands of one entry. */
  predicate IsValidClient(policy: UriPolicy, c: ClientConfig) {
    && 1 <= |c.clientId| <= 128
    && c.redirectUris != [] && (forall u :: u in c.redirectUris ==> policy(u))
    && "openid" in c.allowedScopes && (forall s :: s in c.allowedScopes ==> s in SUPPORTED_SCOPES)
    && MethodMatchesType(c.clientType, c.authMethod)
  }

  datatype RegistryError =
    | Empty | InvalidClientId(id: string) | InvalidRedirectUri(id: string, uri: string)
    | InvalidScopes(id: string) | AuthMethodMismatch(id: string) | SecretConfig(id: string)

  /** Which fault is reported: the first one met, in this order. */
  ghost predicate IsFirstClientFault(policy: UriPolicy, c: ClientConfig, e: RegistryError) {
    var idOk := 1 <= |c.clientId| <= 128;
    var urisOk := c.redirectUris != [] && forall u :: u in c.redirectUris ==> policy(u);
    var scopesOk := "openid" in c.allowedScopes && forall s :: s in c.allowedScopes ==> s in SUPPORTED_SCOPES;
    match e
    case InvalidClientId(id) => id == c.clientId && !idOk
    case InvalidRedirectUri(id, uri) =>
      && id == c.clientId && idOk
      && if c.redirectUris == [] then uri == ""
         else exists k :: 0 <= k < |c.redirectUris| && c.redirectUris[k] == uri && !policy(uri)
                          && forall j :: 0 <= j < k ==> policy(c.redirectUris[j])
    case InvalidScopes(id) => id == c.clientId && idOk && urisOk && !scopesOk
    case AuthMethodMismatch(id) => id == c.clientId && idOk && urisOk && scopesOk
    case _ => false
  }

  /** `validate_client`. */
  method ValidateClient(policy: UriPolicy, raw: ClientConfig) returns (fault: Option<RegistryError>)
    ensures fault == None <==> IsValidClient(policy, raw)
    ensures fault.Some? ==> IsFirstClientFault(policy, raw, fault.value)
  {
    if raw.clientId == "" || |raw.clientId| > 128 { return Some(InvalidClientId(raw.clientId)); }
    if raw.redirectUris == [] { return Some(InvalidRedirectUri(raw.clientId, "")); }
    for i := 0 to |raw.redirectUris|
      invariant forall j :: 0 <= j < i ==> policy(raw.redirectUris[j])
    {
      if !policy(raw.redirectUris[i]) {
        assert raw.redirectUris[i] in raw.redirectUris;
        return Some(InvalidRedirectUri(raw.clientId, raw.redirectUris[i]));
      }
    }
    if raw.allowedScopes == [] || "openid" !in raw.allowedScopes
       || exists s :: s in raw.allowedScopes && s !in SUPPORTED_SCOPES {
      return Some(InvalidScopes(raw.clientId));
    }
    if !MethodMatchesType(raw.clientType, raw.authMethod) { return Some(AuthMethodMismatch(raw.clientId)); }
    fault := None;
  }

  type Secrets = seq<(string, string)>

  ghost predicate DistinctIds(clients: seq<ClientConfig>) {
    forall i, j :: 0 <= i < j < |clients| ==> clients[i].clientId != clients[j].clientId
  }

  ghost predicate HasConfidential(clients: seq<ClientConfig>, id: string) {
    exists i :: 0 <= i < |clients| && clients[i].clientId == id && clients[i].clientType == Confidential
  }

  ghost predicate HasSecret(secrets: Secrets, id: string) {
    exists i :: 0 <= i < |secrets| && secrets[i].0 == id
  }

  /** The secrets belong to exactly the confidential clients and have at least
      16 bytes each. */
  ghost predicate SecretsFit(clients: seq<ClientConfig>, secrets: Secrets) {
    && (forall i :: 0 <= i < |secrets| ==> HasConfidential(clients, secrets[i].0) && |secrets[i].1| >= 16)
    && (forall i :: 0 <= i < |clients| && clients[i].clientType == Confidential ==>
        HasSecret(secrets, clients[i].clientId))
  }

  /** An accepted static registry. */
  ghost predicate RegistryOk(policy: UriPolicy, clients: seq<ClientConfig>, secrets: Secrets) {
    && clients != []
    && (forall i :: 0 <= i < |clients| ==> IsValidClient(policy, clients[i]))
    && DistinctIds(clients)
    && SecretsFit(clients, secrets)
  }

  ghost predicate ClientsOk(policy: UriPolicy, clients: seq<ClientConfig>) {
    DistinctIds(clients) && forall i :: 0 <= i < |clients| ==> IsValidClient(policy, clients[i])
  }

  ghost predicate SecretFits(clients: seq<ClientConfig>, secret: (string, string)) {
    HasConfidential(clients, secret.0) && |secret.1| >= 16
  }

  /** The first of the secrets that does not fit is for `id`. */
  ghost predicate FirstUnfit(clients: seq<ClientConfig>, secrets: Secrets, k: nat, id: string) {
    && k < |secrets| && secrets[k].0 == id && !SecretFits(clients, secrets[k])
    && forall j :: 0 <= j < k ==> SecretFits(clients, secrets[j])
  }

  /** All fit, and the first confidential client without one is `id`. */
  ghost predicate FirstWithout(clients: seq<ClientConfig>, secrets: Secrets, k: nat, id: string) {
    && (forall j :: 0 <= j < |secrets| ==> SecretFits(clients, secrets[j]))
    && k < |clients| && clients[k].clientId == id && clients[k].clientType == Confidential && !HasSecret(secrets, id)
    && forall j :: 0 <= j < k && clients[j].clientType == Confidential ==> HasSecret(secrets, clients[j].clientId)
  }

  /** The first entry that is not in order is `i`: it is invalid, or repeats an id. */
  ghost predicate FirstBadClient(policy: UriPolicy, raw: seq<ClientConfig>, i: nat, e: RegistryError) {
    && i < |raw| && ClientsOk(policy, raw[..i])
    && (IsFirstClientFault(policy, raw[i], e)
        || (IsValidClient(policy, raw[i]) && e == InvalidClientId(raw[i].clientId)
            && exists j :: 0 <= j < i && raw[j].clientId == raw[i].clientId))
  }

  /** Which fault of a registry is reported: clients first, then secrets. */
  ghost predicate IsFirstRegistryFault(policy: UriPolicy, raw: seq<ClientConfig>, secrets: Secrets, e: RegistryError) {
    match e
    case Empty => raw == []
    case SecretConfig(id) =>
      raw != [] && ClientsOk(policy, raw)
      && exists k: nat :: FirstUnfit(raw, secrets, k, id) || FirstWithout(raw, secrets, k, id)
    case _ => exists i: nat :: FirstBadClient(policy, raw, i, e)
  }

  lemma {:induction false} FindIsFirst(clients: seq<ClientConfig>, id: string)
    ensures Find(clients, id) == None <==> forall i :: 0 <= i < |clients| ==> clients[i].clientId != id
    ensures Find(clients, id).Some? ==> Find(clients, id).value in clients && Find(clients, id).value.clientId == id
  {
    if clients != [] {
      FindIsFirst(clients[1..], id);
      assert forall i :: 0 < i < |clients| ==> clients[i] == clients[1..][i - 1];
    }
  }

  /** With distinct ids the linear search is a map lookup. */
  lemma {:induction false} FindIsLookup(clients: seq<ClientConfig>, i: nat)
    requires DistinctIds(clients) && i < |clients|
    ensures Find(clients, clients[i].clientId) == Some(clients[i])
  {
    if i > 0 { FindIsLookup(clients[1..], i - 1); }
  }

  /** The secret part of `build_registry`: the two loops over the secrets and
      the confidential clients. */
  method CheckSecrets(clients: seq<ClientConfig>, secrets: Secrets) returns (fault: Option<RegistryError>)
    requires DistinctIds(clients)
    ensures fault == None <==> SecretsFit(clients, secrets)
    ensures fault.Some? ==>
      && fault.value.SecretConfig?
      && exists k: nat :: FirstUnfit(clients, secrets, k, fault.value.id)
                          || FirstWithout(clients, secrets, k, fault.value.id)
  {
    for i := 0 to |secrets|
      invariant forall j :: 0 <= j < i ==> SecretFits(clients, secrets[j])
    {
      var owner := Find(clients, secrets[i].0);
      FindIsFirst(clients, secrets[i].0);
      assert HasConfidential(clients, secrets[i].0) <==> owner.Some? && owner.value.clientType == Confidential by {
        if HasConfidential(clients, secrets[i].0) {
          var k :| 0 <= k < |clients| && clients[k].clientId == secrets[i].0 && clients[k].clientType == Confidential;
          FindIsLookup(clients, k);
        }
      }
      if owner == None || owner.value.clientType != Confidential || |secrets[i].1| < 16 {
        assert FirstUnfit(clients, secrets, i, secrets[i].0);
        return Some(SecretConfig(secrets[i].0));
      }
    }
    for i := 0 to |clients|
      invariant forall j :: 0 <= j < i && clients[j].clientType == Confidential ==>
          HasSecret(secrets, clients[j].clientId)
    {
      if clients[i].clientType == Confidential
        && !(exists k :: 0 <= k < |secrets| && secrets[k].0 == clients[i].clientId) {
        assert FirstWithout(clients, secrets, i, clients[i].clientId);
        return Some(SecretConfig(clients[i].clientId));
      }
    }
    fault := None;
  }

  /** `build_registry` on the decoded documents. It accepts exactly the
      well-formed registries and changes nothing in them. */
  method BuildRegistry(policy: UriPolicy, raw: seq<ClientConfig>, secrets: Secrets)
    returns (clients: seq<ClientConfig>, fault: Option<RegistryError>)
    ensures fault == None <==> RegistryOk(policy, raw, secrets)
    ensures fault == None ==> clients == raw
    ensures fault.Some? ==> IsFirstRegistryFault(policy, raw, secrets, fault.value)
  {
    clients := [];
    if raw == [] { return clients, Some(Empty); }
    for i := 0 to |raw|
      invariant clients == raw[..i] && DistinctIds(clients)
      invariant forall j :: 0 <= j < i ==> IsValidClient(policy, raw[j])
    {
      fault := ValidateClient(policy, raw[i]);
      if fault.Some? {
        assert FirstBadClient(policy, raw, i, fault.value);
        return;
      }
      FindIsFirst(clients, raw[i].clientId);
      if Find(clients, raw[i].clientId).Some? {
        assert FirstBadClient(policy, raw, i, InvalidClientId(raw[i].clientId));
        return clients, Some(InvalidClientId(raw[i].clientId));
      }
      clients := clients + [raw[i]];
    }
    assert clients == raw;
    fault := CheckSecrets(clients, secrets);
  }

  /** The `client_secrets` map of the configuration: a later pair wins. */
  function SecretMap(secrets: Secrets): map<string, string> {
    if secrets == [] then map[]
    else
      var n := |secrets| - 1;
      SecretMap(secrets[..n])[secrets[n].0 := secrets[n].1]
  }

  lemma {:induction false} SecretMapKeys(secrets: Secrets, id: string)
    ensures id in SecretMap(secrets) <==> HasSecret(secrets, id)
    ensures id in SecretMap(secrets) ==> (id, SecretMap(secrets)[id]) in secrets
  {
    if secrets != [] {
      var n := |secrets| - 1;
      SecretMapKeys(secrets[..n], id);
      assert secrets == secrets[..n] + [secrets[n]];
    }
  }

  /** `value` is what the last pair under `id` says. */
  ghost predicate LastSecret(secrets: Secrets, id: string, value: string) {
    exists k :: 0 <= k < |secrets| && secrets[k] == (id, value) && forall j :: k < j < |secrets| ==> secrets[j].0 != id
  }

  /** The map holds the last pair of each id. */
  lemma {:induction false} SecretMapIsLast(secrets: Secrets, id: string, value: string)
    ensures id in SecretMap(secrets) && SecretMap(secrets)[id] == value <==> LastSecret(secrets, id, value)
  {
    if secrets != [] {
      var n := |secrets| - 1;
      SecretMapIsLast(secrets[..n], id, value);
      if secrets[n].0 != id {
        if LastSecret(secrets, id, value) {
          var k :| 0 <= k < |secrets| && secrets[k] == (id, value)
                   && forall j :: k < j < |secrets| ==> secrets[j].0 != id;
          assert secrets[..n][k] == secrets[k];
        }
        if LastSecret(secrets[..n], id, value) {
          var k :| 0 <= k < n && secrets[..n][k] == (id, value) && forall j :: k < j < n ==> secrets[..n][j].0 != id;
          assert secrets[k] == (id, value);
        }
      }
    }
  }

  /** In an accepted configuration a client has a secret exactly when it is
      confidential, and that secret has at least 16 bytes. */
  lemma SecretsAreForConfidential(policy: UriPolicy, clients: seq<ClientConfig>, secrets: Secrets, id: string)
    requires RegistryOk(policy, clients, secrets)
    ensures id in SecretMap(secrets)
      <==> Find(clients, id).Some? && Find(clients, id).value.clientType == Confidential
    ensures id in SecretMap(secrets) ==> |SecretMap(secrets)[id]| >= 16
  {
    SecretMapKeys(secrets, id);
    FindIsFirst(clients, id);
    if id in SecretMap(secrets) {
      var k :| 0 <= k < |secrets| && secrets[k] == (id, SecretMap(secrets)[id]);
      assert HasConfidential(clients, secrets[k].0);
      var c :| 0 <= c < |clients| && clients[c].clientId == id && clients[c].clientType == Confidential;
      FindIsLookup(clients, c);
    }
  }
}
