/** Client resolution: the static registry first, then active dynamic clients
    (crates/oidc-core/src/resolver.rs), over one provider configuration. */
module Resolver {
  import opened Basics
  import opened Client
  import opened ClientRecords
  import opened Registry
  import opened Form

  /** The validated configuration together with the library behaviour the
      provider relies on. */
  datatype Config = Config(
    sha: Digest, lossy: Lossy, policy: UriPolicy,
    issuer: string, guild: string, clients: seq<ClientConfig>, secrets: map<string, string>, idTokenTtl: int)

  /** `RegistryResolver::find_client`. */
  function FindClient(cfg: Config, records: Records, id: string): Option<ClientConfig> {
    match Find(cfg.clients, id)
    case Some(c) => Some(c)
    case None =>
      if IsDynamicClientId(id) && id in records && records[id].status == Active then Some(ToConfig(records[id]))
        else None
  }

  /** Whether resolving `id` reads the dynamic registry, and so can fail. */
  predicate ReadsRegistry(cfg: Config, id: string) { Find(cfg.clients, id) == None && IsDynamicClientId(id) }

  /** `RegistryResolver::verify_client_secret`. */
  predicate VerifyClientSecret(cfg: Config, records: Records, id: string, presented: string, now: int) {
    if Find(cfg.clients, id).Some? then id in cfg.secrets && cfg.secrets[id] == presented
    else IsDynamicClientId(id) && id in records && VerifySecret(cfg.sha, records[id], presented, now)
  }

  /** What every reachable dynamic registry satisfies: records sit under their
      own id, ids have the dynamic format and shadow no static client, and each
      record is in order. */
  ghost predicate RegistryInv(cfg: Config, records: Records) {
    && KeyedById(records)
    && forall id :: id in records ==>
         IsDynamicClientId(id) && Find(cfg.clients, id) == None && RecordOk(cfg.policy, records[id])
  }

  /** A static configuration as `build_registry` accepts it. */
  ghost predicate ConfigOk(cfg: Config) {
    exists secrets: Secrets :: RegistryOk(cfg.policy, cfg.clients, secrets) && cfg.secrets == SecretMap(secrets)
  }

  /** A resolved client has the requested id, at least one redirect URI and
      only valid ones, the `openid` scope and the authentication method of its
      type. */
  lemma ResolvedClient(cfg: Config, records: Records, id: string)
    requires ConfigOk(cfg) && RegistryInv(cfg, records) && FindClient(cfg, records, id).Some?
    ensures var c := FindClient(cfg, records, id).value;
            && c.clientId == id && |id| <= 128
            && c.redirectUris != [] && (forall u :: u in c.redirectUris ==> cfg.policy(u))
            && "openid" in c.allowedScopes && MethodMatchesType(c.clientType, c.authMethod)
  {
    FindIsFirst(cfg.clients, id);
  }

  /** A secret verifies only for a client that resolves and is confidential,
      static or dynamic. */
  lemma SecretsVerifyOnlyForConfidential(cfg: Config, records: Records, id: string, presented: string, now: int)
    requires ConfigOk(cfg) && RegistryInv(cfg, records) && VerifyClientSecret(cfg, records, id, presented, now)
    ensures FindClient(cfg, records, id).Some? && FindClient(cfg, records, id).value.clientType == Confidential
  {
    var secrets: Secrets :| RegistryOk(cfg.policy, cfg.clients, secrets) && cfg.secrets == SecretMap(secrets);
    SecretsAreForConfidential(cfg.policy, cfg.clients, secrets, id);
  }

  /** Static clients are immutable and always win; every active dynamic record
      is exactly what its id resolves to, so nothing is shadowed. */
  lemma NoShadowing(cfg: Config, records: Records, id: string)
    requires RegistryInv(cfg, records)
    ensures id in records ==>
      FindClient(cfg, records, id) == (if records[id].status == Active then Some(ToConfig(records[id])) else None)
    ensures id !in records ==> FindClient(cfg, records, id) == Find(cfg.clients, id)
  {
  }

  // ---------- Registry changes made by the admin API ----------

  datatype AdminOp = Insert(record: ClientRecord) | Modify(id: string, op: RecordOp)

  /** The registry calls that the admin handlers' guards let through. */
  ghost predicate Permitted(cfg: Config, op: AdminOp) {
    match op
    case Insert(r) =>
      && IsDynamicClientId(r.clientId) && Find(cfg.clients, r.clientId) == None
      && MetadataOk(cfg.policy, r.metadata) && (r.currentHash.Some? <==> r.clientType == Confidential)
      && r == NewRecord(r.clientId, r.metadata, r.clientType, r.currentHash, r.createdAt)
    case Modify(id, o) =>
      && IsDynamicClientId(id) && Find(cfg.clients, id) == None
      && (o.Update? ==> MetadataOk(cfg.policy, o.metadata))
  }

  function Administered(records: Records, op: AdminOp): Records {
    match op
    case Insert(r) => Inserted(records, r)
    case Modify(id, o) => Changed(records, id, o)
  }

  /** What no operation changes in a record. */
  predicate SameIdentity(r: ClientRecord, r': ClientRecord) {
    && r'.clientId == r.clientId && r'.clientType == r.clientType && r'.authMethod == r.authMethod
    && r'.allowedScopes == r.allowedScopes && r'.createdAt == r.createdAt
  }

  /** A permitted operation keeps the registry in order, removes no record,
      changes no identity, and leaves static clients resolving as before. */
  lemma AdministeredKeeps(cfg: Config, records: Records, op: AdminOp)
    requires RegistryInv(cfg, records) && Permitted(cfg, op)
    ensures RegistryInv(cfg, Administered(records, op))
    ensures forall id :: id in records ==>
      id in Administered(records, op) && SameIdentity(records[id], Administered(records, op)[id])
    ensures forall id :: Find(cfg.clients, id).Some? ==>
        FindClient(cfg, Administered(records, op), id) == Find(cfg.clients, id)
  {
    match op
    case Insert(r) =>
      NewRecordOk(cfg.policy, r.clientId, r.metadata, r.clientType, r.currentHash, r.createdAt);
    case Modify(id, o) =>
      if id in records { ApplyKeepsRecord(cfg.policy, records[id], o, o.now); }
  }

  /** The id an operation is about. */
  function TargetOf(op: AdminOp): string { if op.Insert? then op.record.clientId else op.id }

  /** An operation touches no other client: an insertion adds its record under
      a free id and does nothing under a taken one, any other operation changes
      its own record or, if there is none, nothing. */
  lemma AdministeredTouchesOne(records: Records, op: AdminOp)
    ensures var after, id := Administered(records, op), TargetOf(op);
            && (forall other :: other != id ==> Lookup(after, other) == Lookup(records, other))
            && (op.Insert? ==> Lookup(after, id) == (if id in records then Lookup(records, id) else Some(op.record)))
            && (op.Modify? ==> (id in after <==> id in records))
  {
  }

  function AdministeredAll(records: Records, ops: seq<AdminOp>): Records {
    if ops == [] then records else Administered(AdministeredAll(records, ops[..|ops| - 1]), ops[|ops| - 1])
  }

  function OpTime(op: AdminOp): int { if op.Insert? then op.record.createdAt else op.op.now }

  /** Every registry reachable from the empty one by permitted operations is in order. */
  lemma {:induction false} ReachableRegistry(cfg: Config, ops: seq<AdminOp>)
    requires forall op :: op in ops ==> Permitted(cfg, op)
    ensures RegistryInv(cfg, AdministeredAll(map[], ops))
  {
    if ops != [] {
      var n := |ops| - 1;
      assert ops[n] in ops && forall op :: op in ops[..n] ==> op in ops;
      ReachableRegistry(cfg, ops[..n]);
      AdministeredKeeps(cfg, AdministeredAll(map[], ops[..n]), ops[n]);
    }
  }

  /** The times of a run never decrease. */
  ghost predicate Monotone(ops: seq<AdminOp>) { forall i, j :: 0 <= i < j < |ops| ==> OpTime(ops[i]) <= OpTime(ops[j]) }

  /** If the clock never ran backwards, creation, disabling and last update are
      in that order in every record, and none lies in the future. */
  lemma {:induction false} ReachableTimes(cfg: Config, ops: seq<AdminOp>, id: string, now: int)
    requires forall op :: op in ops ==> Permitted(cfg, op)
    requires Monotone(ops) && (ops != [] ==> OpTime(ops[|ops| - 1]) <= now)
    requires id in AdministeredAll(map[], ops)
    ensures TimesOk(AdministeredAll(map[], ops)[id], now)
  {
    var n := |ops| - 1;
    assert ops[n] in ops && forall op :: op in ops[..n] ==> op in ops;
    var before, op := AdministeredAll(map[], ops[..n]), ops[n];
    ReachableRegistry(cfg, ops[..n]);
    if id in before {
      if n > 0 { assert OpTime(ops[n - 1]) <= OpTime(op); }
      ReachableTimes(cfg, ops[..n], id, OpTime(op));
      if op.Modify? && op.id == id { ApplyKeepsRecord(cfg.policy, before[id], op.op, OpTime(op)); }
    }
  }
}
