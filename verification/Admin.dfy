/** The admin API for dynamic clients (crates/oidc-core/src/admin.rs), after
    its bearer check and over decoded bodies. */
module Admin {
  import opened Basics
  import opened Client
  import opened ClientRecords
  import opened Registry
  import opened Resolver
  import opened Util
  import opened Text

  const MAX_ID_ATTEMPTS := 4

  datatype AdminBody =
    | Undecodable
    | CreateBody(displayName: string, owner: string, redirectUris: seq<string>, clientType: ClientType)
    | UpdateBody(displayName: string, owner: string, redirectUris: seq<string>)

  datatype ErrorCode = InvalidRequest | ClientNotFound | StorageError | PathNotFound | BadVerb
                     | StaticClientImmutable | ClientHasNoSecret

  datatype AdminResponse =
    | Created(created: ClientRecord, plaintext: Option<string>)
    | StaticView(client: ClientConfig)
    | DynamicView(record: ClientRecord)
    | AllClients(statics: seq<ClientConfig>, dynamic: seq<ClientRecord>)
    | SecretRotated(id: string, secret: string, previousValidUntil: Option<int>)
    | AdminError(status: int, code: ErrorCode)

  /** A registry change as one optional permitted operation. */
  ghost function Outcome(records: Records, op: Option<AdminOp>): Records {
    if op.None? then records else Administered(records, op.value)
  }

  /** The `k`-th id drawn after `start` bytes of the stream are used. */
  ghost function DrawnId(entropy: EntropySource, start: nat, k: nat): string {
    ClientIdText(seq(CLIENT_ID_BYTES,
                     i requires 0 <= i < CLIENT_ID_BYTES => entropy.stream(start + CLIENT_ID_BYTES * k + i)))
  }

  /** The ids the four attempts of `create_client` draw: a confidential
      client's secret takes the first 32 bytes. */
  ghost function AttemptIds(entropy: EntropySource, clientType: ClientType): (ids: seq<string>)
    reads entropy`used
    ensures |ids| == MAX_ID_ATTEMPTS
  {
    var start := entropy.used + (if clientType == Confidential then TOKEN_BYTES else 0);
    seq(MAX_ID_ATTEMPTS, k requires 0 <= k < MAX_ID_ATTEMPTS => DrawnId(entropy, start, k))
  }

  ghost predicate Collides(cfg: Config, records: Records, id: string) {
    Find(cfg.clients, id).Some? || id in records
  }

  /** The loop goes on to another id: this one is static, or the registry
      answered that it is taken. */
  ghost predicate Skips(cfg: Config, records: Records, id: string, fault: Fault) {
    Find(cfg.clients, id).Some? || (fault == Delivered && id in records)
  }

  /** The loop ends at attempt `k`. */
  ghost predicate StopsAt(cfg: Config, records: Records, ids: seq<string>, faults: seq<Fault>, k: nat) {
    && k < |ids| == |faults| && !Skips(cfg, records, ids[k], faults[k])
    && forall j :: 0 <= j < k ==> Skips(cfg, records, ids[j], faults[j])
  }

  /** The registry's answer to the last attempt arrived, so it says "inserted". */
  ghost predicate Confirmed(cfg: Config, records: Records, ids: seq<string>, faults: seq<Fault>) {
    exists k: nat :: StopsAt(cfg, records, ids, faults, k) && faults[k] == Delivered
  }

  /** The last attempt inserted a record under a free id and its answer was lost. */
  ghost predicate LostInsert(cfg: Config, records: Records, ids: seq<string>, faults: seq<Fault>) {
    exists k: nat :: StopsAt(cfg, records, ids, faults, k) && faults[k] == LostReply && !Collides(cfg, records, ids[k])
  }

  /** `id` is the first of `ids` that no static or dynamic client has. */
  ghost predicate FirstFree(cfg: Config, records: Records, ids: seq<string>, id: string) {
    && !Collides(cfg, records, id)
    && exists k :: 0 <= k < |ids| && ids[k] == id && forall j :: 0 <= j < k ==> Collides(cfg, records, ids[j])
  }

  lemma OneStop(cfg: Config, records: Records, ids: seq<string>, faults: seq<Fault>, a: nat, b: nat)
    requires StopsAt(cfg, records, ids, faults, a) && StopsAt(cfg, records, ids, faults, b)
    ensures a == b
  {
  }

  method GenerateClientId(entropy: EntropySource) returns (id: string)
    modifies entropy`used
    ensures entropy.used == old(entropy.used) + CLIENT_ID_BYTES
    ensures id == ClientIdText(old(entropy.Upcoming(CLIENT_ID_BYTES))) && IsDynamicClientId(id)
  {
    var buf := new byte[CLIENT_ID_BYTES](i => 0);
    entropy.FillBytes(buf);
    id := ClientIdText(buf[..]);
    GeneratedIdIsDynamic(buf[..]);
  }

  /** What the loop leaves behind when it ends at attempt `k`. */
  lemma StopDecides(cfg: Config, records: Records, ids: seq<string>, faults: seq<Fault>, k: nat)
    requires StopsAt(cfg, records, ids, faults, k)
    ensures Confirmed(cfg, records, ids, faults) <==> faults[k] == Delivered
    ensures LostInsert(cfg, records, ids, faults) <==> faults[k] == LostReply && !Collides(cfg, records, ids[k])
    ensures !Collides(cfg, records, ids[k]) ==> FirstFree(cfg, records, ids, ids[k])
  {
    forall j: nat | StopsAt(cfg, records, ids, faults, j) ensures j == k { OneStop(cfg, records, ids, faults, j, k); }
    assert forall j :: 0 <= j < k ==> Skips(cfg, records, ids[j], faults[j]) ==> Collides(cfg, records, ids[j]);
  }

  /** One insertion: `None` is a storage error. */
  method TryInsert(registry: InMemoryClientRegistry, record: ClientRecord, fault: Fault)
    returns (inserted: Option<bool>)
    requires KeyedById(registry.records)
    modifies registry
    ensures inserted == if fault == Delivered then Some(record.clientId !in old(registry.records)) else None
    ensures registry.records ==
      if fault == LostRequest then old(registry.records) else Inserted(old(registry.records), record)
  {
    var answer := Ask(registry, InsertOp(record), fault);
    inserted := if answer.InsertedAnswer? then Some(answer.inserted) else None;
  }

  /** The insertion loop of `create_client`, each attempt with its own fault.
      `added` is the record that is in the registry afterwards and was not
      before: there is one exactly when the insertion was confirmed or only its
      answer was lost, and it is under the first drawn id that is neither
      static nor taken. `r` is that record when it was confirmed. */
  method InsertFresh(cfg: Config, registry: InMemoryClientRegistry, entropy: EntropySource,
                     m: Metadata, t: ClientType, hash: Option<string>, now: int, faults: seq<Fault>,
                     ghost ids: seq<string>)
    returns (r: Option<ClientRecord>, ghost added: Option<ClientRecord>)
    requires KeyedById(registry.records) && |ids| == |faults| == MAX_ID_ATTEMPTS
    requires forall k :: 0 <= k < MAX_ID_ATTEMPTS ==> ids[k] == DrawnId(entropy, entropy.used, k)
    modifies registry, entropy`used
    ensures r.Some? <==> Confirmed(cfg, old(registry.records), ids, faults)
    ensures added.Some? <==> r.Some? || LostInsert(cfg, old(registry.records), ids, faults)
    ensures r.Some? ==> added == r
    ensures added.Some? ==>
      && added.value == NewRecord(added.value.clientId, m, t, hash, now) && IsDynamicClientId(added.value.clientId)
      && FirstFree(cfg, old(registry.records), ids, added.value.clientId)
      && registry.records == old(registry.records)[added.value.clientId := added.value]
    ensures added.None? ==> registry.records == old(registry.records)
  {
    added := None;
    for attempt := 0 to MAX_ID_ATTEMPTS
      invariant registry.records == old(registry.records) && added.None?
      invariant entropy.used == old(entropy.used) + CLIENT_ID_BYTES * attempt
      invariant forall j :: 0 <= j < attempt ==> Skips(cfg, old(registry.records), ids[j], faults[j])
    {
      var id := GenerateClientId(entropy);
      assert id == ids[attempt];
      if Find(cfg.clients, id) == None {
        var record := NewRecord(id, m, t, hash, now);
        var inserted := TryInsert(registry, record, faults[attempt]);
        if inserted != Some(false) {
          StopDecides(cfg, old(registry.records), ids, faults, attempt);
          added := if id !in old(registry.records) && faults[attempt] != LostRequest then Some(record) else None;
          r := if inserted == Some(true) then Some(record) else None;
          return;
        }
      }
    }
    r := None;
    assert forall k: nat :: !StopsAt(cfg, old(registry.records), ids, faults, k);
  }

  /** A create body whose metadata is in order. */
  ghost predicate ValidBody(cfg: Config, body: AdminBody) {
    body.CreateBody? && MetadataOk(cfg.policy, Metadata(Trim(body.displayName), body.owner, body.redirectUris))
  }

  /** The record is what the body asks for: of its type and with its metadata,
      new and active, and with the hash of `secret` exactly if confidential. */
  ghost predicate MadeFrom(cfg: Config, r: ClientRecord, body: AdminBody, secret: string, now: int) {
    && body.CreateBody? && r.clientType == body.clientType
    && r.metadata == Metadata(Trim(body.displayName), body.owner, body.redirectUris)
    && r.status == Active && r.createdAt == r.updatedAt == now && r.disabledAt == None
    && r.currentHash == (if body.clientType == Confidential then Some(HashText(cfg.sha, secret)) else None)
    && r.previousHash == None && r.previousValidUntil == None
  }

  /** `id` resolves to an `openid` client of type `t` with these redirect URIs. */
  ghost predicate ResolvesTo(cfg: Config, records: Records, id: string, uris: seq<string>, t: ClientType) {
    && FindClient(cfg, records, id).Some?
    && var c := FindClient(cfg, records, id).value;
       && c.clientId == id && c.redirectUris == uris && c.clientType == t && MethodMatchesType(t, c.authMethod)
       && c.allowedScopes == ["openid"]
  }

  lemma CreatedIsMade(cfg: Config, records: Records, r: ClientRecord, body: AdminBody, secret: string, now: int)
    requires ValidBody(cfg, body) && IsDynamicClientId(r.clientId) && !Collides(cfg, records, r.clientId)
    requires r == NewRecord(r.clientId, Metadata(Trim(body.displayName), body.owner, body.redirectUris),
                            body.clientType,
                            if body.clientType == Confidential then Some(HashText(cfg.sha, secret)) else None, now)
    ensures MadeFrom(cfg, r, body, secret, now) && Permitted(cfg, Insert(r))
    ensures ResolvesTo(cfg, records[r.clientId := r], r.clientId, body.redirectUris, body.clientType)
    ensures body.clientType == Confidential ==>
      VerifyClientSecret(cfg, records[r.clientId := r], r.clientId, secret, now)
  {
    assert FindClient(cfg, records[r.clientId := r], r.clientId) == Some(ToConfig(r));
  }

  function AskedType(body: AdminBody): ClientType { if body.CreateBody? then body.clientType else Public }

  /** The one record a creation leaves behind: under the first drawn id that is
      neither static nor taken, as the body asks, and resolving with the body's
      redirect URIs and type. */
  ghost predicate Added(cfg: Config, before: Records, after: Records, ids: seq<string>, secret: string, body: AdminBody,
                        now: int, op: AdminOp) {
    && op.Insert? && FirstFree(cfg, before, ids, op.record.clientId)
    && after == before[op.record.clientId := op.record]
    && MadeFrom(cfg, op.record, body, secret, now)
    && ResolvesTo(cfg, after, op.record.clientId, body.redirectUris, body.clientType)
  }

  /** The answer to a creation: 201 exactly when the body is valid and the
      registry confirms an insertion, with the new record and, for a
      confidential client, the secret drawn for it, which verifies. Any other
      answer leaves the registry as it was, exactly unless an insertion took
      effect and its answer was lost. */
  ghost predicate CreateServed(cfg: Config, before: Records, after: Records, ids: seq<string>, secret: string,
                               body: AdminBody, faults: seq<Fault>, now: int, resp: AdminResponse,
                               op: Option<AdminOp>) {
    && (resp.Created? <==> ValidBody(cfg, body) && Confirmed(cfg, before, ids, faults))
    && (op.Some? <==> resp.Created? || (ValidBody(cfg, body) && LostInsert(cfg, before, ids, faults)))
    && (after == before <==> op.None?)
    && (op.Some? ==> Added(cfg, before, after, ids, secret, body, now, op.value))
    && if resp.Created? then
         && op == Some(Insert(resp.created))
         && resp.plaintext == (if body.clientType == Confidential then Some(secret) else None)
         && (resp.plaintext.Some? ==> VerifyClientSecret(cfg, after, resp.created.clientId, secret, now))
       else resp == if ValidBody(cfg, body) then AdminError(500, StorageError) else AdminError(400, InvalidRequest)
  }

  /** `create_client`: the ids and the secret are those drawn next. */
  method CreateClient(cfg: Config, registry: InMemoryClientRegistry, entropy: EntropySource, body: AdminBody,
                      faults: seq<Fault>, now: int)
    returns (resp: AdminResponse, ghost op: Option<AdminOp>)
    requires KeyedById(registry.records) && |faults| == 4
    modifies registry, entropy`used
    ensures registry.records == Outcome(old(registry.records), op) && (op.Some? ==> Permitted(cfg, op.value))
    ensures CreateServed(cfg, old(registry.records), registry.records, old(AttemptIds(entropy, AskedType(body))),
                         TokenText(old(entropy.Upcoming(32))), body, faults, now, resp, op)
  {
    op := None;
    if !body.CreateBody? { return AdminError(400, InvalidRequest), op; }
    var v := ValidateMetadata(cfg.policy, body.displayName, body.owner, body.redirectUris);
    if v.Invalid? { return AdminError(400, InvalidRequest), op; }
    ghost var ids := AttemptIds(entropy, body.clientType);
    ghost var secret := TokenText(entropy.Upcoming(32));
    var plaintext: Option<string> := None;
    if body.clientType == Confidential {
      var token, _ := RandomToken(entropy);
      plaintext := Some(token);
    }
    var hash := if plaintext.Some? then Some(HashText(cfg.sha, plaintext.value)) else None;
    var r, added := InsertFresh(cfg, registry, entropy, v.metadata, body.clientType, hash, now, faults, ids);
    if added.Some? {
      CreatedIsMade(cfg, old(registry.records), added.value, body, secret, now);
      op := Some(Insert(added.value));
    }
    if r == None { return AdminError(500, StorageError), op; }
    resp := Created(r.value, plaintext);
  }

  /** `static_conflict` then `dynamic_id_or_not_found`. */
  function Guard(cfg: Config, id: string): Option<AdminResponse> {
    if Find(cfg.clients, id).Some? then Some(AdminError(409, StaticClientImmutable))
    else if !IsDynamicClientId(id) then Some(AdminError(404, ClientNotFound))
    else None
  }

  function ViewOrNotFound(r: Option<ClientRecord>): AdminResponse {
    if r.Some? then DynamicView(r.value) else AdminError(404, ClientNotFound)
  }

  /** The answer to a call for one record. */
  function ViewOf(answer: Answer): AdminResponse {
    if answer.Found? then ViewOrNotFound(answer.record) else AdminError(500, StorageError)
  }

  /** The record as it is now, or why there is none to show. */
  ghost function Viewed(records: Records, id: string, fault: Fault): AdminResponse {
    if fault != Delivered then AdminError(500, StorageError)
    else if id in records then DynamicView(records[id])
    else AdminError(404, ClientNotFound)
  }

  /** The operation that took place, if the request arrived. */
  ghost function Arrived(op: AdminOp, fault: Fault): Option<AdminOp> { if fault == LostRequest then None else Some(op) }

  /** The client is as before but for its metadata, and still resolves, if it
      is active, now with exactly the new redirect URIs. */
  ghost predicate Updated(cfg: Config, before: ClientRecord, records: Records, id: string, m: Metadata, now: int) {
    && id in records && records[id].metadata == m && records[id].updatedAt == now
    && SameIdentity(before, records[id]) && records[id].status == before.status
    && records[id].disabledAt == before.disabledAt && SameSecrets(before, records[id])
    && if before.status == Active then ResolvesTo(cfg, records, id, m.redirectUris, before.clientType)
       else FindClient(cfg, records, id) == None
  }

  predicate SameSecrets(r: ClientRecord, r': ClientRecord) {
    && r'.currentHash == r.currentHash && r'.previousHash == r.previousHash
    && r'.previousValidUntil == r.previousValidUntil
  }

  /** The metadata an update body asks for. */
  function BodyMetadata(body: AdminBody): Option<Metadata> {
    if body.UpdateBody? then Some(Metadata(Trim(body.displayName), body.owner, body.redirectUris)) else None
  }

  /** The answer to an update. A valid body that arrives at a known client
      replaces its metadata and nothing else. Storage errors are answered exactly
      when the call failed, and a failed call still changed the registry when
      only its answer was lost. */
  ghost predicate UpdateServed(cfg: Config, before: Records, after: Records, id: string, body: AdminBody, fault: Fault,
                               now: int, resp: AdminResponse, op: Option<AdminOp>) {
    var m := BodyMetadata(body);
    if Guard(cfg, id).Some? then op == None && resp == Guard(cfg, id).value
    else if m == None || !MetadataOk(cfg.policy, m.value) then op == None && resp == AdminError(400, InvalidRequest)
    else
      && op == Arrived(Modify(id, Update(m.value, now)), fault)
      && resp == Viewed(after, id, fault)
      && (op.Some? && id in before ==> Updated(cfg, before[id], after, id, m.value, now))
  }

  /** `update_client`. */
  method UpdateClient(cfg: Config, registry: InMemoryClientRegistry, id: string, body: AdminBody, fault: Fault,
                      now: int)
    returns (resp: AdminResponse, ghost op: Option<AdminOp>)
    requires RegistryInv(cfg, registry.records)
    modifies registry
    ensures registry.records == Outcome(old(registry.records), op) && (op.Some? ==> Permitted(cfg, op.value))
    ensures UpdateServed(cfg, old(registry.records), registry.records, id, body, fault, now, resp, op)
  {
    op := None;
    var guard := Guard(cfg, id);
    if guard.Some? { return guard.value, op; }
    if !body.UpdateBody? { return AdminError(400, InvalidRequest), op; }
    var v := ValidateMetadata(cfg.policy, body.displayName, body.owner, body.redirectUris);
    if v.Invalid? { return AdminError(400, InvalidRequest), op; }
    op := Arrived(Modify(id, Update(v.metadata, now)), fault);
    var answer := Ask(registry, UpdateOp(id, v.metadata, now), fault);
    resp := ViewOf(answer);
  }

  /** The client is as before but for its status: it is in the one asked for,
      resolves exactly if that is active, and was left alone if it had it. */
  ghost predicate StatusSet(cfg: Config, before: ClientRecord, records: Records, id: string, status: Status, now: int) {
    && id in records && records[id].status == status && SameIdentity(before, records[id])
    && records[id].metadata == before.metadata && SameSecrets(before, records[id])
    && (before.status == status ==> records[id] == before)
    && (before.status != status ==> records[id].updatedAt == now
                                    && records[id].disabledAt == if status == Disabled then Some(now) else None)
    && if status == Active then ResolvesTo(cfg, records, id, before.metadata.redirectUris, before.clientType)
       else FindClient(cfg, records, id) == None
  }

  /** The answer to a status change. */
  ghost predicate StatusServed(cfg: Config, before: Records, after: Records, id: string, status: Status, fault: Fault,
                               now: int, resp: AdminResponse, op: Option<AdminOp>) {
    if Guard(cfg, id).Some? then op == None && resp == Guard(cfg, id).value
    else
      && op == Arrived(Modify(id, StatusOp(status, now)), fault)
      && resp == Viewed(after, id, fault)
      && (op.Some? && id in before ==> StatusSet(cfg, before[id], after, id, status, now))
      && (resp.DynamicView? ==> resp.record.status == status)
  }

  /** `set_status`. */
  method SetStatus(cfg: Config, registry: InMemoryClientRegistry, id: string, status: Status, fault: Fault, now: int)
    returns (resp: AdminResponse, ghost op: Option<AdminOp>)
    requires RegistryInv(cfg, registry.records)
    modifies registry
    ensures registry.records == Outcome(old(registry.records), op) && (op.Some? ==> Permitted(cfg, op.value))
    ensures StatusServed(cfg, old(registry.records), registry.records, id, status, fault, now, resp, op)
  {
    op := None;
    var guard := Guard(cfg, id);
    if guard.Some? { return guard.value, op; }
    op := Arrived(Modify(id, StatusOp(status, now)), fault);
    var answer := Ask(registry, StatusChange(id, status, now), fault);
    resp := ViewOf(answer);
  }

  /** Of an active client exactly two secrets verify after a rotation: the new
      one, and for the overlap the one it replaces. */
  ghost predicate SecretReplaced(cfg: Config, before: ClientRecord, records: Records, id: string, secret: string,
                                 now: int) {
    before.status == Active ==> forall s, t ::
      VerifyClientSecret(cfg, records, id, s, t)
      <==> HashText(cfg.sha, s) == HashText(cfg.sha, secret)
           || (before.currentHash == Some(HashText(cfg.sha, s)) && t < now + 600)
  }

  /** The client is as before but for its secrets. */
  ghost predicate OnlySecretsChanged(cfg: Config, before: Records, after: Records, id: string) {
    && id in before && id in after && SameIdentity(before[id], after[id])
    && after[id].metadata == before[id].metadata && after[id].status == before[id].status
    && after[id].disabledAt == before[id].disabledAt
    && FindClient(cfg, after, id) == FindClient(cfg, before, id)
  }

  /** The answer to a rotation: the new secret exactly when the call worked and
      the client is confidential. */
  ghost predicate RotationServed(cfg: Config, before: Records, after: Records, id: string, secret: string, fault: Fault,
                                 now: int, resp: AdminResponse, op: Option<AdminOp>) {
    if Guard(cfg, id).Some? then op == None && resp == Guard(cfg, id).value
    else
      && op == Arrived(Modify(id, Rotate(HashText(cfg.sha, secret), now)), fault)
      && (op.Some? && id in before ==> OnlySecretsChanged(cfg, before, after, id))
      && (op.Some? && id in before && before[id].clientType == Confidential ==>
          SecretReplaced(cfg, before[id], after, id, secret, now))
      && resp == if fault != Delivered then AdminError(500, StorageError)
                 else if id !in before then AdminError(404, ClientNotFound)
                 else if before[id].clientType != Confidential then AdminError(400, ClientHasNoSecret)
                 else SecretRotated(id, secret, Some(now + 600))
  }

  lemma RotationReplaces(cfg: Config, records: Records, id: string, secret: string, now: int)
    requires RegistryInv(cfg, records) && Guard(cfg, id) == None && id in records
    ensures var after := Changed(records, id, Rotate(HashText(cfg.sha, secret), now));
            && OnlySecretsChanged(cfg, records, after, id)
            && (records[id].clientType == Confidential ==> SecretReplaced(cfg, records[id], after, id, secret, now))
  {
  }

  /** `rotate_secret`: the returned plaintext is the token drawn next. */
  method RotateSecret(cfg: Config, registry: InMemoryClientRegistry, entropy: EntropySource, id: string, fault: Fault,
                      now: int)
    returns (resp: AdminResponse, ghost op: Option<AdminOp>)
    requires RegistryInv(cfg, registry.records)
    modifies registry, entropy`used
    ensures registry.records == Outcome(old(registry.records), op) && (op.Some? ==> Permitted(cfg, op.value))
    ensures RotationServed(cfg, old(registry.records), registry.records, id, TokenText(old(entropy.Upcoming(32))),
                           fault, now, resp, op)
  {
    op := None;
    var guard := Guard(cfg, id);
    if guard.Some? { return guard.value, op; }
    var secret, _ := RandomToken(entropy);
    var hash := HashText(cfg.sha, secret);
    if id in registry.records { RotationReplaces(cfg, registry.records, id, secret, now); }
    op := Arrived(Modify(id, Rotate(hash, now)), fault);
    var answer := Ask(registry, RotateOp(id, hash, now), fault);
    match answer {
      case RotatedAnswer(Rotated(r)) => resp := SecretRotated(r.clientId, secret, r.previousValidUntil);
      case RotatedAnswer(RotateNotFound) => resp := AdminError(404, ClientNotFound);
      case RotatedAnswer(NoSecret) => resp := AdminError(400, ClientHasNoSecret);
      case _ => resp := AdminError(500, StorageError);
    }
  }

  /** The answer to a read of one client: a static one as configured, a dynamic
      one as it is. */
  ghost predicate GetServed(cfg: Config, records: Records, id: string, fault: Fault, resp: AdminResponse) {
    resp == if Find(cfg.clients, id).Some? then StaticView(Find(cfg.clients, id).value)
            else if !IsDynamicClientId(id) then AdminError(404, ClientNotFound)
            else Viewed(records, id, fault)
  }

  method GetClient(cfg: Config, registry: InMemoryClientRegistry, id: string, fault: Fault)
    returns (resp: AdminResponse)
    requires KeyedById(registry.records)
    modifies registry
    ensures registry.records == old(registry.records) && GetServed(cfg, registry.records, id, fault, resp)
  {
    var c := Find(cfg.clients, id);
    if c.Some? { return StaticView(c.value); }
    if !IsDynamicClientId(id) { return AdminError(404, ClientNotFound); }
    var answer := Ask(registry, GetOp(id), fault);
    resp := ViewOf(answer);
  }

  method ListClients(cfg: Config, registry: InMemoryClientRegistry, fault: Fault) returns (resp: AdminResponse)
    requires KeyedById(registry.records)
    modifies registry
    ensures registry.records == old(registry.records)
    ensures resp == if fault == Delivered then AllClients(cfg.clients, Listing(registry.records))
      else AdminError(500, StorageError)
  {
    var answer := Ask(registry, ListOp, fault);
    resp := if answer.Listed? then AllClients(cfg.clients, answer.records) else AdminError(500, StorageError);
  }

  datatype AdminRoute = CollectionRoute | ClientRoute(id: string) | ActionRoute(id: string, action: string) | Unrouted

  /** The path dispatch of `handle_admin_request`. */
  function RouteOf(path: string): AdminRoute {
    match StripPrefix(path, ROOT)
    case None => Unrouted
    case Some(rest) =>
      if rest == "" then CollectionRoute
      else if rest[0] != '/' then Unrouted
      else
        var segments := Split(TrimSlashes(rest), '/');
        if segments[0] == "" then Unrouted
        else if |segments| == 1 then ClientRoute(segments[0])
        else if |segments| == 2 && KnownAction(segments[1]) then
          ActionRoute(segments[0], segments[1])
        else Unrouted
  }

  const ROOT := "/admin/clients"

  predicate KnownAction(action: string) { action in ["disable", "enable", "rotate-secret"] }

  /** The path is the root, then at least one slash, then `tail`. */
  ghost predicate IsUnder(path: string, tail: string) {
    exists n :: n >= 1 && path == "/admin/clients" + Slashes(n) + tail
  }

  lemma KnownActionIsPlain(action: string)
    requires KnownAction(action)
    ensures PlainSegment(action)
  {
  }

  lemma TailOfPath(path: string, tail: string)
    requires IsUnder(path, tail) && tail != "" && tail[0] != '/'
    ensures StripPrefix(path, ROOT).Some?
    ensures var rest := StripPrefix(path, ROOT).value; rest != "" && rest[0] == '/' && TrimSlashes(rest) == tail
  {
    var n :| n >= 1 && path == ROOT + Slashes(n) + tail;
    assert path == ROOT + (Slashes(n) + tail);
    StripPrefixOfConcat(ROOT, Slashes(n) + tail);
    TrimSlashesOf(n, tail);
  }

  /** A path that names a client, or a client and a known action, is routed to it. */
  lemma PathIsRouted(path: string, id: string, action: string)
    requires PlainSegment(id) && KnownAction(action)
    ensures IsUnder(path, id) ==> RouteOf(path) == ClientRoute(id)
    ensures IsUnder(path, id + "/" + action) ==> RouteOf(path) == ActionRoute(id, action)
  {
    KnownActionIsPlain(action);
    SegmentsOf(id, action);
    assert (id + "/" + action)[0] == id[0];
    if IsUnder(path, id) { TailOfPath(path, id); }
    if IsUnder(path, id + "/" + action) { TailOfPath(path, id + "/" + action); }
  }

  lemma SegmentsArePlain(tail: string)
    ensures forall p :: p in Split(tail, '/') && p != "" ==> PlainSegment(p)
    ensures |Split(tail, '/')| == 1 ==> tail == Split(tail, '/')[0]
    ensures |Split(tail, '/')| == 2 ==> tail == Split(tail, '/')[0] + "/" + Split(tail, '/')[1]
  {
    SplitExact(tail, '/');
    assert forall p :: p in Split(tail, '/') ==> Lacks(p, '/');
    var parts := Split(tail, '/');
    if |parts| == 2 { assert Join(parts, "/") == parts[0] + "/" + Join(parts[1..], "/"); }
  }

  lemma RestIsUnder(path: string)
    requires StripPrefix(path, ROOT).Some?
    requires StripPrefix(path, ROOT).value != "" && StripPrefix(path, ROOT).value[0] == '/'
    ensures IsUnder(path, TrimSlashes(StripPrefix(path, ROOT).value))
  {
    var rest := StripPrefix(path, ROOT).value;
    var n := TrimSlashesExact(rest);
    assert path == ROOT + rest;
    assert path == ROOT + Slashes(n) + TrimSlashes(rest);
  }

  /** And what is routed names it: a client or action is only found in a path of
      the form given, and the collection only in the root itself. */
  lemma RouteNames(path: string)
    ensures RouteOf(path).CollectionRoute? <==> path == ROOT
    ensures RouteOf(path).ClientRoute? ==> PlainSegment(RouteOf(path).id) && IsUnder(path, RouteOf(path).id)
    ensures RouteOf(path).ActionRoute? ==>
      && PlainSegment(RouteOf(path).id) && KnownAction(RouteOf(path).action)
      && IsUnder(path, RouteOf(path).id + "/" + RouteOf(path).action)
  {
    if RouteOf(path).ClientRoute? || RouteOf(path).ActionRoute? {
      RestIsUnder(path);
      var tail := TrimSlashes(StripPrefix(path, ROOT).value);
      SegmentsArePlain(tail);
      assert Split(tail, '/')[0] in Split(tail, '/');
    }
    if RouteOf(path).CollectionRoute? { assert path == ROOT + ""; }
  }

  /** The dispatch, exactly: the root is the collection; the root, slashes and a
      plain id is that client; with a known action after it, that action. */
  lemma RouteExact(path: string, id: string, action: string)
    ensures RouteOf(path).CollectionRoute? <==> path == "/admin/clients"
    ensures RouteOf(path) == ClientRoute(id) <==> PlainSegment(id) && IsUnder(path, id)
    ensures RouteOf(path) == ActionRoute(id, action)
      <==> PlainSegment(id) && action in ["disable", "enable", "rotate-secret"] && IsUnder(path, id + "/" + action)
  {
    RouteNames(path);
    if PlainSegment(id) {
      assert KnownAction("enable");
      PathIsRouted(path, id, "enable");
      if KnownAction(action) { PathIsRouted(path, id, action); }
    }
  }

  function NamedId(route: AdminRoute): Option<string> {
    if route.ClientRoute? || route.ActionRoute? then Some(route.id) else None
  }

  /** The verbs a route answers. */
  predicate Allows(route: AdminRoute, verb: string) {
    match route
    case CollectionRoute => verb == "POST" || verb == "GET"
    case ClientRoute(_) => verb == "PUT" || verb == "GET"
    case ActionRoute(_, _) => verb == "POST"
    case Unrouted => false
  }

  /** `handle_admin_request` behind the bearer check. Each route and verb is
      served as its operation is, and anything else is refused. Whatever happens
      to the registry calls, the registry changes by at most one permitted
      operation and stays in order, and static clients resolve as before. */
  method HandleAdminRequest(cfg: Config, registry: InMemoryClientRegistry, entropy: EntropySource,
                            verb: string, path: string, body: AdminBody, faults: seq<Fault>, now: int)
    returns (resp: AdminResponse, ghost op: Option<AdminOp>)
    requires RegistryInv(cfg, registry.records) && |faults| == 4
    modifies registry, entropy`used
    ensures registry.records == Outcome(old(registry.records), op) && (op.Some? ==> Permitted(cfg, op.value))
    ensures RegistryInv(cfg, registry.records)
    ensures verb == "GET" || !Allows(RouteOf(path), verb) ==> op == None
    ensures !Allows(RouteOf(path), verb) ==>
      resp == if RouteOf(path).Unrouted? then AdminError(404, PathNotFound) else AdminError(405, BadVerb)
    ensures NamedId(RouteOf(path)).Some? && Allows(RouteOf(path), verb) && verb != "GET" ==>
      && var id := NamedId(RouteOf(path)).value;
         && (Find(cfg.clients, id).Some? ==> op == None && resp == AdminError(409, StaticClientImmutable))
         && (Find(cfg.clients, id) == None && !IsDynamicClientId(id) ==>
             op == None && resp == AdminError(404, ClientNotFound))
    ensures RouteOf(path).CollectionRoute? && verb == "POST" ==>
      CreateServed(cfg, old(registry.records), registry.records, old(AttemptIds(entropy, AskedType(body))),
                   TokenText(old(entropy.Upcoming(32))), body, faults, now, resp, op)
    ensures RouteOf(path).CollectionRoute? && verb == "GET" ==>
      if faults[0] != Delivered then resp == AdminError(500, StorageError)
      else resp.AllClients? && resp.statics == cfg.clients && IsListing(registry.records, resp.dynamic)
    ensures RouteOf(path).ClientRoute? && verb == "GET" ==>
      GetServed(cfg, registry.records, RouteOf(path).id, faults[0], resp)
    ensures RouteOf(path).ClientRoute? && verb == "PUT" ==>
      UpdateServed(cfg, old(registry.records), registry.records, RouteOf(path).id, body, faults[0], now, resp, op)
    ensures RouteOf(path).ActionRoute? && verb == "POST" && RouteOf(path).action == "rotate-secret" ==>
      RotationServed(cfg, old(registry.records), registry.records, RouteOf(path).id,
                     TokenText(old(entropy.Upcoming(32))), faults[0], now, resp, op)
    ensures RouteOf(path).ActionRoute? && verb == "POST" && RouteOf(path).action == "enable" ==>
      StatusServed(cfg, old(registry.records), registry.records, RouteOf(path).id, Active, faults[0], now, resp, op)
    ensures RouteOf(path).ActionRoute? && verb == "POST" && RouteOf(path).action == "disable" ==>
      StatusServed(cfg, old(registry.records), registry.records, RouteOf(path).id, Disabled, faults[0], now, resp, op)
    ensures forall id :: Find(cfg.clients, id).Some? ==> FindClient(cfg, registry.records, id) == Find(cfg.clients, id)
  {
    op := None;
    match RouteOf(path) {
      case CollectionRoute =>
        if verb == "POST" {
          resp, op := CreateClient(cfg, registry, entropy, body, faults, now);
        } else if verb == "GET" {
          resp := ListClients(cfg, registry, faults[0]);
        } else {
          resp := AdminError(405, BadVerb);
        }
      case ClientRoute(id) =>
        if verb == "GET" {
          resp := GetClient(cfg, registry, id, faults[0]);
        } else if verb == "PUT" {
          resp, op := UpdateClient(cfg, registry, id, body, faults[0], now);
        } else {
          resp := AdminError(405, BadVerb);
        }
      case ActionRoute(id, action) =>
        if verb != "POST" {
          resp := AdminError(405, BadVerb);
        } else if action == "rotate-secret" {
          resp, op := RotateSecret(cfg, registry, entropy, id, faults[0], now);
        } else {
          resp, op := SetStatus(cfg, registry, id, if action == "enable" then Active else Disabled, faults[0], now);
        }
      case Unrouted => resp := AdminError(404, PathNotFound);
    }
    if op.Some? { AdministeredKeeps(cfg, old(registry.records), op.value); }
  }
}
