/** What a dynamic client is at any moment of a run, told from the admin steps
    before: which redirect URIs it has and whether it is there at all. */
module RecordRuns {
  import opened Basics
  import opened Client
  import opened ClientRecords
  import opened Resolver
  import opened Protocol
  import opened Provenance
  import opened RotationRuns
  import Authorize

  /** The metadata of the last update, or of the creation if there was none. */
  ghost predicate IsCurrent(h: History, m: Metadata) {
    && h.Born?
    && (forall k: nat :: LastUpdate(h.ops, k) ==> m == h.ops[k].metadata)
    && ((forall k: nat :: !LastUpdate(h.ops, k)) ==> m == h.created.metadata)
  }

  /** What a client with this history resolves to, if it is active. */
  ghost predicate IsClientOf(h: History, id: string, c: ClientConfig) {
    && h.Born? && ActiveAfter(h.ops)
    && c.clientId == id && c.clientType == h.created.clientType && MethodMatchesType(c.clientType, c.authMethod)
    && c.allowedScopes == SUPPORTED_SCOPES
    && exists m :: IsCurrent(h, m) && c.redirectUris == m.redirectUris
  }

  lemma RecordIsClient(h: History, r: ClientRecord)
    requires h.Born? && r == ApplyAll(h.created, h.ops)
    ensures IsCurrent(h, r.metadata)
  {
    MetadataOfHistory(h.created, h.ops);
  }

  /** After any admin history a dynamic id resolves exactly while its client
      exists and is active, and then with the redirect URIs last given. */
  lemma ResolutionFollowsHistory(cfg: Config, ops: seq<AdminOp>, id: string)
    requires (forall op :: op in ops ==> Permitted(cfg, op)) && Find(cfg.clients, id) == None
    ensures var h, found := HistoryOf(ops, id), FindClient(cfg, AdministeredAll(map[], ops), id);
            && (found.Some? <==> h.Born? && ActiveAfter(h.ops))
            && (found.Some? ==> IsClientOf(h, id, found.value))
  {
    RecordIsHistory(cfg, ops, id);
    ReachableRegistry(cfg, ops);
    var h := HistoryOf(ops, id);
    if h.Born? {
      var r := h.created;
      BornAsNew(cfg, r);
      RecordIsClient(h, AdministeredAll(map[], ops)[id]);
      RunSummary(id, r.metadata, r.clientType,
                 Rotation(if r.currentHash.Some? then r.currentHash.value else "", r.createdAt), h.ops);
    }
  }

  /** The redirect URI on which a logged step sends or will send the browser on
      to the client that it has just resolved. */
  function UriUsed(e: Event): Option<string> {
    if e.Proceeded? || e.ClientResolved? then Some(e.tx.redirectUri)
    else if e.Refused? && e.answer.ErrorToClient? then Some(e.answer.uri)
    else None
  }

  lemma UriIsOfClient(cfg: Config, before: seq<Event>, e: Event)
    requires Justified(cfg, before, e) && UriUsed(e).Some? && RegistryInv(cfg, e.records)
    ensures FindClient(cfg, e.records, e.client.clientId) == Some(e.client)
    ensures UriUsed(e).value in e.client.redirectUris
  {
    if e.Proceeded? { RequestIsCarried(cfg, before, e); }
    if e.Refused? { Authorize.VerdictExact(e.pairs, e.client); }
    if e.ClientResolved? { FindIsFirst(cfg.clients, e.tx.clientId); }
  }

  /** In every interleaved run a dynamic client is authorized for, refused at
      and called back on no redirect URI but one of those it was given last,
      and only while it is active. */
  lemma RedirectUrisFollowUpdates(cfg: Config, actions: seq<Action>, k: nat)
    requires k < |Run(cfg, INIT, actions).log|
    requires var e := Run(cfg, INIT, actions).log[k];
             UriUsed(e).Some? && Find(cfg.clients, e.client.clientId) == None
    ensures k < |actions|
    ensures var e := Run(cfg, INIT, actions).log[k];
            && IsClientOf(HistoryAt(cfg, actions, k, e.client.clientId), e.client.clientId, e.client)
            && UriUsed(e).value in e.client.redirectUris
  {
    LogLength(cfg, INIT, actions);
    InvInit(cfg);
    RunKeepsInv(cfg, INIT, actions);
    var log := Run(cfg, INIT, actions).log;
    RecordsAreCurrent(cfg, actions, k);
    RunRegistry(cfg, actions[..k]);
    ReachableRegistry(cfg, AdminOps(cfg, actions[..k]));
    UriIsOfClient(cfg, log[..k], log[k]);
    ResolutionFollowsHistory(cfg, AdminOps(cfg, actions[..k]), log[k].client.clientId);
  }

  /** So a URI that the last update left out is used no more. */
  lemma RemovedUriIsUnused(cfg: Config, actions: seq<Action>, k: nat, update: nat)
    requires k < |Run(cfg, INIT, actions).log| && k < |actions|
    requires var e := Run(cfg, INIT, actions).log[k];
             && (e.Proceeded? || e.Refused? || e.ClientResolved?) && Find(cfg.clients, e.client.clientId) == None
             && var h := HistoryAt(cfg, actions, k, e.client.clientId); h.Born? && LastUpdate(h.ops, update)
    ensures var e := Run(cfg, INIT, actions).log[k];
            var h := HistoryAt(cfg, actions, k, e.client.clientId);
            forall uri :: uri !in h.ops[update].metadata.redirectUris ==> UriUsed(e) != Some(uri)
  {
    var e := Run(cfg, INIT, actions).log[k];
    if UriUsed(e).Some? { RedirectUrisFollowUpdates(cfg, actions, k); }
  }
}
