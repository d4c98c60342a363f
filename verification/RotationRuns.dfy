/** Secret rotation over runs of the whole provider: which secrets a dynamic
    client can authenticate with, told from the admin steps before. */
module RotationRuns {
  import opened Basics
  import opened Client
  import opened ClientRecords
  import opened Resolver
  import opened Util
  import opened Protocol
  import opened Provenance

  // ---------- The history of one client ----------

  /** What the admin operations did to one client: how it was created, and what
      was done to it since. */
  datatype History = Unborn | Born(created: ClientRecord, ops: seq<RecordOp>)

  function HistoryOf(ops: seq<AdminOp>, id: string): History {
    if ops == [] then Unborn
    else
      var h, op := HistoryOf(ops[..|ops| - 1], id), ops[|ops| - 1];
      match op
      case Insert(r) => if r.clientId == id && h.Unborn? then Born(r, []) else h
      case Modify(x, o) => if x == id && h.Born? then Born(h.created, h.ops + [o]) else h
  }

  lemma ApplyOne(r: ClientRecord, ops: seq<RecordOp>, op: RecordOp)
    ensures ApplyAll(r, ops + [op]) == Apply(ApplyAll(r, ops), op)
  {
    assert (ops + [op])[..|ops|] == ops;
  }

  /** The registry holds of each client exactly what its history makes of it. */
  lemma {:induction false} RecordIsHistory(cfg: Config, ops: seq<AdminOp>, id: string)
    requires forall op :: op in ops ==> Permitted(cfg, op)
    ensures var h, records := HistoryOf(ops, id), AdministeredAll(map[], ops);
            && (h.Born? <==> id in records)
            && (h.Born? ==> Insert(h.created) in ops && h.created.clientId == id
                            && records[id] == ApplyAll(h.created, h.ops))
  {
    if ops != [] {
      var n := |ops| - 1;
      assert ops[n] in ops && forall op :: op in ops[..n] ==> op in ops;
      RecordIsHistory(cfg, ops[..n], id);
      var h := HistoryOf(ops[..n], id);
      if ops[n].Modify? && ops[n].id == id && h.Born? { ApplyOne(h.created, h.ops, ops[n].op); }
    }
  }

  /** The rotation log of a client that was created with a secret. */
  function LogOf(h: History): (log: seq<Rotation>)
    requires h.Born? && h.created.currentHash.Some?
    ensures log != []
  {
    RotationLog(Rotation(h.created.currentHash.value, h.created.createdAt), h.ops)
  }

  /** `presented` is what the history lets a client authenticate with at `now`. */
  ghost predicate HistoryAccepts(sha: Digest, h: History, presented: string, now: int) {
    && h.Born? && h.created.currentHash.Some? && ActiveAfter(h.ops)
    && AcceptedByLog(LogOf(h), HashText(sha, presented), now)
  }

  lemma BornAsNew(cfg: Config, r: ClientRecord)
    requires Permitted(cfg, Insert(r))
    ensures r.currentHash.Some? <==> r.clientType == Confidential
    ensures r == NewRecord(r.clientId, r.metadata, r.clientType, r.currentHash, r.createdAt)
  {
  }

  /** The secret check at `/token` is the rule over the full rotation log of the
      admin operations so far, for every dynamic client. */
  lemma SecretsFollowHistory(cfg: Config, ops: seq<AdminOp>, id: string, presented: string, now: int)
    requires (forall op :: op in ops ==> Permitted(cfg, op)) && Find(cfg.clients, id) == None
    ensures VerifyClientSecret(cfg, AdministeredAll(map[], ops), id, presented, now)
      <==> HistoryAccepts(cfg.sha, HistoryOf(ops, id), presented, now)
  {
    RecordIsHistory(cfg, ops, id);
    ReachableRegistry(cfg, ops);
    var h := HistoryOf(ops, id);
    if h.Born? {
      var r := h.created;
      BornAsNew(cfg, r);
      var first := Rotation(if r.currentHash.Some? then r.currentHash.value else "", r.createdAt);
      SecretHistory(cfg.sha, id, r.metadata, r.clientType, first, h.ops, presented, now);
    }
  }

  // ---------- Over runs ----------

  /** The registry changes among the steps of a run. */
  ghost function AdminOps(cfg: Config, actions: seq<Action>): (ops: seq<AdminOp>)
    ensures forall op :: op in ops ==> Permitted(cfg, op)
  {
    if actions == [] then []
    else
      var before, a := AdminOps(cfg, actions[..|actions| - 1]), actions[|actions| - 1];
      if a.Administer? && Permitted(cfg, a.op) then before + [a.op] else before
  }

  lemma {:induction false} RunRegistry(cfg: Config, actions: seq<Action>)
    ensures Run(cfg, INIT, actions).records == AdministeredAll(map[], AdminOps(cfg, actions))
  {
    if actions != [] {
      var n := |actions| - 1;
      RunRegistry(cfg, actions[..n]);
      RunSnoc(cfg, INIT, actions, n);
      assert actions[..n + 1] == actions;
      var before := AdminOps(cfg, actions[..n]);
      if actions[n].Administer? && Permitted(cfg, actions[n].op) {
        assert (before + [actions[n].op])[..|before|] == before;
      }
    }
  }

  /** What the admin steps before step `k` of a run did to client `id`. */
  ghost function HistoryAt(cfg: Config, actions: seq<Action>, k: nat, id: string): History
    requires k <= |actions|
  {
    HistoryOf(AdminOps(cfg, actions[..k]), id)
  }

  /** In every interleaved run a dynamic client authenticates by secret only
      with one whose hash the rotation log of the admin steps before accepts at
      the request's time, and only while the last of them to matter enabled it. */
  lemma SecretsOfRuns(cfg: Config, actions: seq<Action>, k: nat)
    requires k < |Run(cfg, INIT, actions).log|
    requires var e := Run(cfg, INIT, actions).log[k];
             e.ClientAuthenticated? && e.secret.Some? && Find(cfg.clients, e.client.clientId) == None
    ensures k < |actions|
    ensures var e := Run(cfg, INIT, actions).log[k];
            HistoryAccepts(cfg.sha, HistoryAt(cfg, actions, k, e.client.clientId), e.secret.value, e.now)
  {
    var e := Run(cfg, INIT, actions).log[k];
    LogLength(cfg, INIT, actions);
    RecordsAreCurrent(cfg, actions, k);
    RunRegistry(cfg, actions[..k]);
    assert VerifyClientSecret(cfg, e.records, e.client.clientId, e.secret.value, e.now) by {
      InvInit(cfg);
      RunKeepsInv(cfg, INIT, actions);
      var log := Run(cfg, INIT, actions).log;
      assert Justified(cfg, log[..k], log[k]);
    }
    SecretsFollowHistory(cfg, AdminOps(cfg, actions[..k]), e.client.clientId, e.secret.value, e.now);
  }

  /** So a token of a confidential dynamic client was asked for with such a
      secret: with the newest one, or with the one before it less than 600 s
      after the newest was set. */
  lemma TokensFollowRotation(cfg: Config, actions: seq<Action>, k: nat) returns (authenticated: nat, secret: string)
    requires var log := Run(cfg, INIT, actions).log; k < |log| && log[k].TokenIssued?
    requires var c := Run(cfg, INIT, actions).log[k].client;
             Find(cfg.clients, c.clientId) == None && c.clientType == Confidential
    ensures var log := Run(cfg, INIT, actions).log;
            && authenticated < k && authenticated < |actions| && log[authenticated].ClientAuthenticated?
            && log[authenticated].pid == log[k].pid && log[authenticated].client == log[k].client
            && log[authenticated].secret == Some(secret)
            && HistoryAccepts(cfg.sha, HistoryAt(cfg, actions, authenticated, log[k].client.clientId), secret,
                              log[k].now)
  {
    var t := TokensAreFaithful(cfg, actions, k);
    authenticated := t.authenticated;
    var login := Run(cfg, INIT, actions).log[authenticated];
    secret := login.secret.value;
    SecretsOfRuns(cfg, actions, authenticated);
  }

  /** And at most two secrets are accepted at any moment. */
  lemma FewSecretsAtOnce(sha: Digest, h: History, a: string, b: string, c: string, now: int)
    requires HistoryAccepts(sha, h, a, now) && HistoryAccepts(sha, h, b, now) && HistoryAccepts(sha, h, c, now)
    ensures HashText(sha, a) == HashText(sha, b) || HashText(sha, b) == HashText(sha, c)
         || HashText(sha, a) == HashText(sha, c)
  {
    FewSecrets(LogOf(h), HashText(sha, a), HashText(sha, b), HashText(sha, c), now);
  }
}
