/** The secrets of static clients: what the configuration says is the one text
    that authenticates such a client, in every run. */
module StaticSecrets {
  import opened Basics
  import opened Client
  import opened Registry
  import opened Resolver
  import opened OAuth
  import opened Token
  import opened Protocol
  import opened Provenance

  /** The configuration was accepted with these secrets. */
  ghost predicate ConfiguredWith(cfg: Config, secrets: Secrets) {
    RegistryOk(cfg.policy, cfg.clients, secrets) && cfg.secrets == SecretMap(secrets)
  }

  /** A static client's id goes with exactly the text of its last configured
      pair, whatever the dynamic registry holds and whatever the time is. */
  lemma StaticSecretExact(cfg: Config, secrets: Secrets, records: Records, id: string, presented: string, now: int)
    requires ConfiguredWith(cfg, secrets) && Find(cfg.clients, id).Some?
    ensures VerifyClientSecret(cfg, records, id, presented, now) <==> LastSecret(secrets, id, presented)
  {
    SecretMapIsLast(secrets, id, presented);
  }

  /** There is one such text for a confidential client, of at least 16 bytes,
      and none for a public one. */
  lemma OneTextEach(cfg: Config, secrets: Secrets, id: string)
    requires ConfiguredWith(cfg, secrets) && Find(cfg.clients, id).Some?
    ensures Find(cfg.clients, id).value.clientType == Confidential <==> exists p :: LastSecret(secrets, id, p)
    ensures forall p, q :: LastSecret(secrets, id, p) && LastSecret(secrets, id, q) ==> p == q
    ensures forall p :: LastSecret(secrets, id, p) ==> |p| >= 16
  {
    SecretsAreForConfidential(cfg.policy, cfg.clients, secrets, id);
    forall p ensures LastSecret(secrets, id, p) <==> id in SecretMap(secrets) && SecretMap(secrets)[id] == p {
      SecretMapIsLast(secrets, id, p);
    }
    if id in SecretMap(secrets) { assert LastSecret(secrets, id, SecretMap(secrets)[id]); }
  }

  /** In every interleaved run a static client authenticates by secret only
      with its configured text. */
  lemma StaticSecretsOfRuns(cfg: Config, secrets: Secrets, actions: seq<Action>, k: nat)
    requires ConfiguredWith(cfg, secrets) && k < |Run(cfg, INIT, actions).log|
    requires var e := Run(cfg, INIT, actions).log[k];
             e.ClientAuthenticated? && e.secret.Some? && Find(cfg.clients, e.client.clientId).Some?
    ensures var e := Run(cfg, INIT, actions).log[k]; LastSecret(secrets, e.client.clientId, e.secret.value)
  {
    InvInit(cfg);
    RunKeepsInv(cfg, INIT, actions);
    var log := Run(cfg, INIT, actions).log;
    var e := log[k];
    assert Justified(cfg, log[..k], e);
    StaticSecretExact(cfg, secrets, e.records, e.client.clientId, e.secret.value, e.now);
  }

  /** So every token of a static confidential client was asked for with it. */
  lemma TokensOfStaticClients(cfg: Config, secrets: Secrets, actions: seq<Action>, k: nat)
    returns (authenticated: nat, secret: string)
    requires ConfiguredWith(cfg, secrets)
    requires var log := Run(cfg, INIT, actions).log; k < |log| && log[k].TokenIssued?
    requires var c := Run(cfg, INIT, actions).log[k].client;
             Find(cfg.clients, c.clientId).Some? && c.clientType == Confidential
    ensures var log := Run(cfg, INIT, actions).log;
            && authenticated < k && log[authenticated].ClientAuthenticated?
            && log[authenticated].pid == log[k].pid && log[authenticated].client == log[k].client
            && log[authenticated].secret == Some(secret) && LastSecret(secrets, log[k].client.clientId, secret)
  {
    var t := TokensAreFaithful(cfg, actions, k);
    authenticated := t.authenticated;
    secret := Run(cfg, INIT, actions).log[authenticated].secret.value;
    StaticSecretsOfRuns(cfg, secrets, actions, authenticated);
  }

  /** A request that comes with any other text is answered 401, and with that
      text it gets past this check. */
  lemma SecretDecides(cfg: Config, secrets: Secrets, s: State, pid: nat, p: TokenPhase, i: Input)
    requires ConfiguredWith(cfg, secrets) && InPhase(s, pid, TokenProcess(p)) && p.VerifyingSecret?
    requires Find(cfg.clients, p.id).Some?
    ensures LastSecret(secrets, p.id, p.secret) ==>
      AdvanceProcess(cfg, s, pid, i).0 == TokenProcess(AfterAuthentication(cfg.sha, p.pairs, p.client, p.now))
    ensures !LastSecret(secrets, p.id, p.secret) ==>
      AdvanceProcess(cfg, s, pid, i).0 == TokenProcess(Responded(TokenError(401, InvalidClient)))
  {
    StaticSecretExact(cfg, secrets, s.records, p.id, p.secret, p.now);
  }
}
