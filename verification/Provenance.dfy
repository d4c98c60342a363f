/** Where an ID Token comes from: an invariant over every interleaved run, and
    the chain of earlier steps it gives for each token. */
module Provenance {
  import opened Basics
  import opened Form
  import opened Params
  import opened Client
  import opened Registry
  import opened Resolver
  import opened Code
  import opened AuthorizationStore
  import opened Util
  import opened Authorize
  import opened Callback
  import opened Token
  import opened Protocol
  import opened Text
  import Pkce

  // ---------- What may be in the log ----------

  ghost predicate TxKnown(log: seq<Event>, tx: Transaction) {
    exists k :: 0 <= k < |log| && log[k].TxStored? && log[k].tx == tx
  }

  ghost predicate CodeKnown(log: seq<Event>, record: StoredCode) {
    exists k :: 0 <= k < |log| && log[k].CodeStored? && log[k].record == record
  }

  ghost predicate ResolvedKnown(log: seq<Event>, pid: nat, tx: Transaction, client: ClientConfig, now: int) {
    exists k :: 0 <= k < |log| && log[k].ClientResolved? && log[k].pid == pid && log[k].tx == tx
                && log[k].client == client && log[k].now == now
  }

  ghost predicate ProceededKnown(log: seq<Event>, pid: nat, pairs: Pairs, client: ClientConfig, v: Validated,
                                 tx: Transaction, now: int) {
    exists k :: 0 <= k < |log| && log[k].Proceeded? && log[k].pid == pid && log[k].pairs == pairs
                && log[k].client == client && log[k].v == v && log[k].tx == tx && log[k].now == now
  }

  ghost predicate FoundKnown(log: seq<Event>, pid: nat, client: ClientConfig, now: int) {
    exists k :: 0 <= k < |log| && log[k].ClientFound? && log[k].pid == pid && log[k].client == client
                && log[k].now == now
  }

  /** The request has stored a transaction under the Discord state `d`, for
      parameters that ask for consent exactly if `consent`. */
  ghost predicate SentKnown(log: seq<Event>, pid: nat, d: string, consent: bool) {
    exists k :: 0 <= k < |log| && log[k].TxStored? && log[k].pid == pid && log[k].tx.discordState == d
                && (consent <==> AsksConsent(log[k].pairs))
  }

  ghost predicate AuthenticationKnown(log: seq<Event>, pid: nat, client: ClientConfig, now: int) {
    exists k :: 0 <= k < |log| && log[k].ClientAuthenticated? && log[k].pid == pid && log[k].client == client
                && log[k].now == now
  }

  /** The registry lets `client` through: a public client resolves with method
      `none`; a confidential one has resolved with method `client_secret_basic`
      in an earlier step of the request, and its secret verifies. */
  ghost predicate Authenticates(cfg: Config, before: seq<Event>, pid: nat, records: Records, client: ClientConfig,
                                secret: Option<string>, now: int) {
    match secret
    case None => IsOfType(cfg, records, client, Public, NoAuthentication)
    case Some(s) => FoundKnown(before, pid, client, now) && VerifyClientSecret(cfg, records, client.clientId, s, now)
  }

  ghost predicate IsOfType(cfg: Config, records: Records, client: ClientConfig, t: ClientType, m: AuthMethod) {
    FindClient(cfg, records, client.clientId) == Some(client) && client.clientType == t && client.authMethod == m
  }

  /** Each event rests on an earlier one and on what its own step checked. */
  ghost predicate Justified(cfg: Config, before: seq<Event>, e: Event) {
    match e
    case Refused(pid, pairs, client, answer, records, now) =>
      && Single(pairs, "client_id") == Exactly(client.clientId)
      && FindClient(cfg, records, client.clientId) == Some(client)
      && var verdict := VerdictFor(pairs, client);
         verdict.RedirectError? && answer == ErrorToClient(verdict.uri, verdict.code, verdict.state)
    case Proceeded(pid, pairs, client, v, tx, records, now) =>
      && VerdictFor(pairs, client) == Proceed(v) && Single(pairs, "client_id") == Exactly(client.clientId)
      && RegistryInv(cfg, records) && FindClient(cfg, records, client.clientId) == Some(client)
      && exists a, b :: tx == TransactionFor(v, a, b, now)
    case TxStored(pid, pairs, client, v, tx, now) => ProceededKnown(before, pid, pairs, client, v, tx, now)
    case TxTaken(pid, tx, now) => TxKnown(before, tx) && now < tx.expiresAt
    case TxExpired(pid, tx, now) => TxKnown(before, tx) && tx.expiresAt <= now
    case ClientResolved(pid, tx, client, records, now) =>
      && TxTaken(pid, tx, now) in before
      && FindClient(cfg, records, tx.clientId) == Some(client) && tx.redirectUri in client.redirectUris
    case DiscordExchanged(pid, tx, client, reply, now) => ResolvedKnown(before, pid, tx, client, now)
    case UserFetched(pid, tx, client, token, user, now) =>
      DiscordExchanged(pid, tx, client, Some(token), now) in before && IsDigits(user)
    case MemberConfirmed(pid, tx, client, token, user, guild, now) =>
      UserFetched(pid, tx, client, token, user, now) in before && guild == cfg.guild
    case CodeStored(pid, tx, client, token, user, draw, record, _, now) =>
      MemberConfirmed(pid, tx, client, token, user, cfg.guild, now) in before
        && record == IssueCode(cfg.sha, tx, user, draw, now)
    case ClientFound(pid, client, records, now) => IsOfType(cfg, records, client, Confidential, ClientSecretBasic)
    case ClientAuthenticated(pid, client, records, secret, now) =>
      Authenticates(cfg, before, pid, records, client, secret, now)
    case CodeConsumed(pid, client, check, record, _, now) =>
      && CodeKnown(before, record) && AuthenticationKnown(before, pid, client, now)
      && check.clientId == client.clientId && FullyMatches(cfg.sha, record, check, now)
    case TokenIssued(pid, client, check, record, resp, now) =>
      && CodeConsumed(pid, client, check, record, false, now) in before
      && exists draw: Bytes32 :: resp
           == TokenOk(TokenText(draw), cfg.idTokenTtl, record.scope,
                      ClaimsFor(cfg, client, record, TokenText(draw), now))
    case _ => true
  }

  ghost predicate LogOk(cfg: Config, log: seq<Event>) {
    forall k :: 0 <= k < |log| ==> Justified(cfg, log[..k], log[k])
  }

  /** What a process has already put into the log when it is in this phase. */
  ghost predicate Supported(cfg: Config, log: seq<Event>, pid: nat, p: Process) {
    match p
    case AuthorizeProcess(Finding(pairs, id, _)) => Single(pairs, "client_id") == Exactly(id)
    case AuthorizeProcess(Storing(pairs, client, v, tx, now)) => ProceededKnown(log, pid, pairs, client, v, tx, now)
    case AuthorizeProcess(Finished(ToDiscord(d, consent))) => SentKnown(log, pid, d, consent)
    case CallbackProcess(Resolving(tx, _, _, now)) => TxTaken(pid, tx, now) in log
    case CallbackProcess(Exchanging(tx, client, _, now)) => ResolvedKnown(log, pid, tx, client, now)
    case CallbackProcess(FetchingUser(tx, client, token, now)) =>
      DiscordExchanged(pid, tx, client, Some(token), now) in log
    case CallbackProcess(CheckingMember(tx, client, token, user, now)) =>
      UserFetched(pid, tx, client, token, user, now) in log
    case CallbackProcess(StoringCode(tx, client, token, user, draw, record, now)) =>
      MemberConfirmed(pid, tx, client, token, user, cfg.guild, now) in log
        && record == IssueCode(cfg.sha, tx, user, draw, now)
    case TokenProcess(VerifyingSecret(_, client, id, _, now)) =>
      client.clientId == id && FoundKnown(log, pid, client, now)
    case TokenProcess(Consuming(client, _, check, now)) =>
      AuthenticationKnown(log, pid, client, now) && check.clientId == client.clientId
    case TokenProcess(Signing(client, check, record, now)) =>
      CodeConsumed(pid, client, check, record, false, now) in log
    case _ => true
  }

  ghost predicate StoreOk(log: seq<Event>, s: Store) {
    && (forall k :: k in s.txs ==> s.txs[k].discordState == k && TxKnown(log, s.txs[k]))
    && (forall h :: h in s.codes ==> s.codes[h].codeHash == h && CodeKnown(log, s.codes[h]))
  }

  ghost predicate Inv(cfg: Config, s: State) {
    && LogOk(cfg, s.log)
    && StoreOk(s.log, s.store)
    && RegistryInv(cfg, s.records)
    && forall pid :: 0 <= pid < |s.procs| ==> Supported(cfg, s.log, pid, s.procs[pid])
  }

  // ---------- It is kept by every step ----------

  lemma KnownGrows(log: seq<Event>, e: Event)
    ensures forall tx :: TxKnown(log, tx) ==> TxKnown(log + [e], tx)
    ensures forall r :: CodeKnown(log, r) ==> CodeKnown(log + [e], r)
    ensures forall pid, tx, c, now :: ResolvedKnown(log, pid, tx, c, now) ==> ResolvedKnown(log + [e], pid, tx, c, now)
    ensures forall pid, c, now :: FoundKnown(log, pid, c, now) ==> FoundKnown(log + [e], pid, c, now)
    ensures forall pid, c, now :: AuthenticationKnown(log, pid, c, now) ==> AuthenticationKnown(log + [e], pid, c, now)
    ensures forall pid, d, c :: SentKnown(log, pid, d, c) ==> SentKnown(log + [e], pid, d, c)
    ensures forall pid, ps, c, v, tx, now ::
      ProceededKnown(log, pid, ps, c, v, tx, now) ==> ProceededKnown(log + [e], pid, ps, c, v, tx, now)
  {
    var more := log + [e];
    assert forall k :: 0 <= k < |log| ==> more[k] == log[k];
  }

  lemma LastKnown(log: seq<Event>, e: Event)
    ensures e.TxStored? ==> TxKnown(log + [e], e.tx)
    ensures e.CodeStored? ==> CodeKnown(log + [e], e.record)
    ensures e.ClientResolved? ==> ResolvedKnown(log + [e], e.pid, e.tx, e.client, e.now)
    ensures e.ClientFound? ==> FoundKnown(log + [e], e.pid, e.client, e.now)
    ensures e.ClientAuthenticated? ==> AuthenticationKnown(log + [e], e.pid, e.client, e.now)
    ensures e.Proceeded? ==> ProceededKnown(log + [e], e.pid, e.pairs, e.client, e.v, e.tx, e.now)
  {
    var more := log + [e];
    assert more[|log|] == e;
  }

  lemma SupportedGrows(cfg: Config, log: seq<Event>, e: Event, pid: nat, p: Process)
    requires Supported(cfg, log, pid, p)
    ensures Supported(cfg, log + [e], pid, p)
  {
    KnownGrows(log, e);
  }

  lemma LogGrows(cfg: Config, log: seq<Event>, e: Event)
    requires LogOk(cfg, log) && Justified(cfg, log, e)
    ensures LogOk(cfg, log + [e])
  {
    var more := log + [e];
    forall k | 0 <= k < |more| ensures Justified(cfg, more[..k], more[k]) {
      if k < |log| { assert more[..k] == log[..k]; } else { assert more[..k] == log; }
    }
  }

  lemma RequestStep(cfg: Config, s: State, pid: nat, p: Phase, i: Input)
    requires Supported(cfg, s.log, pid, AuthorizeProcess(p)) && RegistryInv(cfg, s.records) && p.Finding?
    ensures var (q, store, e) := AdvanceAuthorize(cfg, s, pid, p, i);
            Justified(cfg, s.log, e) && Supported(cfg, s.log + [e], pid, AuthorizeProcess(q))
  {
    var (q, store, e) := AdvanceAuthorize(cfg, s, pid, p, i);
    LastKnown(s.log, e);
    FindIsFirst(cfg.clients, p.clientId);
    if q.Storing? {
      assert q.client.clientId == p.clientId;
      assert q.tx == TransactionFor(q.v, i.drawA, i.drawB, p.now);
    }
  }

  lemma ConsentOfProceeded(cfg: Config, log: seq<Event>, pid: nat, pairs: Pairs, client: ClientConfig, v: Validated,
                           tx: Transaction, now: int)
    requires LogOk(cfg, log) && ProceededKnown(log, pid, pairs, client, v, tx, now)
    ensures v.consent <==> AsksConsent(pairs)
  {
    var k :| 0 <= k < |log| && log[k].Proceeded? && log[k].pairs == pairs && log[k].client == client && log[k].v == v;
    assert Justified(cfg, log[..k], log[k]);
    ProceedCarries(pairs, client);
  }

  lemma StoredIsSent(log: seq<Event>, e: Event, consent: bool)
    requires e.TxStored? && (consent <==> AsksConsent(e.pairs))
    ensures SentKnown(log + [e], e.pid, e.tx.discordState, consent)
  {
    var more := log + [e];
    assert more[|log|] == e;
  }

  lemma StoringStep(cfg: Config, s: State, pid: nat, p: Phase, i: Input)
    requires LogOk(cfg, s.log) && Supported(cfg, s.log, pid, AuthorizeProcess(p)) && p.Storing?
    ensures var (q, store, e) := AdvanceAuthorize(cfg, s, pid, p, i);
            Justified(cfg, s.log, e) && Supported(cfg, s.log + [e], pid, AuthorizeProcess(q))
  {
    var (q, store, e) := AdvanceAuthorize(cfg, s, pid, p, i);
    ConsentOfProceeded(cfg, s.log, pid, p.pairs, p.client, p.v, p.tx, p.now);
    if e.TxStored? { StoredIsSent(s.log, e, p.v.consent); }
  }

  lemma StoringStoreOk(cfg: Config, s: State, pid: nat, p: Phase, i: Input)
    requires StoreOk(s.log, s.store) && p.Storing?
    ensures var (q, store, e) := AdvanceAuthorize(cfg, s, pid, p, i); StoreOk(s.log + [e], store)
  {
    var (q, store, e) := AdvanceAuthorize(cfg, s, pid, p, i);
    KnownGrows(s.log, e);
    LastKnown(s.log, e);
  }

  lemma AuthorizeStep(cfg: Config, s: State, pid: nat, p: Phase, i: Input)
    requires Inv(cfg, s) && Supported(cfg, s.log, pid, AuthorizeProcess(p))
    ensures var (q, store, e) := AdvanceAuthorize(cfg, s, pid, p, i);
            Justified(cfg, s.log, e) && Supported(cfg, s.log + [e], pid, AuthorizeProcess(q))
              && StoreOk(s.log + [e], store)
  {
    var (q, store, e) := AdvanceAuthorize(cfg, s, pid, p, i);
    match p {
      case Finding(_, _, _) => RequestStep(cfg, s, pid, p, i); StoreOkGrows(s.store, s.log, e);
      case Storing(_, _, _, _, _) => StoringStep(cfg, s, pid, p, i); StoringStoreOk(cfg, s, pid, p, i);
      case Finished(_) => StoreOkGrows(s.store, s.log, e); SupportedGrows(cfg, s.log, e, pid, AuthorizeProcess(p));
    }
  }

  lemma StoreOkGrows(s: Store, log: seq<Event>, e: Event)
    requires StoreOk(log, s)
    ensures StoreOk(log + [e], s)
  {
    KnownGrows(log, e);
  }

  lemma TakeKeepsStoreOk(s: Store, log: seq<Event>, state: string)
    requires StoreOk(log, s)
    ensures StoreOk(log, TakeTransaction(s, state))
  {
  }

  lemma TakingStep(cfg: Config, s: State, pid: nat, p: CallbackPhase, i: Input)
    requires StoreOk(s.log, s.store) && p.Taking?
    ensures var (q, store, e) := AdvanceCallback(cfg, s, pid, p, i);
            Justified(cfg, s.log, e) && Supported(cfg, s.log + [e], pid, CallbackProcess(q))
              && StoreOk(s.log + [e], store)
  {
    var (q, store, e) := AdvanceCallback(cfg, s, pid, p, i);
    TakeKeepsStoreOk(s.store, s.log, p.state);
    StoreOkGrows(store, s.log, e);
    assert e in s.log + [e];
  }

  lemma ResolvingStep(cfg: Config, s: State, pid: nat, p: CallbackPhase, i: Input)
    requires Supported(cfg, s.log, pid, CallbackProcess(p)) && p.Resolving?
    ensures var (q, store, e) := AdvanceCallback(cfg, s, pid, p, i);
            Justified(cfg, s.log, e) && Supported(cfg, s.log + [e], pid, CallbackProcess(q))
  {
    var (q, store, e) := AdvanceCallback(cfg, s, pid, p, i);
    if q.Exchanging? {
      assert e == ClientResolved(pid, p.tx, q.client, s.records, p.now);
      LastKnown(s.log, e);
    }
  }

  lemma UpstreamStep(cfg: Config, s: State, pid: nat, p: CallbackPhase, i: Input)
    requires Supported(cfg, s.log, pid, CallbackProcess(p)) && (p.Exchanging? || p.FetchingUser? || p.CheckingMember?)
    ensures var (q, store, e) := AdvanceCallback(cfg, s, pid, p, i);
            Justified(cfg, s.log, e) && Supported(cfg, s.log + [e], pid, CallbackProcess(q))
  {
    var (q, store, e) := AdvanceCallback(cfg, s, pid, p, i);
    assert e in s.log + [e];
  }

  lemma StoringCodeStep(cfg: Config, s: State, pid: nat, p: CallbackPhase, i: Input)
    requires Inv(cfg, s) && Supported(cfg, s.log, pid, CallbackProcess(p)) && p.StoringCode?
    ensures var (q, store, e) := AdvanceCallback(cfg, s, pid, p, i);
            Justified(cfg, s.log, e) && Supported(cfg, s.log + [e], pid, CallbackProcess(q))
              && StoreOk(s.log + [e], store)
  {
    var (q, store, e) := AdvanceCallback(cfg, s, pid, p, i);
    KnownGrows(s.log, e);
    LastKnown(s.log, e);
  }

  lemma CallbackStep(cfg: Config, s: State, pid: nat, p: CallbackPhase, i: Input)
    requires Inv(cfg, s) && Supported(cfg, s.log, pid, CallbackProcess(p))
    ensures var (q, store, e) := AdvanceCallback(cfg, s, pid, p, i);
            Justified(cfg, s.log, e) && Supported(cfg, s.log + [e], pid, CallbackProcess(q))
              && StoreOk(s.log + [e], store)
  {
    var (q, store, e) := AdvanceCallback(cfg, s, pid, p, i);
    match p {
      case Taking(_, _, _, _) => TakingStep(cfg, s, pid, p, i);
      case Resolving(_, _, _, _) => ResolvingStep(cfg, s, pid, p, i); StoreOkGrows(s.store, s.log, e);
      case StoringCode(_, _, _, _, _, _, _) => StoringCodeStep(cfg, s, pid, p, i);
      case Answered(_) => StoreOkGrows(s.store, s.log, e);
      case _ => UpstreamStep(cfg, s, pid, p, i); StoreOkGrows(s.store, s.log, e);
    }
  }

  lemma AuthenticationStep(cfg: Config, s: State, pid: nat, p: TokenPhase, i: Input)
    requires Inv(cfg, s) && Supported(cfg, s.log, pid, TokenProcess(p)) && (p.FindingClient? || p.VerifyingSecret?)
    ensures var (q, store, e) := AdvanceToken(cfg, s, pid, p, i);
            Justified(cfg, s.log, e) && Supported(cfg, s.log + [e], pid, TokenProcess(q)) && StoreOk(s.log + [e], store)
  {
    var (q, store, e) := AdvanceToken(cfg, s, pid, p, i);
    KnownGrows(s.log, e);
    LastKnown(s.log, e);
    if p.FindingClient? { FindIsFirst(cfg.clients, p.cred.id); }
  }

  lemma ConsumedStoreOk(log: seq<Event>, sha: Digest, s: Store, hash: string, check: ExchangeCheck, now: int)
    requires StoreOk(log, s)
    ensures StoreOk(log, ConsumeCode(sha, s, hash, check, now))
  {
    ConsumeExact(sha, s, hash, check, now);
  }

  lemma ConsumingStep(cfg: Config, s: State, pid: nat, p: TokenPhase, i: Input)
    requires Supported(cfg, s.log, pid, TokenProcess(p)) && StoreOk(s.log, s.store) && p.Consuming?
    ensures var (q, store, e) := AdvanceToken(cfg, s, pid, p, i);
            Justified(cfg, s.log, e) && Supported(cfg, s.log + [e], pid, TokenProcess(q))
  {
    ConsumeExact(cfg.sha, s.store, p.hash, p.check, p.now);
    var (q, store, e) := AdvanceToken(cfg, s, pid, p, i);
    assert e in s.log + [e];
  }

  lemma SigningStep(cfg: Config, s: State, pid: nat, p: TokenPhase, i: Input)
    requires Supported(cfg, s.log, pid, TokenProcess(p)) && p.Signing?
    ensures var (q, store, e) := AdvanceToken(cfg, s, pid, p, i);
            Justified(cfg, s.log, e) && Supported(cfg, s.log + [e], pid, TokenProcess(q))
  {
  }

  lemma ExchangeStep(cfg: Config, s: State, pid: nat, p: TokenPhase, i: Input)
    requires Inv(cfg, s) && Supported(cfg, s.log, pid, TokenProcess(p)) && !p.FindingClient? && !p.VerifyingSecret?
    ensures var (q, store, e) := AdvanceToken(cfg, s, pid, p, i);
            Justified(cfg, s.log, e) && Supported(cfg, s.log + [e], pid, TokenProcess(q)) && StoreOk(s.log + [e], store)
  {
    var (q, store, e) := AdvanceToken(cfg, s, pid, p, i);
    if p.Consuming? {
      ConsumingStep(cfg, s, pid, p, i);
      ConsumedStoreOk(s.log, cfg.sha, s.store, p.hash, p.check, p.now);
    } else if p.Signing? {
      SigningStep(cfg, s, pid, p, i);
    }
    StoreOkGrows(store, s.log, e);
  }

  /** The invariant after a step, from what the step adds and touches. */
  lemma InvMoves(cfg: Config, s: State, s': State, e: Event)
    requires Inv(cfg, s) && s'.log == s.log + [e] && Justified(cfg, s.log, e)
    requires StoreOk(s'.log, s'.store) && RegistryInv(cfg, s'.records)
    requires forall k :: 0 <= k < |s'.procs| ==>
      (k < |s.procs| && s'.procs[k] == s.procs[k]) || Supported(cfg, s'.log, k, s'.procs[k])
    ensures Inv(cfg, s')
  {
    LogGrows(cfg, s.log, e);
    forall k | 0 <= k < |s'.procs| ensures Supported(cfg, s'.log, k, s'.procs[k]) {
      if k < |s.procs| && s'.procs[k] == s.procs[k] { SupportedGrows(cfg, s.log, e, k, s.procs[k]); }
    }
  }

  lemma AdvanceSupported(cfg: Config, s: State, pid: nat, i: Input)
    requires Inv(cfg, s) && pid < |s.procs|
    ensures var (p, store, e) := AdvanceProcess(cfg, s, pid, i);
            Justified(cfg, s.log, e) && Supported(cfg, s.log + [e], pid, p) && StoreOk(s.log + [e], store)
  {
    assert Supported(cfg, s.log, pid, s.procs[pid]);
    match s.procs[pid] {
      case AuthorizeProcess(q) => AuthorizeStep(cfg, s, pid, q, i);
      case CallbackProcess(q) => CallbackStep(cfg, s, pid, q, i);
      case TokenProcess(q) =>
        if q.FindingClient? || q.VerifyingSecret? { AuthenticationStep(cfg, s, pid, q, i); }
        else { ExchangeStep(cfg, s, pid, q, i); }
    }
  }

  lemma AdvanceKeepsInv(cfg: Config, s: State, pid: nat, i: Input)
    requires Inv(cfg, s) && pid < |s.procs|
    ensures Inv(cfg, Step(cfg, s, Advance(pid, i)))
  {
    var (p, store, e) := AdvanceProcess(cfg, s, pid, i);
    AdvanceSupported(cfg, s, pid, i);
    InvMoves(cfg, s, Step(cfg, s, Advance(pid, i)), e);
  }

  lemma FreshSupported(cfg: Config, s: State, a: Action, p: Process, pid: nat)
    requires IsStart(a) && Step(cfg, s, a) == Spawn(s, p)
    ensures Supported(cfg, s.log + [Quiet], pid, p)
  {
    assert Step(cfg, s, a).procs[|s.procs|] == p;
  }

  lemma StartKeepsInv(cfg: Config, s: State, a: Action)
    requires Inv(cfg, s) && IsStart(a)
    ensures Inv(cfg, Step(cfg, s, a))
  {
    var p := StartStep(cfg, s, a);
    FreshSupported(cfg, s, a, p, |s.procs|);
    StoreOkGrows(s.store, s.log, Quiet);
    InvMoves(cfg, s, Spawn(s, p), Quiet);
  }

  lemma SweptStoreOk(log: seq<Event>, s: Store, now: int)
    requires StoreOk(log, s)
    ensures StoreOk(log, Sweep(s, now))
  {
  }

  lemma SystemKeepsInv(cfg: Config, s: State, a: Action)
    requires Inv(cfg, s) && IsSystem(s, a)
    ensures Inv(cfg, Step(cfg, s, a))
  {
    var s', e := Step(cfg, s, a), SystemEvent(cfg, s, a);
    SystemStep(cfg, s, a);
    if a.SweepStore? { SweptStoreOk(s.log, s.store, a.now); }
    StoreOkGrows(s'.store, s.log, e);
    if a.Administer? && Permitted(cfg, a.op) { AdministeredKeeps(cfg, s.records, a.op); }
    InvMoves(cfg, s, s', e);
  }

  lemma StepKeepsInv(cfg: Config, s: State, a: Action)
    requires Inv(cfg, s)
    ensures Inv(cfg, Step(cfg, s, a))
  {
    if IsStart(a) { StartKeepsInv(cfg, s, a); }
    else if IsSystem(s, a) { SystemKeepsInv(cfg, s, a); }
    else { AdvanceKeepsInv(cfg, s, a.pid, a.input); }
  }

  lemma {:induction false} RunKeepsInv(cfg: Config, s: State, actions: seq<Action>)
    requires Inv(cfg, s)
    ensures Inv(cfg, Run(cfg, s, actions))
    decreases |actions|
  {
    if actions != [] {
      StepKeepsInv(cfg, s, actions[0]);
      RunKeepsInv(cfg, Step(cfg, s, actions[0]), actions[1..]);
    }
  }

  lemma InvInit(cfg: Config)
    ensures Inv(cfg, INIT)
  {
  }

  // ---------- The steps behind a token ----------

  /** The log position of each step behind one token. */
  datatype Trail = Trail(
    proceeded: nat, stored: nat, taken: nat, resolved: nat, exchanged: nat, fetched: nat, confirmed: nat, coded: nat,
    found: nat, authenticated: nat, consumed: nat)

  /** From the request at `/authorize` to the transaction taken by a callback. */
  ghost predicate TransactionTrail(log: seq<Event>, t: Trail, tx: Transaction) {
    && t.proceeded < t.stored < t.taken < |log|
    && log[t.proceeded].Proceeded? && log[t.proceeded].tx == tx
    && log[t.taken].TxTaken? && log[t.taken].tx == tx
    && var p := log[t.proceeded]; log[t.stored] == TxStored(p.pid, p.pairs, p.client, p.v, tx, p.now)
  }

  /** Inside one callback, from taking the transaction to storing the code. */
  ghost predicate CallbackTrail(cfg: Config, log: seq<Event>, t: Trail) {
    && t.taken < t.resolved < t.exchanged < t.fetched < t.confirmed < t.coded < |log|
    && log[t.coded].CodeStored?
    && var c := log[t.coded];
       && log[t.taken] == TxTaken(c.pid, c.tx, c.now)
       && log[t.resolved].ClientResolved? && log[t.resolved].pid == c.pid && log[t.resolved].tx == c.tx
       && log[t.resolved].client == c.client && log[t.resolved].now == c.now
       && log[t.exchanged] == DiscordExchanged(c.pid, c.tx, c.client, Some(c.token), c.now)
       && log[t.fetched] == UserFetched(c.pid, c.tx, c.client, c.token, c.user, c.now)
       && log[t.confirmed] == MemberConfirmed(c.pid, c.tx, c.client, c.token, c.user, cfg.guild, c.now)
  }

  /** How the client of a token request was authenticated: a public client by
      resolving, a confidential one by resolving and then by its secret. */
  ghost predicate LoginTrail(log: seq<Event>, t: Trail) {
    && t.found <= t.authenticated < |log| && log[t.authenticated].ClientAuthenticated?
    && var a := log[t.authenticated];
       if a.secret.None? then t.found == t.authenticated
       else
         && t.found < t.authenticated && log[t.found].ClientFound?
         && log[t.found].pid == a.pid && log[t.found].client == a.client && log[t.found].now == a.now
  }

  /** Inside one token request, from authentication to the token. */
  ghost predicate TokenTrail(log: seq<Event>, k: nat, t: Trail) {
    && t.authenticated < t.consumed < k < |log| && t.coded < t.consumed
    && log[k].TokenIssued? && log[t.coded].CodeStored? && LoginTrail(log, t)
    && var i := log[k];
       && log[t.coded].record == i.record
       && log[t.consumed] == CodeConsumed(i.pid, i.client, i.check, i.record, false, i.now)
       && log[t.authenticated].pid == i.pid && log[t.authenticated].client == i.client
       && log[t.authenticated].now == i.now
  }

  /** From a taken transaction, live or expired, back to where it was stored. */
  lemma StoredBehind(cfg: Config, log: seq<Event>, taken: nat) returns (stored: nat)
    requires LogOk(cfg, log) && taken < |log| && (log[taken].TxTaken? || log[taken].TxExpired?)
    ensures stored < taken && log[stored].TxStored? && log[stored].tx == log[taken].tx
  {
    var before := log[..taken];
    assert TxKnown(before, log[taken].tx) by { assert Justified(cfg, before, log[taken]); }
    stored :| 0 <= stored < |before| && before[stored].TxStored? && before[stored].tx == log[taken].tx;
  }

  /** And from there to the request that proceeded. */
  lemma ProceededBehind(cfg: Config, log: seq<Event>, stored: nat) returns (proceeded: nat)
    requires LogOk(cfg, log) && stored < |log| && log[stored].TxStored?
    ensures proceeded < stored && log[proceeded].Proceeded?
    ensures var p := log[proceeded]; log[stored] == TxStored(p.pid, p.pairs, p.client, p.v, p.tx, p.now)
  {
    var before, e := log[..stored], log[stored];
    assert ProceededKnown(before, e.pid, e.pairs, e.client, e.v, e.tx, e.now) by { assert Justified(cfg, before, e); }
    proceeded :| 0 <= proceeded < |before| && before[proceeded].Proceeded? && before[proceeded].pid == e.pid
                 && before[proceeded].pairs == e.pairs && before[proceeded].client == e.client
                 && before[proceeded].v == e.v && before[proceeded].tx == e.tx && before[proceeded].now == e.now;
  }

  lemma TransactionTrailExists(cfg: Config, log: seq<Event>, taken: nat, t: Trail) returns (t': Trail)
    requires LogOk(cfg, log) && taken < |log| && log[taken].TxTaken?
    ensures t' == t.(proceeded := t'.proceeded, stored := t'.stored, taken := taken)
    ensures TransactionTrail(log, t', log[taken].tx)
  {
    var stored := StoredBehind(cfg, log, taken);
    var proceeded := ProceededBehind(cfg, log, stored);
    t' := t.(proceeded := proceeded, stored := stored, taken := taken);
  }

  lemma EventPosition(log: seq<Event>, k: nat, e: Event) returns (j: nat)
    requires k <= |log| && e in log[..k]
    ensures j < k && log[j] == e
  {
    j :| 0 <= j < k && log[..k][j] == e;
  }

  /** From a stored code back to the exchange with Discord. */
  lemma UpstreamTrail(cfg: Config, log: seq<Event>, coded: nat) returns (exchanged: nat, fetched: nat, confirmed: nat)
    requires LogOk(cfg, log) && coded < |log| && log[coded].CodeStored?
    ensures exchanged < fetched < confirmed < coded
    ensures var c := log[coded];
            && log[exchanged] == DiscordExchanged(c.pid, c.tx, c.client, Some(c.token), c.now)
            && log[fetched] == UserFetched(c.pid, c.tx, c.client, c.token, c.user, c.now)
            && log[confirmed] == MemberConfirmed(c.pid, c.tx, c.client, c.token, c.user, cfg.guild, c.now)
  {
    var c := log[coded];
    assert Justified(cfg, log[..coded], c);
    confirmed := EventPosition(log, coded, MemberConfirmed(c.pid, c.tx, c.client, c.token, c.user, cfg.guild, c.now));
    assert Justified(cfg, log[..confirmed], log[confirmed]);
    fetched := EventPosition(log, confirmed, UserFetched(c.pid, c.tx, c.client, c.token, c.user, c.now));
    assert Justified(cfg, log[..fetched], log[fetched]);
    exchanged := EventPosition(log, fetched, DiscordExchanged(c.pid, c.tx, c.client, Some(c.token), c.now));
  }

  /** From the exchange with Discord back to the taken transaction. */
  lemma ResolutionTrail(cfg: Config, log: seq<Event>, exchanged: nat) returns (taken: nat, resolved: nat)
    requires LogOk(cfg, log) && exchanged < |log| && log[exchanged].DiscordExchanged?
    ensures taken < resolved < exchanged
    ensures var e := log[exchanged];
            && log[taken] == TxTaken(e.pid, e.tx, e.now)
            && log[resolved].ClientResolved? && log[resolved].pid == e.pid && log[resolved].tx == e.tx
            && log[resolved].client == e.client && log[resolved].now == e.now
  {
    var e := log[exchanged];
    assert Justified(cfg, log[..exchanged], e);
    resolved :| 0 <= resolved < exchanged && log[..exchanged][resolved].ClientResolved? && log[resolved].pid == e.pid
                && log[resolved].tx == e.tx && log[resolved].client == e.client && log[resolved].now == e.now;
    assert Justified(cfg, log[..resolved], log[resolved]);
    taken := EventPosition(log, resolved, TxTaken(e.pid, e.tx, e.now));
  }

  lemma CallbackTrailExists(cfg: Config, log: seq<Event>, coded: nat, t: Trail) returns (t': Trail)
    requires LogOk(cfg, log) && coded < |log| && log[coded].CodeStored?
    ensures t'.coded == coded && t'.found == t.found && t'.authenticated == t.authenticated && t'.consumed == t.consumed
    ensures CallbackTrail(cfg, log, t')
  {
    var exchanged, fetched, confirmed := UpstreamTrail(cfg, log, coded);
    var taken, resolved := ResolutionTrail(cfg, log, exchanged);
    t' := t.(taken := taken, resolved := resolved, exchanged := exchanged, fetched := fetched, confirmed := confirmed,
             coded := coded);
  }

  /** From a consumption back to the code and to the authentication. */
  lemma ConsumptionTrail(cfg: Config, log: seq<Event>, consumed: nat) returns (coded: nat, authenticated: nat)
    requires LogOk(cfg, log) && consumed < |log| && log[consumed].CodeConsumed?
    ensures coded < consumed && log[coded].CodeStored? && log[coded].record == log[consumed].record
    ensures authenticated < consumed && log[authenticated].ClientAuthenticated?
    ensures var (a, c) := (log[authenticated], log[consumed]); a.pid == c.pid && a.client == c.client && a.now == c.now
  {
    var before, c := log[..consumed], log[consumed];
    assert CodeKnown(before, c.record) && AuthenticationKnown(before, c.pid, c.client, c.now) by {
      assert Justified(cfg, before, c);
    }
    coded :| 0 <= coded < |before| && before[coded].CodeStored? && before[coded].record == c.record;
    authenticated :| 0 <= authenticated < |before| && before[authenticated].ClientAuthenticated?
                     && before[authenticated].pid == c.pid && before[authenticated].client == c.client
                     && before[authenticated].now == c.now;
  }

  lemma LoginTrailExists(cfg: Config, log: seq<Event>, authenticated: nat) returns (found: nat)
    requires LogOk(cfg, log) && authenticated < |log| && log[authenticated].ClientAuthenticated?
    ensures forall t: Trail :: t.found == found && t.authenticated == authenticated ==> LoginTrail(log, t)
  {
    var before, a := log[..authenticated], log[authenticated];
    assert Justified(cfg, before, a);
    found := authenticated;
    if a.secret.Some? {
      found :| 0 <= found < |before| && before[found].ClientFound? && before[found].pid == a.pid
               && before[found].client == a.client && before[found].now == a.now;
    }
  }

  lemma TokenTrailExists(cfg: Config, log: seq<Event>, k: nat) returns (t: Trail)
    requires LogOk(cfg, log) && k < |log| && log[k].TokenIssued?
    ensures TokenTrail(log, k, t)
  {
    var i := log[k];
    assert Justified(cfg, log[..k], i);
    var consumed := EventPosition(log, k, CodeConsumed(i.pid, i.client, i.check, i.record, false, i.now));
    var coded, authenticated := ConsumptionTrail(cfg, log, consumed);
    var found := LoginTrailExists(cfg, log, authenticated);
    t := Trail(0, 0, 0, 0, 0, 0, 0, coded, found, authenticated, consumed);
  }

  /** Every issued token has its whole chain of earlier steps in the log. */
  lemma TokenHasTrail(cfg: Config, actions: seq<Action>, k: nat) returns (t: Trail)
    requires var log := Run(cfg, INIT, actions).log; k < |log| && log[k].TokenIssued?
    ensures var log := Run(cfg, INIT, actions).log;
            && TokenTrail(log, k, t) && CallbackTrail(cfg, log, t)
            && TransactionTrail(log, t, log[t.coded].tx)
  {
    InvInit(cfg);
    RunKeepsInv(cfg, INIT, actions);
    var log := Run(cfg, INIT, actions).log;
    var tokens := TokenTrailExists(cfg, log, k);
    var called := CallbackTrailExists(cfg, log, tokens.coded, tokens);
    t := TransactionTrailExists(cfg, log, called.taken, called);
  }

  /** The request was acceptable, and its transaction carries its parameters. */
  ghost predicate RequestCarried(pairs: Pairs, client: ClientConfig, tx: Transaction, now: int) {
    && VerdictFor(pairs, client).Proceed?
    && Single(pairs, "client_id") == Exactly(tx.clientId) && tx.clientId == client.clientId
    && Single(pairs, "redirect_uri") == Exactly(tx.redirectUri) && tx.redirectUri in client.redirectUris
    && tx.scope == Join(Granted(Words(ValueOf(pairs, "scope")), client.allowedScopes), " ")
    && tx.nonce == SingleOrNone(pairs, "nonce") && tx.rpState == SingleOrNone(pairs, "state")
    && Single(pairs, "code_challenge") == Exactly(tx.challenge)
    && tx.expiresAt == now + TRANSACTION_TTL_SECS
  }

  /** The token repeats the record: its client is the authenticated one, and
      the presented redirect URI and verifier are those the record demands. */
  ghost predicate RecordCarried(cfg: Config, e: Event, record: StoredCode)
    requires e.TokenIssued?
  {
    && e.resp.TokenOk?
    && var claims := e.resp.claims;
       && claims.aud == e.client.clientId == record.clientId && claims.sub == record.subject
       && claims.nonce == record.nonce && e.resp.scope == record.scope
       && claims.iss == cfg.issuer && claims.iat == e.now && claims.exp == e.now + cfg.idTokenTtl
       && e.check.redirectUri == record.redirectUri && Pkce.VerifyS256(cfg.sha, e.check.verifier, record.challenge)
       && e.now < record.expiresAt && AccessTokenOk(cfg.sha, e.resp)
  }

  lemma RequestIsCarried(cfg: Config, before: seq<Event>, e: Event)
    requires e.Proceeded? && Justified(cfg, before, e)
    ensures RequestCarried(e.pairs, e.client, e.tx, e.now)
  {
    VerdictExact(e.pairs, e.client);
    SingleIs(e.pairs, "redirect_uri", ValueOf(e.pairs, "redirect_uri"));
    SingleIs(e.pairs, "code_challenge", ValueOf(e.pairs, "code_challenge"));
  }

  lemma IssuedTokenOk(cfg: Config, before: seq<Event>, e: Event)
    requires e.TokenIssued? && Justified(cfg, before, e)
    ensures e.resp.TokenOk? && AccessTokenOk(cfg.sha, e.resp)
  {
    var draw: Bytes32 :| e.resp == TokenOk(TokenText(draw), cfg.idTokenTtl, e.record.scope,
                                           ClaimsFor(cfg, e.client, e.record, TokenText(draw), e.now));
    SignedTokenOk(cfg, e.client, e.record, draw, e.now);
  }

  lemma RecordIsCarried(cfg: Config, log: seq<Event>, k: nat, t: Trail)
    requires LogOk(cfg, log) && TokenTrail(log, k, t)
    ensures RecordCarried(cfg, log[k], log[t.coded].record)
  {
    IssuedTokenOk(cfg, log[..k], log[k]);
    assert Justified(cfg, log[..k], log[k]);
    assert Justified(cfg, log[..t.consumed], log[t.consumed]);
  }

  /** The client of `/token` resolved in the registry that `found` saw, and is
      of the type, and was shown by the means, that its method demands. */
  ghost predicate LoggedIn(cfg: Config, found: Event, login: Event, client: ClientConfig, now: int)
    requires (found.ClientFound? || found.ClientAuthenticated?) && login.ClientAuthenticated?
  {
    match login.secret
    case None => IsOfType(cfg, found.records, client, Public, NoAuthentication)
    case Some(s) =>
      && IsOfType(cfg, found.records, client, Confidential, ClientSecretBasic)
      && VerifyClientSecret(cfg, login.records, client.clientId, s, now)
  }

  /** The verifier belongs to the challenge of the request. */
  ghost predicate Redeems(cfg: Config, pairs: Pairs, verifier: string) {
    exists c :: Single(pairs, "code_challenge") == Exactly(c) && Pkce.VerifyS256(cfg.sha, verifier, c)
  }

  /** What a token says is what its own authorization request asked for, of a
      client that `/authorize` resolved, bound to the authenticated client and
      to the user whom Discord named to the callback that stored the code. */
  ghost predicate Faithful(cfg: Config, request: Event, resolved: Event, code: Event, found: Event, login: Event,
                           issued: Event)
    requires request.Proceeded? && resolved.ClientResolved? && code.CodeStored? && issued.TokenIssued?
    requires (found.ClientFound? || found.ClientAuthenticated?) && login.ClientAuthenticated?
  {
    && issued.resp.TokenOk?
    && var claims := issued.resp.claims;
       && VerdictFor(request.pairs, request.client).Proceed?
       && FindClient(cfg, request.records, claims.aud) == Some(request.client)
       && Single(request.pairs, "client_id") == Exactly(claims.aud)
       && claims.aud == issued.client.clientId == code.tx.clientId
       && LoggedIn(cfg, found, login, issued.client, issued.now)
       && claims.nonce == SingleOrNone(request.pairs, "nonce")
       && issued.resp.scope == Join(Granted(Words(ValueOf(request.pairs, "scope")), request.client.allowedScopes), " ")
       && Single(request.pairs, "redirect_uri") == Exactly(issued.check.redirectUri)
       && issued.check.redirectUri in request.client.redirectUris
       && issued.check.redirectUri in code.client.redirectUris
       && FindClient(cfg, resolved.records, claims.aud) == Some(code.client)
       && Redeems(cfg, request.pairs, issued.check.verifier)
       && claims.sub == code.user && IsDigits(claims.sub)
       && claims.iss == cfg.issuer && claims.exp == claims.iat + cfg.idTokenTtl && claims.iat == issued.now
       && AccessTokenOk(cfg.sha, issued.resp)
       && issued.now <= request.now + 658
  }

  lemma FaithfulFrom(cfg: Config, request: Event, resolved: Event, code: Event, found: Event, login: Event,
                     issued: Event)
    requires request.Proceeded? && resolved.ClientResolved? && code.CodeStored? && issued.TokenIssued?
    requires (found.ClientFound? || found.ClientAuthenticated?) && login.ClientAuthenticated?
    requires RequestCarried(request.pairs, request.client, code.tx, request.now)
    requires RecordCarried(cfg, issued, code.record)
    requires FindClient(cfg, request.records, request.client.clientId) == Some(request.client)
    requires code.record == IssueCode(cfg.sha, code.tx, code.user, code.draw, code.now)
    requires code.now < code.tx.expiresAt && IsDigits(code.user)
    requires resolved.client == code.client && code.tx.redirectUri in code.client.redirectUris
    requires FindClient(cfg, resolved.records, code.tx.clientId) == Some(code.client)
    requires LoggedIn(cfg, found, login, issued.client, issued.now)
    ensures Faithful(cfg, request, resolved, code, found, login, issued)
  {
  }

  /** What each remaining step of the trail checked. */
  lemma StepsChecked(cfg: Config, before: seq<Event>, e: Event)
    requires Justified(cfg, before, e)
    ensures e.Proceeded? ==>
      RegistryInv(cfg, e.records) && FindClient(cfg, e.records, e.client.clientId) == Some(e.client)
    ensures e.ClientResolved? ==>
      e.tx.redirectUri in e.client.redirectUris && FindClient(cfg, e.records, e.tx.clientId) == Some(e.client)
    ensures e.UserFetched? ==> IsDigits(e.user)
    ensures e.TxTaken? ==> e.now < e.tx.expiresAt
    ensures e.CodeStored? ==> e.record == IssueCode(cfg.sha, e.tx, e.user, e.draw, e.now)
  {
  }

  lemma LoginChecked(cfg: Config, log: seq<Event>, t: Trail)
    requires LogOk(cfg, log) && LoginTrail(log, t)
    ensures var a := log[t.authenticated]; LoggedIn(cfg, log[t.found], a, a.client, a.now)
  {
    assert Justified(cfg, log[..t.authenticated], log[t.authenticated]);
    assert Justified(cfg, log[..t.found], log[t.found]);
  }

  lemma TrailIsFaithful(cfg: Config, log: seq<Event>, k: nat, t: Trail)
    requires LogOk(cfg, log)
    requires TokenTrail(log, k, t) && CallbackTrail(cfg, log, t) && TransactionTrail(log, t, log[t.coded].tx)
    ensures Faithful(cfg, log[t.proceeded], log[t.resolved], log[t.coded], log[t.found], log[t.authenticated], log[k])
  {
    RequestIsCarried(cfg, log[..t.proceeded], log[t.proceeded]);
    RecordIsCarried(cfg, log, k, t);
    StepsChecked(cfg, log[..t.proceeded], log[t.proceeded]);
    StepsChecked(cfg, log[..t.taken], log[t.taken]);
    StepsChecked(cfg, log[..t.resolved], log[t.resolved]);
    StepsChecked(cfg, log[..t.fetched], log[t.fetched]);
    StepsChecked(cfg, log[..t.coded], log[t.coded]);
    LoginChecked(cfg, log, t);
    FaithfulFrom(cfg, log[t.proceeded], log[t.resolved], log[t.coded], log[t.found], log[t.authenticated], log[k]);
  }

  /** Every ID Token of every interleaved run is faithful to one authorization
      request, and comes at most 658 seconds after it by the requests' own
      clocks, whatever those clocks do. The trail carries the guild check: it
      ran for the same user with the same Discord access token. */
  lemma TokensAreFaithful(cfg: Config, actions: seq<Action>, k: nat) returns (t: Trail)
    requires var log := Run(cfg, INIT, actions).log; k < |log| && log[k].TokenIssued?
    ensures var log := Run(cfg, INIT, actions).log;
            && TokenTrail(log, k, t) && CallbackTrail(cfg, log, t) && TransactionTrail(log, t, log[t.coded].tx)
            && Faithful(cfg, log[t.proceeded], log[t.resolved], log[t.coded], log[t.found], log[t.authenticated],
                        log[k])
  {
    InvInit(cfg);
    RunKeepsInv(cfg, INIT, actions);
    t := TokenHasTrail(cfg, actions, k);
    TrailIsFaithful(cfg, Run(cfg, INIT, actions).log, k, t);
  }

  /** The scopes of a token that is faithful to a request. */
  ghost predicate GrantsOpenid(scope: string, pairs: Pairs, client: ClientConfig) {
    && "openid" in Words(scope)
    && forall w :: w in Words(scope) <==> w in Words(ValueOf(pairs, "scope")) && w in client.allowedScopes
  }

  lemma RequestGrantsOpenid(cfg: Config, before: seq<Event>, e: Event)
    requires ConfigOk(cfg) && e.Proceeded? && Justified(cfg, before, e)
    ensures GrantsOpenid(Join(Granted(Words(ValueOf(e.pairs, "scope")), e.client.allowedScopes), " "), e.pairs,
                         e.client)
  {
    var scope := ValueOf(e.pairs, "scope");
    assert "openid" in e.client.allowedScopes by {
      StepsChecked(cfg, before, e);
      ResolvedClient(cfg, e.records, e.client.clientId);
    }
    assert "openid" in Words(scope) by { ProceedScope(e.pairs, e.client); }
    GrantedExact(Words(scope), e.client.allowedScopes);
    GrantResplits(scope, e.client.allowedScopes);
  }

  /** With a validated configuration every token grants `openid`, and grants
      nothing else than what its request asked for and its client may have. */
  lemma TokensGrantOpenid(cfg: Config, actions: seq<Action>, k: nat) returns (t: Trail)
    requires ConfigOk(cfg)
    requires var log := Run(cfg, INIT, actions).log; k < |log| && log[k].TokenIssued?
    ensures var log := Run(cfg, INIT, actions).log;
            && TokenTrail(log, k, t) && CallbackTrail(cfg, log, t) && TransactionTrail(log, t, log[t.coded].tx)
            && log[k].resp.TokenOk? && GrantsOpenid(log[k].resp.scope, log[t.proceeded].pairs, log[t.proceeded].client)
  {
    t := TokensAreFaithful(cfg, actions, k);
    var log := Run(cfg, INIT, actions).log;
    assert Justified(cfg, log[..t.proceeded], log[t.proceeded]) by {
      InvInit(cfg);
      RunKeepsInv(cfg, INIT, actions);
    }
    RequestGrantsOpenid(cfg, log[..t.proceeded], log[t.proceeded]);
  }

  /** The entry names the registry that its step has read. */
  predicate NamesRegistry(e: Event) {
    e.Proceeded? || e.Refused? || e.ClientResolved? || e.ClientFound? || e.ClientAuthenticated?
  }

  /** The registry a logged step names is the registry of that moment. */
  lemma RecordsAreCurrent(cfg: Config, actions: seq<Action>, k: nat)
    requires k < |actions|
    ensures var log := Run(cfg, INIT, actions).log;
            k < |log| && (NamesRegistry(log[k]) ==> log[k].records == At(cfg, INIT, actions, k).records)
  {
    EventOfAction(cfg, INIT, actions, k);
    var s, a := At(cfg, INIT, actions, k), actions[k];
    if a.Advance? && a.pid < |s.procs| {
      var (p, store, e) := AdvanceProcess(cfg, s, a.pid, a.input);
      assert Step(cfg, s, a).log == s.log + [e];
      EventNamesRegistry(cfg, s, a.pid, a.input);
    }
  }

  lemma EventNamesRegistry(cfg: Config, s: State, pid: nat, i: Input)
    requires pid < |s.procs|
    ensures var e := AdvanceProcess(cfg, s, pid, i).2; NamesRegistry(e) ==> e.records == s.records
  {
  }

  /** Where `/authorize` sends the browser: in every run a request that ends by
      sending it to Discord does so with the state under which it has itself
      stored its transaction, and asks for consent exactly when the request did. */
  lemma DiscordStateIsStored(cfg: Config, actions: seq<Action>, pid: nat) returns (stored: nat)
    requires var s := Run(cfg, INIT, actions);
             && pid < |s.procs| && s.procs[pid].AuthorizeProcess? && s.procs[pid].authorize.Finished?
             && s.procs[pid].authorize.resp.ToDiscord?
    ensures var s := Run(cfg, INIT, actions);
            var answer := s.procs[pid].authorize.resp;
            && stored < |s.log| && s.log[stored].TxStored? && s.log[stored].pid == pid
            && s.log[stored].tx.discordState == answer.discordState
            && (answer.consent <==> AsksConsent(s.log[stored].pairs))
  {
    InvInit(cfg);
    RunKeepsInv(cfg, INIT, actions);
    var s := Run(cfg, INIT, actions);
    assert Supported(cfg, s.log, pid, s.procs[pid]);
    var answer := s.procs[pid].authorize.resp;
    stored :| 0 <= stored < |s.log| && s.log[stored].TxStored? && s.log[stored].pid == pid
              && s.log[stored].tx.discordState == answer.discordState
              && (answer.consent <==> AsksConsent(s.log[stored].pairs));
  }
}
