/** Honest completeness: a login that does everything right gets its token, in
    any interleaved run that leaves its own records alone. */
module Completeness {
  import opened Basics
  import opened Text
  import opened Form
  import opened Params
  import opened Client
  import opened Resolver
  import opened Code
  import opened AuthorizationStore
  import opened Util
  import opened Authorize
  import opened Callback
  import opened Token
  import opened Protocol
  import opened Provenance
  import opened NonInterference
  import opened TokenRequest
  import Pkce

  // ---------- One request among others ----------

  /** No step in the range belongs to request `pid`. */
  ghost predicate Idle(actions: seq<Action>, pid: nat, from: nat, to: nat)
    requires from <= to <= |actions|
  {
    forall k :: from <= k < to && actions[k].Advance? ==> actions[k].pid != pid
  }

  /** Where request `pid` was left before its `n`th step from `from` on. */
  function LeftAt(from: nat, steps: seq<nat>, n: nat): nat
    requires n <= |steps|
  {
    if n == 0 then from else steps[n - 1] + 1
  }

  /** Step `n` comes after the one before it, with no other step of the request between. */
  ghost predicate IsNext(actions: seq<Action>, pid: nat, from: nat, steps: seq<nat>, n: nat)
    requires n < |steps| && steps[n] < |actions|
  {
    LeftAt(from, steps, n) <= steps[n] && Idle(actions, pid, LeftAt(from, steps, n), steps[n])
  }

  /** `steps` are the positions of the next steps of request `pid` from `from`
      on; any other actions lie between them. */
  ghost predicate StepsOf(actions: seq<Action>, pid: nat, from: nat, steps: seq<nat>) {
    && (forall n :: 0 <= n < |steps| ==>
        steps[n] < |actions| && actions[steps[n]].Advance? && actions[steps[n]].pid == pid)
    && forall n {:trigger IsNext(actions, pid, from, steps, n)} :: 0 <= n < |steps| ==>
         IsNext(actions, pid, from, steps, n)
  }

  function InputAt(actions: seq<Action>, k: nat): Input
    requires k < |actions| && actions[k].Advance?
  {
    actions[k].input
  }

  lemma {:induction false} IdlePhase(cfg: Config, trace: seq<State>, actions: seq<Action>, pid: nat, from: nat,
                                     to: nat, p: Process)
    requires IsTrace(cfg, trace, actions) && from <= to <= |actions| && Idle(actions, pid, from, to)
    requires InPhase(trace[from], pid, p)
    ensures InPhase(trace[to], pid, p)
  {
    if from < to {
      IdlePhase(cfg, trace, actions, pid, from, to - 1, p);
      assert Follows(cfg, trace, actions, to - 1);
    }
  }

  /** Own step `n` acts on the phase in which the step before it left the
      request. */
  lemma OwnStep(cfg: Config, trace: seq<State>, actions: seq<Action>, pid: nat, from: nat, steps: seq<nat>, n: nat,
                p: Process)
    requires IsTrace(cfg, trace, actions) && StepsOf(actions, pid, from, steps) && n < |steps|
    requires LeftAt(from, steps, n) <= |actions| && InPhase(trace[LeftAt(from, steps, n)], pid, p)
    ensures InPhase(trace[steps[n]], pid, p)
    ensures var (q, store, _) := AdvanceProcess(cfg, trace[steps[n]], pid, InputAt(actions, steps[n]));
            InPhase(trace[steps[n] + 1], pid, q) && trace[steps[n] + 1].store == store
  {
    assert IsNext(actions, pid, from, steps, n);
    IdlePhase(cfg, trace, actions, pid, LeftAt(from, steps, n), steps[n], p);
    assert Follows(cfg, trace, actions, steps[n]);
  }

  lemma TraceInv(cfg: Config, trace: seq<State>, actions: seq<Action>, k: nat)
    requires IsTrace(cfg, trace, actions) && Inv(cfg, trace[0]) && k <= |actions|
    ensures Inv(cfg, trace[k])
  {
    TraceOfRun(cfg, trace, actions, k);
    RunKeepsInv(cfg, trace[0], actions[..k]);
  }

  // ---------- What has to go right ----------

  /** The client is there, with the redirect URI of the transaction. */
  ghost predicate Receives(cfg: Config, s: State, tx: Transaction) {
    FindClient(cfg, s.records, tx.clientId).Some?
      && tx.redirectUri in FindClient(cfg, s.records, tx.clientId).value.redirectUris
  }

  /** The client is there and of the type the credentials are for. */
  ghost predicate Serves(cfg: Config, s: State, id: string, p: Presented) {
    && FindClient(cfg, s.records, id).Some?
    && FindClient(cfg, s.records, id).value.clientType == (if p.PublicId? then Public else Confidential)
  }

  /** The client is good at the moments a token request reads the registry. */
  ghost predicate ServesWhenRead(cfg: Config, trace: seq<State>, steps: seq<nat>, id: string, p: Presented, now: int)
    requires |steps| >= 2 && steps[0] < |trace| && steps[1] < |trace|
  {
    && Serves(cfg, trace[steps[0]], id, p)
    && (p.BasicSecret? ==> VerifyClientSecret(cfg, trace[steps[1]].records, id, p.secret, now))
  }

  /** The callback query names the Discord state and an upstream code, and no error. */
  ghost predicate CarriesCode(lossy: Lossy, query: string, state: string) {
    var pairs := ParseForm(lossy, query);
    FirstValue(pairs, "state") == Some(state) && FirstValue(pairs, "code").Some? && FirstValue(pairs, "error") == None
  }

  lemma TwoPairsParse(lossy: Lossy, a: (string, string), b: (string, string))
    requires LossyOk(lossy) && IsString(a.0) && IsString(a.1) && IsString(b.0) && IsString(b.1)
    ensures PairsOk([a, b]) && ParseForm(lossy, EncodePairs([a, b])) == [a, b]
  {
    FormRoundTrip(lossy, [a, b]);
  }

  lemma FirstOfTwo(a: (string, string), b: (string, string), name: string)
    ensures FirstValue([a, b], name) == if a.0 == name then Some(a.1) else if b.0 == name then Some(b.1) else None
  {
    var both, last := [a, b], [b];
    assert both[1..] == last && last[1..] == [];
    assert FirstValue(last, name) == if b.0 == name then Some(b.1) else None;
  }

  /** What Discord's redirect prints as the query. */
  ghost function PrintedQuery(code: string, state: string): string {
    var pairs := [("code", code), ("state", state)];
    if PairsOk(pairs) then EncodePairs(pairs) else ""
  }

  lemma PrintedQueryCarriesCode(lossy: Lossy, code: string, draw: Bytes32)
    requires LossyOk(lossy) && IsString(code)
    ensures CarriesCode(lossy, PrintedQuery(code, TokenText(draw)), TokenText(draw))
  {
    TextOfToken(draw);
    TextOfAscii("code");
    TextOfAscii("state");
    var a, b := ("code", code), ("state", TokenText(draw));
    TwoPairsParse(lossy, a, b);
    FirstOfTwo(a, b, "state");
    FirstOfTwo(a, b, "code");
    FirstOfTwo(a, b, "error");
  }

  /** One login: what was asked at `/authorize` and the Discord state sent in
      answer, what the two later requests carry and when, and where all its
      steps are in the run. `draw` is the entropy of the code. */
  datatype Login = Login(
    pid: nat, pairs: Pairs, client: ClientConfig, v: Validated, tx: Transaction, askedAt: int, sent: string,
    query: string, user: string, draw: Bytes32, calledAt: int,
    presented: Presented, body: string, header: Option<string>, verifier: string, redeemedAt: int,
    stored: nat, callbackPid: nat, callbackStart: nat, callbackSteps: seq<nat>,
    tokenPid: nat, tokenStart: nat, tokenSteps: seq<nat>)

  function RecordOf(cfg: Config, l: Login): StoredCode { IssueCode(cfg.sha, l.tx, l.user, l.draw, l.calledAt) }

  // ---------- The callback ----------

  /** Storage answers, Discord grants a token and names a user, and the user is
      in the guild. */
  ghost predicate CallbackGoesWell(actions: seq<Action>, pid: nat, from: nat, steps: seq<nat>, user: string,
                                   draw: Bytes32) {
    && StepsOf(actions, pid, from, steps) && |steps| == 6
    && InputAt(actions, steps[0]).fault == Delivered && InputAt(actions, steps[1]).fault == Delivered
    && InputAt(actions, steps[2]).discordToken.Some?
    && InputAt(actions, steps[3]).discordUser == Some(user) && IsDigits(user)
    && InputAt(actions, steps[4]).member == IsMember && InputAt(actions, steps[4]).drawA == draw
    && InputAt(actions, steps[5]).fault == Delivered
  }

  lemma TransactionIsTaken(cfg: Config, trace: seq<State>, actions: seq<Action>, pid: nat, from: nat, steps: seq<nat>,
                           tx: Transaction, code: string, now: int)
    requires IsTrace(cfg, trace, actions) && StepsOf(actions, pid, from, steps) && |steps| >= 2 && from <= |actions|
    requires InPhase(trace[from], pid, CallbackProcess(Taking(tx.discordState, Some(code), None, now)))
    requires HasTransaction(trace[steps[0]].store, tx) && now < tx.expiresAt
    requires InputAt(actions, steps[0]).fault == Delivered && InputAt(actions, steps[1]).fault == Delivered
    requires FindClient(cfg, trace[steps[1]].records, tx.clientId).Some?
    requires tx.redirectUri in FindClient(cfg, trace[steps[1]].records, tx.clientId).value.redirectUris
    ensures InPhase(trace[steps[1] + 1], pid,
              CallbackProcess(Exchanging(tx, FindClient(cfg, trace[steps[1]].records, tx.clientId).value, code, now)))
  {
    OwnStep(cfg, trace, actions, pid, from, steps, 0, CallbackProcess(Taking(tx.discordState, Some(code), None, now)));
    OwnStep(cfg, trace, actions, pid, from, steps, 1, CallbackProcess(Resolving(tx, Some(code), None, now)));
  }

  lemma UserIsConfirmed(cfg: Config, trace: seq<State>, actions: seq<Action>, pid: nat, from: nat, steps: seq<nat>,
                        tx: Transaction, client: ClientConfig, code: string, user: string, draw: Bytes32, now: int)
    requires IsTrace(cfg, trace, actions) && CallbackGoesWell(actions, pid, from, steps, user, draw)
    requires InPhase(trace[steps[1] + 1], pid, CallbackProcess(Exchanging(tx, client, code, now)))
    ensures InPhase(trace[steps[4] + 1], pid,
              CallbackProcess(StoringCode(tx, client, InputAt(actions, steps[2]).discordToken.value, user, draw,
                                          IssueCode(cfg.sha, tx, user, draw, now), now)))
  {
    var token := InputAt(actions, steps[2]).discordToken.value;
    OwnStep(cfg, trace, actions, pid, from, steps, 2, CallbackProcess(Exchanging(tx, client, code, now)));
    OwnStep(cfg, trace, actions, pid, from, steps, 3, CallbackProcess(FetchingUser(tx, client, token, now)));
    OwnStep(cfg, trace, actions, pid, from, steps, 4, CallbackProcess(CheckingMember(tx, client, token, user, now)));
  }

  lemma CodeIsStored(cfg: Config, trace: seq<State>, actions: seq<Action>, pid: nat, from: nat, steps: seq<nat>,
                     tx: Transaction, client: ClientConfig, token: string, user: string, draw: Bytes32,
                     record: StoredCode, now: int)
    requires IsTrace(cfg, trace, actions) && StepsOf(actions, pid, from, steps) && |steps| == 6
    requires InPhase(trace[steps[4] + 1], pid, CallbackProcess(StoringCode(tx, client, token, user, draw, record, now)))
    requires InputAt(actions, steps[5]).fault == Delivered
    ensures HasCode(trace[steps[5] + 1].store, record)
    ensures InPhase(trace[steps[5] + 1], pid,
                    CallbackProcess(Answered(CodeToClient(tx.redirectUri, TokenText(draw), tx.rpState))))
  {
    OwnStep(cfg, trace, actions, pid, from, steps, 5,
            CallbackProcess(StoringCode(tx, client, token, user, draw, record, now)));
  }

  lemma UpstreamSucceeds(cfg: Config, trace: seq<State>, actions: seq<Action>, pid: nat, from: nat, steps: seq<nat>,
                         tx: Transaction, client: ClientConfig, code: string, user: string, draw: Bytes32, now: int)
    requires IsTrace(cfg, trace, actions) && CallbackGoesWell(actions, pid, from, steps, user, draw)
    requires InPhase(trace[steps[1] + 1], pid, CallbackProcess(Exchanging(tx, client, code, now)))
    ensures HasCode(trace[steps[5] + 1].store, IssueCode(cfg.sha, tx, user, draw, now))
    ensures InPhase(trace[steps[5] + 1], pid,
                    CallbackProcess(Answered(CodeToClient(tx.redirectUri, TokenText(draw), tx.rpState))))
  {
    UserIsConfirmed(cfg, trace, actions, pid, from, steps, tx, client, code, user, draw, now);
    CodeIsStored(cfg, trace, actions, pid, from, steps, tx, client, InputAt(actions, steps[2]).discordToken.value,
                 user, draw,
                 IssueCode(cfg.sha, tx, user, draw, now), now);
  }

  // ---------- The token request ----------

  /** A token request has one more await when there is a secret to verify. */
  function StepsNeeded(p: Presented): nat { if p.PublicId? then 3 else 4 }

  /** Storage answers at every step, and the signer succeeds. */
  ghost predicate TokenGoesWell(actions: seq<Action>, pid: nat, from: nat, steps: seq<nat>, p: Presented) {
    && StepsOf(actions, pid, from, steps) && |steps| == StepsNeeded(p)
    && (forall n :: 0 <= n < |steps| ==> InputAt(actions, steps[n]).fault == Delivered)
    && InputAt(actions, steps[|steps| - 1]).signed
  }

  lemma MatchIsConsumed(cfg: Config, s: State, pid: nat, i: Input, client: ClientConfig, check: ExchangeCheck,
                        record: StoredCode, now: int)
    requires HasCode(s.store, record) && FullyMatches(cfg.sha, record, check, now) && i.fault == Delivered
    requires InPhase(s, pid, TokenProcess(Consuming(client, record.codeHash, check, now)))
    ensures AdvanceProcess(cfg, s, pid, i).0 == TokenProcess(Signing(client, check, record, now))
  {
    ConsumeExact(cfg.sha, s.store, record.codeHash, check, now);
  }

  lemma TokenIsSigned(cfg: Config, s: State, pid: nat, i: Input, client: ClientConfig, check: ExchangeCheck,
                      record: StoredCode, now: int)
    requires InPhase(s, pid, TokenProcess(Signing(client, check, record, now))) && i.signed
    ensures AdvanceProcess(cfg, s, pid, i).0 == TokenProcess(AfterSign(cfg, client, record, i.drawA, true, now))
  {
  }

  /** Once past authentication, a matching code in the store becomes a token. */
  lemma CodeIsRedeemed(cfg: Config, trace: seq<State>, actions: seq<Action>, pid: nat, from: nat, steps: seq<nat>,
                       n: nat, client: ClientConfig, check: ExchangeCheck, record: StoredCode, now: int)
    requires IsTrace(cfg, trace, actions) && StepsOf(actions, pid, from, steps) && |steps| == n + 2
    requires LeftAt(from, steps, n) <= |actions|
    requires InPhase(trace[LeftAt(from, steps, n)], pid, TokenProcess(Consuming(client, record.codeHash, check, now)))
    requires HasCode(trace[steps[n]].store, record) && FullyMatches(cfg.sha, record, check, now)
    requires InputAt(actions, steps[n]).fault == Delivered && InputAt(actions, steps[n + 1]).signed
    ensures InPhase(trace[steps[n + 1] + 1], pid,
              TokenProcess(AfterSign(cfg, client, record, InputAt(actions, steps[n + 1]).drawA, true, now)))
  {
    OwnStep(cfg, trace, actions, pid, from, steps, n, TokenProcess(Consuming(client, record.codeHash, check, now)));
    MatchIsConsumed(cfg, trace[steps[n]], pid, InputAt(actions, steps[n]), client, check, record, now);
    OwnStep(cfg, trace, actions, pid, from, steps, n + 1, TokenProcess(Signing(client, check, record, now)));
    TokenIsSigned(cfg, trace[steps[n + 1]], pid, InputAt(actions, steps[n + 1]), client, check, record, now);
  }

  /** The registry resolves `id` to `client`, whose type fits the credentials. */
  ghost predicate Resolves(cfg: Config, s: State, id: string, client: ClientConfig, p: Presented) {
    && FindClient(cfg, s.records, id) == Some(client) && client.clientId == id
    && client.clientType == (if p.PublicId? then Public else Confidential)
         && MethodMatchesType(client.clientType, client.authMethod)
  }

  lemma ServedResolves(cfg: Config, trace: seq<State>, actions: seq<Action>, k: nat, id: string, p: Presented)
    returns (client: ClientConfig)
    requires ConfigOk(cfg) && IsTrace(cfg, trace, actions) && Inv(cfg, trace[0]) && k <= |actions|
    requires Serves(cfg, trace[k], id, p)
    ensures Resolves(cfg, trace[k], id, client, p)
  {
    TraceInv(cfg, trace, actions, k);
    ResolvedClient(cfg, trace[k].records, id);
    client := FindClient(cfg, trace[k].records, id).value;
  }

  /** Where the request is once its client is found. */
  function FoundPhase(cfg: Config, pairs: Pairs, client: ClientConfig, id: string, p: Presented, now: int): TokenPhase {
    match p
    case PublicId => AfterAuthentication(cfg.sha, pairs, client, now)
    case BasicSecret(secret, _) => VerifyingSecret(pairs, client, id, secret, now)
  }

  lemma ClientIsFound(cfg: Config, s: State, pid: nat, i: Input, pairs: Pairs, id: string, client: ClientConfig,
                      p: Presented, now: int)
    requires Resolves(cfg, s, id, client, p) && i.fault == Delivered
    requires InPhase(s, pid, TokenProcess(FindingClient(pairs, CredentialOf(id, p), now)))
    ensures AdvanceProcess(cfg, s, pid, i).0 == TokenProcess(FoundPhase(cfg, pairs, client, id, p, now))
  {
  }

  lemma SecretIsVerified(cfg: Config, s: State, pid: nat, i: Input, pairs: Pairs, client: ClientConfig, id: string,
                         p: Presented, now: int)
    requires p.BasicSecret? && VerifyClientSecret(cfg, s.records, id, p.secret, now) && i.fault == Delivered
    requires InPhase(s, pid, TokenProcess(VerifyingSecret(pairs, client, id, p.secret, now)))
    ensures AdvanceProcess(cfg, s, pid, i).0 == TokenProcess(AfterAuthentication(cfg.sha, pairs, client, now))
  {
  }

  lemma FindingEnds(cfg: Config, trace: seq<State>, actions: seq<Action>, pid: nat, from: nat, steps: seq<nat>,
                    pairs: Pairs, id: string, client: ClientConfig, p: Presented, now: int)
    requires IsTrace(cfg, trace, actions) && StepsOf(actions, pid, from, steps) && steps != []
    requires InputAt(actions, steps[0]).fault == Delivered && Resolves(cfg, trace[steps[0]], id, client, p)
    requires from <= |actions|
    requires InPhase(trace[from], pid, TokenProcess(FindingClient(pairs, CredentialOf(id, p), now)))
    ensures InPhase(trace[steps[0] + 1], pid, TokenProcess(FoundPhase(cfg, pairs, client, id, p, now)))
  {
    OwnStep(cfg, trace, actions, pid, from, steps, 0, TokenProcess(FindingClient(pairs, CredentialOf(id, p), now)));
    ClientIsFound(cfg, trace[steps[0]], pid, InputAt(actions, steps[0]), pairs, id, client, p, now);
  }

  lemma VerifyingEnds(cfg: Config, trace: seq<State>, actions: seq<Action>, pid: nat, from: nat, steps: seq<nat>,
                      pairs: Pairs, client: ClientConfig, id: string, p: Presented, now: int)
    requires IsTrace(cfg, trace, actions)
    requires TokenGoesWell(actions, pid, from, steps, p) && p.BasicSecret?
    requires ServesWhenRead(cfg, trace, steps, id, p, now)
    requires InPhase(trace[steps[0] + 1], pid, TokenProcess(VerifyingSecret(pairs, client, id, p.secret, now)))
    ensures InPhase(trace[steps[1] + 1], pid, TokenProcess(AfterAuthentication(cfg.sha, pairs, client, now)))
  {
    OwnStep(cfg, trace, actions, pid, from, steps, 1, TokenProcess(VerifyingSecret(pairs, client, id, p.secret, now)));
    SecretIsVerified(cfg, trace[steps[1]], pid, InputAt(actions, steps[1]), pairs, client, id, p, now);
  }

  /** The right credentials get past authentication. */
  lemma ClientIsAuthenticated(cfg: Config, trace: seq<State>, actions: seq<Action>, pid: nat, from: nat,
                              steps: seq<nat>, pairs: Pairs, id: string, client: ClientConfig, p: Presented, now: int)
    requires IsTrace(cfg, trace, actions) && TokenGoesWell(actions, pid, from, steps, p)
    requires ServesWhenRead(cfg, trace, steps, id, p, now) && Resolves(cfg, trace[steps[0]], id, client, p)
    requires from <= |actions|
    requires InPhase(trace[from], pid, TokenProcess(FindingClient(pairs, CredentialOf(id, p), now)))
    ensures InPhase(trace[steps[|steps| - 3] + 1], pid, TokenProcess(AfterAuthentication(cfg.sha, pairs, client, now)))
  {
    FindingEnds(cfg, trace, actions, pid, from, steps, pairs, id, client, p, now);
    if p.BasicSecret? { VerifyingEnds(cfg, trace, actions, pid, from, steps, pairs, client, id, p, now); }
  }

  // ---------- The login ----------

  /** The state in the answer that sends the browser to Discord. */
  function StateSent(s: State, pid: nat): string {
    if pid < |s.procs| && s.procs[pid].AuthorizeProcess? && s.procs[pid].authorize.Finished?
       && s.procs[pid].authorize.resp.ToDiscord?
    then s.procs[pid].authorize.resp.discordState
    else ""
  }

  /** The request that proceeded in the first state has its transaction stored
      and its answer sent. */
  ghost predicate AuthorizeGoesWell(trace: seq<State>, actions: seq<Action>, l: Login)
    requires |trace| == |actions| + 1
  {
    && InPhase(trace[0], l.pid, AuthorizeProcess(Storing(l.pairs, l.client, l.v, l.tx, l.askedAt)))
    && StepsOf(actions, l.pid, 0, [l.stored]) && InputAt(actions, [l.stored][0]).fault == Delivered
    && l.sent == StateSent(trace[l.stored + 1], l.pid)
  }

  /** The callback comes within 600 s of the request, for its transaction,
      which nothing else has taken, replaced or swept, and finds the client with
      the redirect URI still registered. */
  ghost predicate CalledInTime(cfg: Config, trace: seq<State>, actions: seq<Action>, l: Login)
    requires |trace| == |actions| + 1
  {
    && l.callbackStart < |actions| && actions[l.callbackStart] == StartCallback(l.query, l.calledAt)
    && l.callbackPid == |trace[l.callbackStart].procs|
    && CallbackGoesWell(actions, l.callbackPid, l.callbackStart + 1, l.callbackSteps, l.user, l.draw)
    && l.calledAt < l.askedAt + 600
    && Receives(cfg, trace[l.callbackSteps[1]], l.tx)
    && l.stored < l.callbackSteps[0] && TransactionUndisturbed(trace, actions, l.stored + 1, l.callbackSteps[0], l.tx)
  }

  /** The token request comes within 60 s of the callback with the right verifier. */
  ghost predicate RedeemsInTime(cfg: Config, trace: seq<State>, actions: seq<Action>, l: Login)
    requires |trace| == |actions| + 1
  {
    && Pkce.IsValidVerifier(l.verifier) && HashText(cfg.sha, l.verifier) == l.tx.challenge
    && l.redeemedAt < l.calledAt + 60
    && l.tokenStart < |actions| && actions[l.tokenStart] == StartToken(l.body, l.header, l.redeemedAt)
    && l.tokenPid == |trace[l.tokenStart].procs|
  }

  /** The two later requests say what they should: the callback query carries a
      code for the Discord state that `/authorize` sent, the token body asks with the
      code and the verifier, and the header shows the credentials. */
  ghost predicate SaysItRight(lossy: Lossy, l: Login) {
    && CarriesCode(lossy, l.query, l.sent)
    && Asks(lossy, l.body, TokenText(l.draw), l.tx.redirectUri, l.verifier, BodyId(l.tx.clientId, l.presented))
    && Shows(l.header, l.tx.clientId, l.presented)
  }

  /** Its steps go well, the client is good when they read it, and nothing else
      has used, replaced or swept the code. */
  ghost predicate RedeemsUndisturbed(cfg: Config, trace: seq<State>, actions: seq<Action>, l: Login)
    requires |trace| == |actions| + 1 && |l.callbackSteps| == 6
  {
    && TokenGoesWell(actions, l.tokenPid, l.tokenStart + 1, l.tokenSteps, l.presented)
    && ServesWhenRead(cfg, trace, l.tokenSteps, l.tx.clientId, l.presented, l.redeemedAt)
    && var consume := l.tokenSteps[|l.tokenSteps| - 2];
       l.callbackSteps[5] < consume && CodeUndisturbed(cfg, trace, actions, l.callbackSteps[5] + 1, consume,
                                                       RecordOf(cfg, l))
  }

  /** What the request that proceeded fixed. */
  lemma LoginRequest(cfg: Config, s: State, l: Login)
    requires Inv(cfg, s) && InPhase(s, l.pid, AuthorizeProcess(Storing(l.pairs, l.client, l.v, l.tx, l.askedAt)))
    ensures (exists b: Bytes32 :: l.tx.discordState == TokenText(b)) && |l.tx.discordState| == 43
    ensures l.tx.expiresAt == l.askedAt + 600
    ensures RequestCarried(l.pairs, l.client, l.tx, l.askedAt) && (l.v.consent <==> AsksConsent(l.pairs))
  {
    assert Supported(cfg, s.log, l.pid, s.procs[l.pid]);
    ConsentOfProceeded(cfg, s.log, l.pid, l.pairs, l.client, l.v, l.tx, l.askedAt);
    var k :| 0 <= k < |s.log| && s.log[k].Proceeded? && s.log[k].pairs == l.pairs && s.log[k].client == l.client
             && s.log[k].v == l.v && s.log[k].tx == l.tx && s.log[k].now == l.askedAt;
    assert Justified(cfg, s.log[..k], s.log[k]);
    RequestIsCarried(cfg, s.log[..k], s.log[k]);
    var a, b :| l.tx == TransactionFor(l.v, a, b, l.askedAt);
    TokenShape(b);
  }

  lemma TransactionIsStored(cfg: Config, trace: seq<State>, actions: seq<Action>, l: Login)
    requires IsTrace(cfg, trace, actions) && AuthorizeGoesWell(trace, actions, l)
    ensures HasTransaction(trace[l.stored + 1].store, l.tx) && l.sent == l.tx.discordState
    ensures InPhase(trace[l.stored + 1], l.pid, AuthorizeProcess(Finished(ToDiscord(l.sent, l.v.consent))))
  {
    OwnStep(cfg, trace, actions, l.pid, 0, [l.stored], 0,
            AuthorizeProcess(Storing(l.pairs, l.client, l.v, l.tx, l.askedAt)));
  }

  lemma CallbackBegins(cfg: Config, trace: seq<State>, actions: seq<Action>, l: Login) returns (code: string)
    requires IsTrace(cfg, trace, actions) && CalledInTime(cfg, trace, actions, l)
    requires CarriesCode(cfg.lossy, l.query, l.tx.discordState) && |l.tx.discordState| == 43
    ensures InPhase(trace[l.callbackStart + 1], l.callbackPid,
              CallbackProcess(Taking(l.tx.discordState, Some(code), None, l.calledAt)))
  {
    code := FirstValue(ParseForm(cfg.lossy, l.query), "code").value;
    assert Follows(cfg, trace, actions, l.callbackStart);
  }

  /** The callback stores the code and sends its plaintext to the client. */
  lemma CallbackSucceeds(cfg: Config, trace: seq<State>, actions: seq<Action>, l: Login)
    requires IsTrace(cfg, trace, actions) && l.stored < |actions| && HasTransaction(trace[l.stored + 1].store, l.tx)
    requires |l.tx.discordState| == 43 && l.tx.expiresAt == l.askedAt + 600
    requires CalledInTime(cfg, trace, actions, l) && CarriesCode(cfg.lossy, l.query, l.tx.discordState)
    ensures HasCode(trace[l.callbackSteps[5] + 1].store, RecordOf(cfg, l))
    ensures InPhase(trace[l.callbackSteps[5] + 1], l.callbackPid,
              CallbackProcess(Answered(CodeToClient(l.tx.redirectUri, TokenText(l.draw), l.tx.rpState))))
  {
    var code := CallbackBegins(cfg, trace, actions, l);
    TransactionSurvives(cfg, trace, actions, l.stored + 1, l.callbackSteps[0], l.tx);
    var s := trace[l.callbackSteps[1]];
    var client := FindClient(cfg, s.records, l.tx.clientId).value;
    TransactionIsTaken(cfg, trace, actions, l.callbackPid, l.callbackStart + 1, l.callbackSteps, l.tx, code,
                       l.calledAt);
    UpstreamSucceeds(cfg, trace, actions, l.callbackPid, l.callbackStart + 1, l.callbackSteps, l.tx, client, code,
                     l.user, l.draw, l.calledAt);
  }

  lemma TokenStarts(cfg: Config, trace: seq<State>, actions: seq<Action>, k: nat, body: string,
                    header: Option<string>, now: int)
    requires IsTrace(cfg, trace, actions) && k < |actions| && actions[k] == StartToken(body, header, now)
    ensures InPhase(trace[k + 1], |trace[k].procs|, TokenProcess(BeginToken(cfg.lossy, body, header, now)))
  {
    assert Follows(cfg, trace, actions, k);
  }

  function CheckOf(l: Login): ExchangeCheck { ExchangeCheck(l.tx.clientId, l.tx.redirectUri, l.verifier) }

  /** The parameters ask for `record` with the bindings of `check`. */
  ghost predicate Presents(cfg: Config, pairs: Pairs, record: StoredCode, check: ExchangeCheck, now: int) {
    && FullyMatches(cfg.sha, record, check, now)
    && forall c: ClientConfig :: c.clientId == check.clientId ==>
         AfterAuthentication(cfg.sha, pairs, c, now) == Consuming(c, record.codeHash, check, now)
  }

  lemma LoginPresents(cfg: Config, l: Login)
    requires Asks(cfg.lossy, l.body, TokenText(l.draw), l.tx.redirectUri, l.verifier,
                  BodyId(l.tx.clientId, l.presented))
    requires 1 <= |l.tx.redirectUri| <= MAX_REDIRECT_LEN
    requires Pkce.IsValidVerifier(l.verifier) && HashText(cfg.sha, l.verifier) == l.tx.challenge
    requires l.redeemedAt < l.calledAt + 60
    ensures Presents(cfg, ParseForm(cfg.lossy, l.body), RecordOf(cfg, l), CheckOf(l), l.redeemedAt)
  {
    TextOfToken(l.draw);
    Pkce.ChallengeOfVerifier(cfg.sha, l.verifier);
    forall c: ClientConfig | c.clientId == l.tx.clientId
      ensures AfterAuthentication(cfg.sha, ParseForm(cfg.lossy, l.body), c, l.redeemedAt)
           == Consuming(c, RecordOf(cfg, l).codeHash, CheckOf(l), l.redeemedAt)
    {
      GrantIsRead(cfg.sha, cfg.lossy, l.body, TokenText(l.draw), l.tx.redirectUri, l.verifier,
                  BodyId(l.tx.clientId, l.presented), c, l.redeemedAt);
    }
  }

  /** The token request has been read as `pairs`, which ask for the login's code. */
  ghost predicate IsRead(cfg: Config, trace: seq<State>, actions: seq<Action>, l: Login, pairs: Pairs)
    requires |trace| == |actions| + 1
  {
    && l.tokenStart < |actions|
    && InPhase(trace[l.tokenStart + 1], l.tokenPid,
         TokenProcess(FindingClient(pairs, CredentialOf(l.tx.clientId, l.presented), l.redeemedAt)))
    && Presents(cfg, pairs, RecordOf(cfg, l), CheckOf(l), l.redeemedAt)
  }

  lemma LoginReads(cfg: Config, trace: seq<State>, actions: seq<Action>, l: Login)
    requires IsTrace(cfg, trace, actions) && RedeemsInTime(cfg, trace, actions, l) && SaysItRight(cfg.lossy, l)
    ensures InPhase(trace[l.tokenStart + 1], l.tokenPid,
              TokenProcess(FindingClient(ParseForm(cfg.lossy, l.body), CredentialOf(l.tx.clientId, l.presented),
                                         l.redeemedAt)))
  {
    TokenStarts(cfg, trace, actions, l.tokenStart, l.body, l.header, l.redeemedAt);
    RequestIsRead(cfg.lossy, l.body, l.header, TokenText(l.draw), l.tx.redirectUri, l.verifier, l.tx.clientId,
                  l.presented, l.redeemedAt);
  }

  lemma LoginBegins(cfg: Config, trace: seq<State>, actions: seq<Action>, l: Login) returns (pairs: Pairs)
    requires IsTrace(cfg, trace, actions) && RedeemsInTime(cfg, trace, actions, l) && SaysItRight(cfg.lossy, l)
    requires 1 <= |l.tx.redirectUri| <= MAX_REDIRECT_LEN
    ensures IsRead(cfg, trace, actions, l, pairs)
  {
    pairs := ParseForm(cfg.lossy, l.body);
    LoginPresents(cfg, l);
    LoginReads(cfg, trace, actions, l);
  }

  /** What the answer to this login must say. */
  ghost predicate Answers(sha: Digest, resp: TokenResponse, l: Login) {
    && resp.TokenOk? && AccessTokenOk(sha, resp) && Single(l.pairs, "client_id") == Exactly(resp.claims.aud)
    && resp.claims.nonce == SingleOrNone(l.pairs, "nonce") && resp.claims.sub == l.user
    && resp.claims.iat == l.redeemedAt
    && resp.scope == Join(Granted(Words(ValueOf(l.pairs, "scope")), l.client.allowedScopes), " ")
  }

  lemma ResponseAnswers(cfg: Config, l: Login, client: ClientConfig, draw: Bytes32)
    requires RequestCarried(l.pairs, l.client, l.tx, l.askedAt) && client.clientId == l.tx.clientId
    ensures var p := AfterSign(cfg, client, RecordOf(cfg, l), draw, true, l.redeemedAt);
            p.Responded? && Answers(cfg.sha, p.resp, l)
  {
    SignedTokenOk(cfg, client, RecordOf(cfg, l), draw, l.redeemedAt);
  }

  lemma PresentsTo(cfg: Config, pairs: Pairs, record: StoredCode, check: ExchangeCheck, now: int, client: ClientConfig)
    requires Presents(cfg, pairs, record, check, now) && client.clientId == check.clientId
    ensures AfterAuthentication(cfg.sha, pairs, client, now) == Consuming(client, record.codeHash, check, now)
    ensures FullyMatches(cfg.sha, record, check, now)
  {
  }

  /** The login's request, once read, comes to present its code. */
  lemma LoginPresentsCode(cfg: Config, trace: seq<State>, actions: seq<Action>, l: Login, pairs: Pairs,
                          client: ClientConfig)
    requires IsTrace(cfg, trace, actions)
    requires TokenGoesWell(actions, l.tokenPid, l.tokenStart + 1, l.tokenSteps, l.presented)
    requires ServesWhenRead(cfg, trace, l.tokenSteps, l.tx.clientId, l.presented, l.redeemedAt)
    requires Resolves(cfg, trace[l.tokenSteps[0]], l.tx.clientId, client, l.presented)
    requires IsRead(cfg, trace, actions, l, pairs)
    ensures FullyMatches(cfg.sha, RecordOf(cfg, l), CheckOf(l), l.redeemedAt)
    ensures InPhase(trace[l.tokenSteps[|l.tokenSteps| - 3] + 1], l.tokenPid,
              TokenProcess(Consuming(client, RecordOf(cfg, l).codeHash, CheckOf(l), l.redeemedAt)))
  {
    ClientIsAuthenticated(cfg, trace, actions, l.tokenPid, l.tokenStart + 1, l.tokenSteps, pairs,
                          l.tx.clientId, client, l.presented, l.redeemedAt);
    PresentsTo(cfg, pairs, RecordOf(cfg, l), CheckOf(l), l.redeemedAt, client);
  }

  /** With its code still in the store, a login that has come to present it gets
      to an answer signed for it. */
  lemma PresentedLoginIsSigned(cfg: Config, trace: seq<State>, actions: seq<Action>, pid: nat, from: nat,
                               steps: seq<nat>, p: Presented, client: ClientConfig, check: ExchangeCheck,
                               record: StoredCode, now: int)
    requires IsTrace(cfg, trace, actions) && TokenGoesWell(actions, pid, from, steps, p)
    requires HasCode(trace[steps[|steps| - 2]].store, record) && FullyMatches(cfg.sha, record, check, now)
    requires InPhase(trace[steps[|steps| - 3] + 1], pid, TokenProcess(Consuming(client, record.codeHash, check, now)))
    ensures var last := steps[|steps| - 1];
            InPhase(trace[last + 1], pid,
                    TokenProcess(AfterSign(cfg, client, record, InputAt(actions, last).drawA, true, now)))
  {
    CodeIsRedeemed(cfg, trace, actions, pid, from, steps, |steps| - 2, client, check, record, now);
  }

  lemma ReadLoginIsSigned(cfg: Config, trace: seq<State>, actions: seq<Action>, l: Login, pairs: Pairs,
                          client: ClientConfig)
    requires IsTrace(cfg, trace, actions)
    requires TokenGoesWell(actions, l.tokenPid, l.tokenStart + 1, l.tokenSteps, l.presented)
    requires ServesWhenRead(cfg, trace, l.tokenSteps, l.tx.clientId, l.presented, l.redeemedAt)
    requires Resolves(cfg, trace[l.tokenSteps[0]], l.tx.clientId, client, l.presented)
    requires HasCode(trace[l.tokenSteps[|l.tokenSteps| - 2]].store, RecordOf(cfg, l))
    requires IsRead(cfg, trace, actions, l, pairs)
    ensures var last := l.tokenSteps[|l.tokenSteps| - 1];
            InPhase(trace[last + 1], l.tokenPid,
              TokenProcess(AfterSign(cfg, client, RecordOf(cfg, l), InputAt(actions, last).drawA, true, l.redeemedAt)))
  {
    LoginPresentsCode(cfg, trace, actions, l, pairs, client);
    PresentedLoginIsSigned(cfg, trace, actions, l.tokenPid, l.tokenStart + 1, l.tokenSteps, l.presented, client,
                           CheckOf(l), RecordOf(cfg, l), l.redeemedAt);
  }

  lemma ReadLoginSucceeds(cfg: Config, trace: seq<State>, actions: seq<Action>, l: Login, pairs: Pairs)
    returns (resp: TokenResponse)
    requires ConfigOk(cfg) && IsTrace(cfg, trace, actions) && Inv(cfg, trace[0])
    requires RequestCarried(l.pairs, l.client, l.tx, l.askedAt)
    requires TokenGoesWell(actions, l.tokenPid, l.tokenStart + 1, l.tokenSteps, l.presented)
    requires ServesWhenRead(cfg, trace, l.tokenSteps, l.tx.clientId, l.presented, l.redeemedAt)
    requires HasCode(trace[l.tokenSteps[|l.tokenSteps| - 2]].store, RecordOf(cfg, l))
    requires IsRead(cfg, trace, actions, l, pairs)
    ensures InPhase(trace[l.tokenSteps[|l.tokenSteps| - 1] + 1], l.tokenPid, TokenProcess(Responded(resp)))
    ensures Answers(cfg.sha, resp, l)
  {
    var client := ServedResolves(cfg, trace, actions, l.tokenSteps[0], l.tx.clientId, l.presented);
    ReadLoginIsSigned(cfg, trace, actions, l, pairs, client);
    var draw := InputAt(actions, l.tokenSteps[|l.tokenSteps| - 1]).drawA;
    ResponseAnswers(cfg, l, client, draw);
    resp := AfterSign(cfg, client, RecordOf(cfg, l), draw, true, l.redeemedAt).resp;
  }

  /** The callback part and the lifetime of the code, from the assumptions. */
  lemma CodeStaysForLogin(cfg: Config, trace: seq<State>, actions: seq<Action>, l: Login)
    requires IsTrace(cfg, trace, actions) && AuthorizeGoesWell(trace, actions, l)
    requires CalledInTime(cfg, trace, actions, l)
    requires |l.tx.discordState| == 43 && l.tx.expiresAt == l.askedAt + 600
    requires CarriesCode(cfg.lossy, l.query, l.tx.discordState) && RedeemsUndisturbed(cfg, trace, actions, l)
    ensures InPhase(trace[l.callbackSteps[5] + 1], l.callbackPid,
              CallbackProcess(Answered(CodeToClient(l.tx.redirectUri, TokenText(l.draw), l.tx.rpState))))
    ensures HasCode(trace[l.tokenSteps[|l.tokenSteps| - 2]].store, RecordOf(cfg, l))
  {
    TransactionIsStored(cfg, trace, actions, l);
    CallbackSucceeds(cfg, trace, actions, l);
    CodeSurvives(cfg, trace, actions, l.callbackSteps[5] + 1, l.tokenSteps[|l.tokenSteps| - 2], RecordOf(cfg, l));
  }

  lemma ClientLimits(cfg: Config, s: State, l: Login)
    requires !cfg.policy("") && ConfigOk(cfg) && RegistryInv(cfg, s.records) && Receives(cfg, s, l.tx)
    requires RequestCarried(l.pairs, l.client, l.tx, l.askedAt)
    ensures 1 <= |l.tx.redirectUri| <= MAX_REDIRECT_LEN && |l.tx.clientId| <= 128
  {
    ResolvedClient(cfg, s.records, l.tx.clientId);
  }

  /** What a reachable state with a proceeded request fixes for its login. */
  lemma LoginFixes(cfg: Config, earlier: seq<Action>, trace: seq<State>, actions: seq<Action>, l: Login)
    requires ConfigOk(cfg) && !cfg.policy("") && IsTrace(cfg, trace, actions) && trace[0] == Run(cfg, INIT, earlier)
    requires AuthorizeGoesWell(trace, actions, l) && CalledInTime(cfg, trace, actions, l)
    ensures Inv(cfg, trace[0]) && RequestCarried(l.pairs, l.client, l.tx, l.askedAt)
    ensures (exists b: Bytes32 :: l.tx.discordState == TokenText(b)) && |l.tx.discordState| == 43
    ensures l.tx.expiresAt == l.askedAt + 600
    ensures 1 <= |l.tx.redirectUri| <= MAX_REDIRECT_LEN && |l.tx.clientId| <= 128
    ensures l.sent == l.tx.discordState
    ensures InPhase(trace[l.stored + 1], l.pid, AuthorizeProcess(Finished(ToDiscord(l.sent, AsksConsent(l.pairs)))))
  {
    InvInit(cfg);
    RunKeepsInv(cfg, INIT, earlier);
    LoginRequest(cfg, trace[0], l);
    TransactionIsStored(cfg, trace, actions, l);
    TraceInv(cfg, trace, actions, l.callbackSteps[1]);
    ClientLimits(cfg, trace[l.callbackSteps[1]], l);
  }

  /** Honest completeness. Take any reachable state in which an authorization
      request has proceeded, and any interleaved continuation. If the callback
      comes within 600 s, the token request with the right verifier and
      credentials within 60 s of it, the client is good whenever they look at
      it, and no step disturbs the login's transaction and code, then
      `/authorize` sends the browser to Discord with the state that the callback
      came back with, the callback sends it on to the request's redirect URI
      with the code and the request's own state, and `/token` answers with a
      token for the named user that carries the nonce and the granted scope of
      the request. */
  lemma HonestLoginSucceeds(cfg: Config, earlier: seq<Action>, trace: seq<State>, actions: seq<Action>, l: Login)
    returns (resp: TokenResponse)
    requires ConfigOk(cfg) && !cfg.policy("") && SaysItRight(cfg.lossy, l)
    requires IsTrace(cfg, trace, actions) && trace[0] == Run(cfg, INIT, earlier)
    requires AuthorizeGoesWell(trace, actions, l) && CalledInTime(cfg, trace, actions, l)
    requires RedeemsInTime(cfg, trace, actions, l) && RedeemsUndisturbed(cfg, trace, actions, l)
    ensures InPhase(trace[l.stored + 1], l.pid, AuthorizeProcess(Finished(ToDiscord(l.sent, AsksConsent(l.pairs)))))
    ensures InPhase(trace[l.callbackSteps[5] + 1], l.callbackPid,
              CallbackProcess(Answered(CodeToClient(ValueOf(l.pairs, "redirect_uri"), TokenText(l.draw),
                                                    SingleOrNone(l.pairs, "state")))))
    ensures InPhase(trace[l.tokenSteps[|l.tokenSteps| - 1] + 1], l.tokenPid, TokenProcess(Responded(resp)))
    ensures Answers(cfg.sha, resp, l)
  {
    LoginFixes(cfg, earlier, trace, actions, l);
    CodeStaysForLogin(cfg, trace, actions, l);
    var pairs := LoginBegins(cfg, trace, actions, l);
    resp := ReadLoginSucceeds(cfg, trace, actions, l, pairs);
  }

  /** The login's two later requests are printed: the query by Discord, the
      body and the header by a conforming client. */
  ghost predicate Printed(l: Login, code: string) {
    && IsString(code) && IsString(l.tx.redirectUri) && IsString(l.tx.clientId)
    && (l.presented.BasicSecret? ==> IsString(l.presented.secret))
    && l.query == PrintedQuery(code, l.sent)
    && l.body == PrintedBody(TokenText(l.draw), l.tx.redirectUri, l.verifier, BodyId(l.tx.clientId, l.presented))
    && l.header == Header(l.tx.clientId, l.presented)
  }

  lemma PrintedSaysItRight(lossy: Lossy, l: Login, code: string, b: Bytes32)
    requires LossyOk(lossy) && Printed(l, code) && l.sent == TokenText(b) && Pkce.IsValidVerifier(l.verifier)
    requires |l.tx.redirectUri| <= MAX_REDIRECT_LEN && |l.tx.clientId| <= 128
    ensures SaysItRight(lossy, l)
  {
    PrintedQueryCarriesCode(lossy, code, b);
    PrintedBodyAsks(lossy, l.draw, l.tx.redirectUri, l.verifier, l.tx.clientId, l.presented);
    ConformingHeaderShows(l.tx.clientId, l.presented);
  }

  /** Nothing on the way refuses what conforming parties print: with a printed
      query, body and header the login succeeds, whatever characters its
      redirect URI, client id and secret hold, at any length that `/authorize`
      accepted. */
  lemma PrintedLoginSucceeds(cfg: Config, earlier: seq<Action>, trace: seq<State>, actions: seq<Action>, l: Login,
                             code: string)
    returns (resp: TokenResponse)
    requires ConfigOk(cfg) && !cfg.policy("") && LossyOk(cfg.lossy) && Printed(l, code)
    requires IsTrace(cfg, trace, actions) && trace[0] == Run(cfg, INIT, earlier)
    requires AuthorizeGoesWell(trace, actions, l) && CalledInTime(cfg, trace, actions, l)
    requires RedeemsInTime(cfg, trace, actions, l) && RedeemsUndisturbed(cfg, trace, actions, l)
    ensures InPhase(trace[l.tokenSteps[|l.tokenSteps| - 1] + 1], l.tokenPid, TokenProcess(Responded(resp)))
    ensures Answers(cfg.sha, resp, l)
  {
    LoginFixes(cfg, earlier, trace, actions, l);
    var b: Bytes32 :| l.tx.discordState == TokenText(b);
    PrintedSaysItRight(cfg.lossy, l, code, b);
    resp := HonestLoginSucceeds(cfg, earlier, trace, actions, l);
  }
}
