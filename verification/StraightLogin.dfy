/** The assumptions of honest completeness are met: whatever the admin API has
    done before, any client that then resolves, static or dynamic, public or
    confidential, and has a redirect URI short enough for `/authorize` can be
    logged in to, step after step with nothing in between. */
module StraightLogin {
  import opened Basics
  import opened Form
  import opened Params
  import opened Client
  import opened ClientRecords
  import opened Registry
  import opened Resolver
  import opened Code
  import opened Util
  import opened Authorize
  import opened Token
  import opened Protocol
  import opened NonInterference
  import opened TokenRequest
  import opened Completeness
  import opened LoginQuery
  import Pkce

  // ---------- The run ----------

  /** The actions after the request has proceeded as process 0: one callback as
      process 1, one token request as process 2. */
  function ActionAt(i: Input, query: string, body: string, header: Option<string>, now: int, k: nat): Action {
    if k == 0 then Advance(0, i)
    else if k == 1 then StartCallback(query, now)
    else if k < 8 then Advance(1, i)
    else if k == 8 then StartToken(body, header, now)
    else Advance(2, i)
  }

  function Straight(i: Input, query: string, body: string, header: Option<string>, now: int,
                    p: Presented): (actions: seq<Action>)
    ensures |actions| == 9 + StepsNeeded(p)
  {
    seq(9 + StepsNeeded(p), k requires 0 <= k < 9 + StepsNeeded(p) => ActionAt(i, query, body, header, now, k))
  }

  function TokenSteps(p: Presented): seq<nat> { if p.PublicId? then [9, 10, 11] else [9, 10, 11, 12] }

  /** What the outside world contributes: no fault, a Discord user who is in
      the guild, and a signature. */
  ghost predicate AllWell(i: Input) {
    && i.fault == Delivered && i.discordToken.Some? && i.discordUser.Some? && IsDigits(i.discordUser.value)
    && i.member == Callback.IsMember && i.signed
  }

  /** A client that resolves to receive and redeem what `v` asks for, and
      credentials with which `/token` takes it. */
  ghost predicate ClientFits(cfg: Config, records: Records, client: ClientConfig, v: Validated, verifier: string,
                             p: Presented, now: int) {
    && v.clientId == client.clientId && v.redirectUri in client.redirectUris
    && FindClient(cfg, records, client.clientId) == Some(client)
    && client.clientType == (if p.PublicId? then Public else Confidential)
    && (p.BasicSecret? ==> VerifyClientSecret(cfg, records, client.clientId, p.secret, now))
    && Pkce.IsValidVerifier(verifier) && HashText(cfg.sha, verifier) == v.challenge
  }

  /** Parameters with which `/authorize` lets such a client proceed. */
  ghost predicate GoodRequest(cfg: Config, records: Records, pairs: Pairs, client: ClientConfig, v: Validated,
                              verifier: string, p: Presented, now: int) {
    && Single(pairs, "client_id") == Exactly(client.clientId) && |client.clientId| <= MAX_PARAM_LEN
    && VerdictFor(pairs, client) == Proceed(v) && ClientFits(cfg, records, client, v, verifier, p, now)
  }

  /** The login these make. */
  function LoginOf(pairs: Pairs, client: ClientConfig, v: Validated, verifier: string, p: Presented,
                   i: Input, query: string, body: string, header: Option<string>, now: int): Login
    requires i.discordUser.Some?
  {
    Login(0, pairs, client, v, TransactionFor(v, i.drawA, i.drawB, now), now, TokenText(i.drawB),
          query, i.discordUser.value, i.drawA, now,
          p, body, header, verifier, now, 0, 1, 1, [2, 3, 4, 5, 6, 7], 2, 8, TokenSteps(p))
  }

  /** The login is that of a straight run. */
  ghost predicate IsStraight(l: Login, i: Input)
    requires i.discordUser.Some?
  {
    l == LoginOf(l.pairs, l.client, l.v, l.verifier, l.presented, i, l.query, l.body, l.header, l.calledAt)
  }

  lemma ProceedFixes(pairs: Pairs, client: ClientConfig, v: Validated)
    requires VerdictFor(pairs, client) == Proceed(v)
    ensures |v.redirectUri| <= MAX_PARAM_LEN && v.clientId == client.clientId && v.redirectUri in client.redirectUris
  {
  }

  lemma RunOne(cfg: Config, s: State, a: Action)
    ensures Run(cfg, s, [a]) == Step(cfg, s, a)
  {
    assert [a][1..] == [];
    assert Run(cfg, s, [a]) == Run(cfg, Step(cfg, s, a), []);
  }

  // ---------- Before: the admin API, then the request that proceeds ----------

  function Administering(ops: seq<AdminOp>): seq<Action> { seq(|ops|, k requires 0 <= k < |ops| => Administer(ops[k])) }

  lemma {:induction false} AdminRun(cfg: Config, ops: seq<AdminOp>)
    requires forall op :: op in ops ==> Permitted(cfg, op)
    ensures var s := Run(cfg, INIT, Administering(ops));
            s.records == AdministeredAll(map[], ops) && s.procs == [] && s.redirects == []
  {
    if ops == [] {
      assert Administering(ops) == [];
    } else {
      var n := |ops| - 1;
      assert ops[n] in ops && forall op :: op in ops[..n] ==> op in ops;
      AdminRun(cfg, ops[..n]);
      assert Administering(ops) == Administering(ops[..n]) + [Administer(ops[n])];
      RunConcat(cfg, INIT, Administering(ops[..n]), [Administer(ops[n])]);
      RunOne(cfg, Run(cfg, INIT, Administering(ops[..n])), Administer(ops[n]));
    }
  }

  lemma FindingProceeds(cfg: Config, s: State, pairs: Pairs, client: ClientConfig, v: Validated, verifier: string,
                        p: Presented, i: Input, now: int)
    requires GoodRequest(cfg, s.records, pairs, client, v, verifier, p, now) && i.fault == Delivered
    ensures AdvanceAuthorize(cfg, s, 0, Finding(pairs, client.clientId, now), i).0
         == Storing(pairs, client, v, TransactionFor(v, i.drawA, i.drawB, now), now)
  {
  }

  lemma QueryIsRead(lossy: Lossy, asked: string, pairs: Pairs, id: string, now: int)
    requires |asked| <= MAX_QUERY_LEN && ParseForm(lossy, asked) == pairs
    requires Single(pairs, "client_id") == Exactly(id) && |id| <= MAX_PARAM_LEN
    ensures Begin(lossy, asked, now) == Finding(pairs, id, now)
  {
  }

  lemma RequestBegins(cfg: Config, s: State, asked: string, now: int, p: Phase)
    requires s.procs == [] && Begin(cfg.lossy, asked, now) == p
    ensures var t := Step(cfg, s, StartAuthorize(asked, now));
            t.procs == [AuthorizeProcess(p)] && t.records == s.records && t.redirects == s.redirects
  {
  }

  lemma ProceedsFrom(cfg: Config, s0: State, pairs: Pairs, client: ClientConfig, v: Validated, verifier: string,
                     p: Presented, i: Input, now: int)
    requires s0.procs == [AuthorizeProcess(Finding(pairs, client.clientId, now))]
    requires i.fault == Delivered && GoodRequest(cfg, s0.records, pairs, client, v, verifier, p, now)
    ensures var s := Step(cfg, s0, Advance(0, i));
            && s.records == s0.records && s.redirects == s0.redirects && |s.procs| == 1
            && s.procs[0]
               == AuthorizeProcess(Storing(pairs, client, v, TransactionFor(v, i.drawA, i.drawB, now), now))
  {
    FindingProceeds(cfg, s0, pairs, client, v, verifier, p, i, now);
  }

  lemma RunTwo(cfg: Config, before: seq<Action>, a: Action, b: Action)
    ensures Run(cfg, INIT, before + [a] + [b]) == Step(cfg, Step(cfg, Run(cfg, INIT, before), a), b)
  {
    RunConcat(cfg, INIT, before, [a]);
    RunOne(cfg, Run(cfg, INIT, before), a);
    RunConcat(cfg, INIT, before + [a], [b]);
    RunOne(cfg, Run(cfg, INIT, before + [a]), b);
  }

  lemma Proceeds(cfg: Config, ops: seq<AdminOp>, asked: string, pairs: Pairs, client: ClientConfig, v: Validated,
                 verifier: string, p: Presented, i: Input, now: int) returns (earlier: seq<Action>)
    requires forall op :: op in ops ==> Permitted(cfg, op)
    requires |asked| <= MAX_QUERY_LEN && ParseForm(cfg.lossy, asked) == pairs && i.fault == Delivered
    requires GoodRequest(cfg, AdministeredAll(map[], ops), pairs, client, v, verifier, p, now)
    ensures var s := Run(cfg, INIT, earlier);
            && |s.procs| == 1 && s.records == AdministeredAll(map[], ops) && s.redirects == []
            && s.procs[0]
               == AuthorizeProcess(Storing(pairs, client, v, TransactionFor(v, i.drawA, i.drawB, now), now))
  {
    var setup := Administering(ops);
    AdminRun(cfg, ops);
    var s0 := Run(cfg, INIT, setup);
    QueryIsRead(cfg.lossy, asked, pairs, client.clientId, now);
    RequestBegins(cfg, s0, asked, now, Finding(pairs, client.clientId, now));
    ProceedsFrom(cfg, Step(cfg, s0, StartAuthorize(asked, now)), pairs, client, v, verifier, p, i, now);
    RunTwo(cfg, setup, StartAuthorize(asked, now), Advance(0, i));
    earlier := setup + [StartAuthorize(asked, now)] + [Advance(0, i)];
  }

  // ---------- After: each assumption in turn ----------

  /** The registry stays as it is, and this is how many requests there are. */
  lemma {:induction false} Counted(cfg: Config, trace: seq<State>, actions: seq<Action>, i: Input, query: string,
                                   body: string, header: Option<string>, now: int, p: Presented, k: nat)
    requires actions == Straight(i, query, body, header, now, p) && IsTrace(cfg, trace, actions)
    requires |trace[0].procs| == 1 && k <= |actions|
    ensures trace[k].records == trace[0].records
    ensures |trace[k].procs| == if k <= 1 then 1 else if k <= 8 then 2 else 3
  {
    if k > 0 {
      Counted(cfg, trace, actions, i, query, body, header, now, p, k - 1);
      assert Follows(cfg, trace, actions, k - 1);
    }
  }

  lemma StepsFit(actions: seq<Action>, i: Input, query: string, body: string, header: Option<string>, now: int,
                 p: Presented)
    requires actions == Straight(i, query, body, header, now, p)
    ensures StepsOf(actions, 0, 0, [0]) && StepsOf(actions, 1, 2, [2, 3, 4, 5, 6, 7])
    ensures StepsOf(actions, 2, 9, TokenSteps(p))
  {
  }

  lemma CallbackFits(actions: seq<Action>, i: Input, query: string, body: string, header: Option<string>, now: int,
                     p: Presented)
    requires actions == Straight(i, query, body, header, now, p) && AllWell(i)
    ensures CallbackGoesWell(actions, 1, 2, [2, 3, 4, 5, 6, 7], i.discordUser.value, i.drawA)
    ensures TokenGoesWell(actions, 2, 9, TokenSteps(p), p)
  {
    StepsFit(actions, i, query, body, header, now, p);
  }

  lemma AuthorizeFits(cfg: Config, trace: seq<State>, actions: seq<Action>, l: Login, i: Input)
    requires AllWell(i) && actions == Straight(i, l.query, l.body, l.header, l.calledAt, l.presented)
    requires IsTrace(cfg, trace, actions)
    requires l.pid == 0 && l.stored == 0 && l.sent == l.tx.discordState
    requires InPhase(trace[0], 0, AuthorizeProcess(Storing(l.pairs, l.client, l.v, l.tx, l.askedAt)))
    ensures AuthorizeGoesWell(trace, actions, l)
  {
    StepsFit(actions, i, l.query, l.body, l.header, l.calledAt, l.presented);
    OwnStep(cfg, trace, actions, 0, 0, [0], 0,
            AuthorizeProcess(Storing(l.pairs, l.client, l.v, l.tx, l.askedAt)));
  }

  lemma CallbackInTime(cfg: Config, trace: seq<State>, actions: seq<Action>, l: Login, client: ClientConfig, i: Input)
    requires AllWell(i) && actions == Straight(i, l.query, l.body, l.header, l.calledAt, l.presented)
    requires IsTrace(cfg, trace, actions)
    requires IsStraight(l, i) && |trace[0].procs| == 1
    requires ClientFits(cfg, trace[0].records, client, l.v, l.verifier, l.presented, l.calledAt)
    ensures CalledInTime(cfg, trace, actions, l)
  {
    CallbackFits(actions, i, l.query, l.body, l.header, l.calledAt, l.presented);
    Counted(cfg, trace, actions, i, l.query, l.body, l.header, l.calledAt, l.presented, 1);
    Counted(cfg, trace, actions, i, l.query, l.body, l.header, l.calledAt, l.presented, 3);
    assert Receives(cfg, trace[3], l.tx);
    assert TransactionUndisturbed(trace, actions, 1, 2, l.tx);
  }

  /** Neither starting the token request nor its registry reads touch a code. */
  lemma CodeIsLeftAlone(cfg: Config, trace: seq<State>, actions: seq<Action>, i: Input, query: string, body: string,
                        header: Option<string>, now: int, p: Presented, r: StoredCode)
    requires actions == Straight(i, query, body, header, now, p) && |trace| == |actions| + 1
    requires InTokenPhase(trace[9], 2) && trace[9].procs[2].token.FindingClient?
    requires p.BasicSecret? ==> InTokenPhase(trace[10], 2) && trace[10].procs[2].token.VerifyingSecret?
    ensures CodeUndisturbed(cfg, trace, actions, 8, if p.PublicId? then 10 else 11, r)
  {
    assert !TouchesCode(cfg, trace[8], actions[8], r);
    assert !TouchesCode(cfg, trace[9], actions[9], r);
    if p.BasicSecret? { assert !TouchesCode(cfg, trace[10], actions[10], r); }
  }

  ghost predicate InTokenPhase(s: State, pid: nat) { pid < |s.procs| && s.procs[pid].TokenProcess? }

  /** The secret is verified in a step of its own, after the client is found. */
  lemma SecretComesNext(cfg: Config, trace: seq<State>, actions: seq<Action>, pairs: Pairs, client: ClientConfig,
                        p: Presented, i: Input, query: string, body: string, header: Option<string>, now: int)
    requires AllWell(i) && actions == Straight(i, query, body, header, now, p) && IsTrace(cfg, trace, actions)
    requires InPhase(trace[9], 2, TokenProcess(FindingClient(pairs, CredentialOf(client.clientId, p), now)))
    requires Resolves(cfg, trace[9], client.clientId, client, p)
    ensures p.BasicSecret? ==> InTokenPhase(trace[10], 2) && trace[10].procs[2].token.VerifyingSecret?
  {
    CallbackFits(actions, i, query, body, header, now, p);
    var steps := TokenSteps(p);
    assert InputAt(actions, steps[0]).fault == Delivered;
    FindingEnds(cfg, trace, actions, 2, 9, steps, pairs, client.clientId, client, p, now);
  }

  lemma TokenFits(cfg: Config, trace: seq<State>, actions: seq<Action>, l: Login, i: Input)
    requires AllWell(i) && actions == Straight(i, l.query, l.body, l.header, l.redeemedAt, l.presented)
    requires |trace| == |actions| + 1
    requires l.tokenPid == 2 && l.tokenStart == 8 && l.tokenSteps == TokenSteps(l.presented)
    requires l.callbackSteps == [2, 3, 4, 5, 6, 7]
    requires ServesWhenRead(cfg, trace, TokenSteps(l.presented), l.tx.clientId, l.presented, l.redeemedAt)
    requires InTokenPhase(trace[9], 2) && trace[9].procs[2].token.FindingClient?
    requires l.presented.BasicSecret? ==> InTokenPhase(trace[10], 2) && trace[10].procs[2].token.VerifyingSecret?
    ensures RedeemsUndisturbed(cfg, trace, actions, l)
  {
    CallbackFits(actions, i, l.query, l.body, l.header, l.redeemedAt, l.presented);
    CodeIsLeftAlone(cfg, trace, actions, i, l.query, l.body, l.header, l.redeemedAt, l.presented, RecordOf(cfg, l));
  }

  lemma ServesStraight(cfg: Config, trace: seq<State>, actions: seq<Action>, l: Login, client: ClientConfig, i: Input)
    requires actions == Straight(i, l.query, l.body, l.header, l.calledAt, l.presented) && IsTrace(cfg, trace, actions)
    requires |trace[0].procs| == 1 && ConfigOk(cfg) && RegistryInv(cfg, trace[0].records)
    requires ClientFits(cfg, trace[0].records, client, l.v, l.verifier, l.presented, l.calledAt)
    ensures ServesWhenRead(cfg, trace, TokenSteps(l.presented), client.clientId, l.presented, l.calledAt)
    ensures Resolves(cfg, trace[9], client.clientId, client, l.presented) && |trace[8].procs| == 2
  {
    Counted(cfg, trace, actions, i, l.query, l.body, l.header, l.calledAt, l.presented, 8);
    Counted(cfg, trace, actions, i, l.query, l.body, l.header, l.calledAt, l.presented, 9);
    Counted(cfg, trace, actions, i, l.query, l.body, l.header, l.calledAt, l.presented, 10);
    ResolvedClient(cfg, trace[0].records, client.clientId);
  }

  /** What the token request needs, once it has been read. */
  lemma TokenStepsFit(cfg: Config, trace: seq<State>, actions: seq<Action>, l: Login, client: ClientConfig, i: Input,
                      pairs: Pairs)
    requires AllWell(i) && actions == Straight(i, l.query, l.body, l.header, l.calledAt, l.presented)
    requires IsTrace(cfg, trace, actions)
    requires IsStraight(l, i) && client.clientId == l.v.clientId
    requires ServesWhenRead(cfg, trace, TokenSteps(l.presented), client.clientId, l.presented, l.calledAt)
    requires Resolves(cfg, trace[9], client.clientId, client, l.presented)
    requires InPhase(trace[9], 2, TokenProcess(FindingClient(pairs, CredentialOf(client.clientId, l.presented),
                                                             l.calledAt)))
    ensures RedeemsUndisturbed(cfg, trace, actions, l)
  {
    SecretComesNext(cfg, trace, actions, pairs, client, l.presented, i, l.query, l.body, l.header, l.calledAt);
    TokenFits(cfg, trace, actions, l, i);
  }

  lemma RedeemsStraight(cfg: Config, trace: seq<State>, actions: seq<Action>, l: Login, client: ClientConfig, i: Input)
    requires i.discordUser.Some? && IsStraight(l, i) && |trace| == |actions| + 1
    requires actions == Straight(i, l.query, l.body, l.header, l.calledAt, l.presented) && |trace[8].procs| == 2
    requires ClientFits(cfg, trace[0].records, client, l.v, l.verifier, l.presented, l.calledAt)
    ensures RedeemsInTime(cfg, trace, actions, l)
  {
  }

  /** All assumptions of honest completeness hold of the straight run. */
  lemma StraightFits(cfg: Config, trace: seq<State>, actions: seq<Action>, l: Login, client: ClientConfig, i: Input)
    requires actions == Straight(i, l.query, l.body, l.header, l.calledAt, l.presented) && IsTrace(cfg, trace, actions)
    requires AllWell(i) && IsStraight(l, i) && |trace[0].procs| == 1 && ConfigOk(cfg)
    requires RegistryInv(cfg, trace[0].records)
    requires ClientFits(cfg, trace[0].records, client, l.v, l.verifier, l.presented, l.calledAt)
    requires InPhase(trace[0], 0, AuthorizeProcess(Storing(l.pairs, l.client, l.v, l.tx, l.askedAt)))
    requires SaysItRight(cfg.lossy, l)
    ensures AuthorizeGoesWell(trace, actions, l) && CalledInTime(cfg, trace, actions, l)
    ensures RedeemsInTime(cfg, trace, actions, l) && RedeemsUndisturbed(cfg, trace, actions, l)
  {
    AuthorizeFits(cfg, trace, actions, l, i);
    CallbackInTime(cfg, trace, actions, l, client, i);
    ServesStraight(cfg, trace, actions, l, client, i);
    RedeemsStraight(cfg, trace, actions, l, client, i);
    LoginReads(cfg, trace, actions, l);
    TokenStepsFit(cfg, trace, actions, l, client, i, ParseForm(cfg.lossy, l.body));
  }

  lemma LastStep(l: Login, i: Input, n: nat)
    requires i.discordUser.Some? && IsStraight(l, i) && n == 9 + StepsNeeded(l.presented)
    ensures l.tokenPid == 2 && l.tokenSteps[|l.tokenSteps| - 1] + 1 == n
  {
  }

  lemma StraightSucceeds(cfg: Config, earlier: seq<Action>, trace: seq<State>, actions: seq<Action>, l: Login,
                         client: ClientConfig, i: Input)
    returns (resp: TokenResponse)
    requires ConfigOk(cfg) && !cfg.policy("") && trace != [] && trace[0] == Run(cfg, INIT, earlier)
    requires actions == Straight(i, l.query, l.body, l.header, l.calledAt, l.presented) && IsTrace(cfg, trace, actions)
    requires AllWell(i) && IsStraight(l, i) && |trace[0].procs| == 1 && RegistryInv(cfg, trace[0].records)
    requires ClientFits(cfg, trace[0].records, client, l.v, l.verifier, l.presented, l.calledAt)
    requires InPhase(trace[0], 0, AuthorizeProcess(Storing(l.pairs, l.client, l.v, l.tx, l.askedAt)))
    requires SaysItRight(cfg.lossy, l)
    ensures InPhase(trace[|actions|], 2, TokenProcess(Responded(resp))) && Answers(cfg.sha, resp, l)
  {
    StraightFits(cfg, trace, actions, l, client, i);
    LastStep(l, i, |actions|);
    resp := HonestLoginSucceeds(cfg, earlier, trace, actions, l);
  }

  lemma StraightFrom(cfg: Config, earlier: seq<Action>, s: State, l: Login, client: ClientConfig, i: Input)
    returns (later: seq<Action>, resp: TokenResponse)
    requires ConfigOk(cfg) && !cfg.policy("") && AllWell(i) && IsStraight(l, i) && SaysItRight(cfg.lossy, l)
    requires s == Run(cfg, INIT, earlier) && |s.procs| == 1 && RegistryInv(cfg, s.records)
    requires ClientFits(cfg, s.records, client, l.v, l.verifier, l.presented, l.calledAt)
    requires s.procs[0] == AuthorizeProcess(Storing(l.pairs, l.client, l.v, l.tx, l.askedAt))
    ensures InPhase(Run(cfg, s, later), 2, TokenProcess(Responded(resp)))
    ensures Answers(cfg.sha, resp, l)
  {
    later := Straight(i, l.query, l.body, l.header, l.calledAt, l.presented);
    var trace := RunHasTrace(cfg, s, later);
    resp := StraightSucceeds(cfg, earlier, trace, later, l, client, i);
  }

  lemma StraightRun(cfg: Config, earlier: seq<Action>, l: Login, client: ClientConfig, i: Input)
    returns (actions: seq<Action>, resp: TokenResponse)
    requires ConfigOk(cfg) && !cfg.policy("") && AllWell(i) && IsStraight(l, i) && SaysItRight(cfg.lossy, l)
    requires var s := Run(cfg, INIT, earlier);
             && |s.procs| == 1 && RegistryInv(cfg, s.records)
             && ClientFits(cfg, s.records, client, l.v, l.verifier, l.presented, l.calledAt)
             && s.procs[0] == AuthorizeProcess(Storing(l.pairs, l.client, l.v, l.tx, l.askedAt))
    ensures InPhase(Run(cfg, INIT, actions), 2, TokenProcess(Responded(resp)))
    ensures Answers(cfg.sha, resp, l)
  {
    var later;
    later, resp := StraightFrom(cfg, earlier, Run(cfg, INIT, earlier), l, client, i);
    actions := earlier + later;
    RunConcat(cfg, INIT, earlier, later);
  }

  /** A straight login succeeds: after any admin history, for every client that
      then resolves and every request of it that `/authorize` lets proceed, if
      the two later requests say what they should, the run answers with a
      token. */
  lemma StraightLoginSucceeds(cfg: Config, ops: seq<AdminOp>, asked: string, client: ClientConfig, v: Validated,
                              verifier: string, p: Presented, i: Input, query: string, body: string,
                              header: Option<string>, now: int)
    returns (actions: seq<Action>, resp: TokenResponse)
    requires ConfigOk(cfg) && !cfg.policy("") && (forall op :: op in ops ==> Permitted(cfg, op))
    requires |asked| <= MAX_QUERY_LEN && AllWell(i)
    requires GoodRequest(cfg, AdministeredAll(map[], ops), ParseForm(cfg.lossy, asked), client, v, verifier, p, now)
    requires SaysItRight(cfg.lossy,
                         LoginOf(ParseForm(cfg.lossy, asked), client, v, verifier, p, i, query, body, header, now))
    ensures InPhase(Run(cfg, INIT, actions), 2, TokenProcess(Responded(resp)))
    ensures Answers(cfg.sha, resp,
                    LoginOf(ParseForm(cfg.lossy, asked), client, v, verifier, p, i, query, body, header, now))
  {
    var pairs := ParseForm(cfg.lossy, asked);
    var earlier := Proceeds(cfg, ops, asked, pairs, client, v, verifier, p, i, now);
    ReachableRegistry(cfg, ops);
    actions, resp := StraightRun(cfg, earlier, LoginOf(pairs, client, v, verifier, p, i, query, body, header, now),
                                 client, i);
  }

  /** And such later requests exist: what Discord and a conforming client print. */
  lemma PrintedStraightLogin(cfg: Config, ops: seq<AdminOp>, asked: string, client: ClientConfig, v: Validated,
                             verifier: string, p: Presented, i: Input, code: string, now: int)
    returns (actions: seq<Action>, resp: TokenResponse)
    requires ConfigOk(cfg) && !cfg.policy("") && LossyOk(cfg.lossy) && (forall op :: op in ops ==> Permitted(cfg, op))
    requires |asked| <= MAX_QUERY_LEN && AllWell(i)
    requires GoodRequest(cfg, AdministeredAll(map[], ops), ParseForm(cfg.lossy, asked), client, v, verifier, p, now)
    requires IsString(code) && IsString(client.clientId) && IsString(v.redirectUri)
    requires p.BasicSecret? ==> IsString(p.secret)
    ensures InPhase(Run(cfg, INIT, actions), 2, TokenProcess(Responded(resp)))
    ensures resp.TokenOk? && resp.claims.aud == client.clientId && resp.claims.sub == i.discordUser.value
    ensures resp.claims.nonce == SingleOrNone(ParseForm(cfg.lossy, asked), "nonce")
  {
    var pairs, records := ParseForm(cfg.lossy, asked), AdministeredAll(map[], ops);
    ProceedFixes(pairs, client, v);
    ReachableRegistry(cfg, ops);
    ResolvedClient(cfg, records, client.clientId);
    var query := PrintedQuery(code, TokenText(i.drawB));
    var body := PrintedBody(TokenText(i.drawA), v.redirectUri, verifier, BodyId(client.clientId, p));
    var header := Header(client.clientId, p);
    var l := LoginOf(pairs, client, v, verifier, p, i, query, body, header, now);
    PrintedSaysItRight(cfg.lossy, l, code, i.drawB);
    actions, resp := StraightLoginSucceeds(cfg, ops, asked, client, v, verifier, p, i, query, body, header, now);
  }

  /** A client that resolves, and credentials with which `/token` takes it. */
  ghost predicate CanAuthenticate(cfg: Config, records: Records, client: ClientConfig, p: Presented, now: int) {
    && FindClient(cfg, records, client.clientId) == Some(client)
    && client.clientType == (if p.PublicId? then Public else Confidential)
    && (p.BasicSecret? ==> VerifyClientSecret(cfg, records, client.clientId, p.secret, now))
  }

  lemma GoodQuery(cfg: Config, records: Records, client: ClientConfig, uri: string, verifier: string, p: Presented,
                  now: int)
    returns (asked: string, v: Validated)
    requires LossyOk(cfg.lossy) && CanAuthenticate(cfg, records, client, p, now)
    requires IsString(client.clientId) && |client.clientId| <= 128 && Pkce.IsValidVerifier(verifier)
    requires uri in client.redirectUris && IsString(uri) && |uri| <= MAX_PARAM_LEN
    ensures |asked| <= MAX_QUERY_LEN && v.redirectUri == uri
    ensures GoodRequest(cfg, records, ParseForm(cfg.lossy, asked), client, v, verifier, p, now)
  {
    asked := QueryFor(cfg.lossy, cfg.sha, client, uri, verifier);
    v := VerdictFor(ParseForm(cfg.lossy, asked), client).v;
    ProceedFixes(ParseForm(cfg.lossy, asked), client, v);
  }

  /** After any admin history, every client that resolves can be logged in to
      over each of its redirect URIs that is within the limit of `/authorize`,
      with any credentials that verify: nothing else is assumed of it. */
  lemma EveryClientCanLogIn(cfg: Config, ops: seq<AdminOp>, client: ClientConfig, uri: string, verifier: string,
                            p: Presented, i: Input, code: string, now: int)
    returns (actions: seq<Action>, resp: TokenResponse)
    requires ConfigOk(cfg) && !cfg.policy("") && LossyOk(cfg.lossy) && (forall op :: op in ops ==> Permitted(cfg, op))
    requires CanAuthenticate(cfg, AdministeredAll(map[], ops), client, p, now) && AllWell(i)
    requires uri in client.redirectUris && |uri| <= MAX_PARAM_LEN && Pkce.IsValidVerifier(verifier)
    requires IsString(code) && IsString(client.clientId) && IsString(uri) && (p.BasicSecret? ==> IsString(p.secret))
    ensures InPhase(Run(cfg, INIT, actions), 2, TokenProcess(Responded(resp)))
    ensures resp.TokenOk? && resp.claims.aud == client.clientId && resp.claims.sub == i.discordUser.value
  {
    var records := AdministeredAll(map[], ops);
    ReachableRegistry(cfg, ops);
    ResolvedClient(cfg, records, client.clientId);
    var asked, v := GoodQuery(cfg, records, client, uri, verifier, p, now);
    actions, resp := PrintedStraightLogin(cfg, ops, asked, client, v, verifier, p, i, code, now);
  }

  lemma DynamicIdIsText(id: string)
    requires IsDynamicClientId(id)
    ensures IsString(id)
  {
    assert id[..4] == CLIENT_ID_PREFIX;
    assert forall k :: 0 <= k < 4 ==> id[k] == id[..4][k];
    TextOfAscii(id);
  }

  /** For one, a confidential client just created by the admin API, with the
      secret it was created with. */
  lemma CreatedClientCanLogIn(cfg: Config, r: ClientRecord, secret: string, uri: string, verifier: string,
                              idInBody: bool, i: Input, code: string, now: int)
    returns (actions: seq<Action>, resp: TokenResponse)
    requires ConfigOk(cfg) && !cfg.policy("") && LossyOk(cfg.lossy) && Permitted(cfg, Insert(r))
    requires r.clientType == Confidential && r.currentHash == Some(HashText(cfg.sha, secret)) && IsString(secret)
    requires uri in r.metadata.redirectUris && |uri| <= MAX_PARAM_LEN && IsString(uri)
    requires AllWell(i) && Pkce.IsValidVerifier(verifier) && IsString(code)
    ensures InPhase(Run(cfg, INIT, actions), 2, TokenProcess(Responded(resp)))
    ensures resp.TokenOk? && resp.claims.aud == r.clientId && resp.claims.sub == i.discordUser.value
  {
    var ops := [Insert(r)];
    DynamicIdIsText(r.clientId);
    assert ops[..0] == [];
    assert AdministeredAll(map[], ops) == Administered(AdministeredAll(map[], []), Insert(r));
    actions, resp :=
      EveryClientCanLogIn(cfg, ops, ToConfig(r), uri, verifier, BasicSecret(secret, idInBody), i, code, now);
  }
}
