/** A run from the beginning in which a disabled client is redirected to. */
module ExpiredRedirect {
  import opened Basics
  import opened Form
  import opened Client
  import opened ClientRecords
  import opened Resolver
  import opened Code
  import opened OAuth
  import opened Util
  import opened Authorize
  import opened Callback
  import opened Protocol
  import opened Cutoff
  import opened Redirects
  import opened TokenRequest
  import opened Completeness
  import opened StraightLogin
  import Pkce

  /** The steps after the request of process 0 has proceeded: its transaction is
      stored, the client is disabled, and the callback comes 600 s later. */
  function Late(id: string, query: string, i: Input, now: int, disabledAt: int): seq<Action> {
    [Advance(0, i)] + [Administer(Modify(id, Disable(disabledAt)))]
      + [StartCallback(query, now + 600)] + [Advance(1, i)]
  }

  lemma RunFour(cfg: Config, s: State, a: Action, b: Action, c: Action, d: Action)
    ensures Run(cfg, s, [a] + [b] + [c] + [d]) == Step(cfg, Step(cfg, Step(cfg, Step(cfg, s, a), b), c), d)
  {
    RunOne(cfg, s, a);
    RunConcat(cfg, s, [a], [b]);
    RunOne(cfg, Step(cfg, s, a), b);
    RunConcat(cfg, s, [a] + [b], [c]);
    RunOne(cfg, Step(cfg, Step(cfg, s, a), b), c);
    RunConcat(cfg, s, [a] + [b] + [c], [d]);
    RunOne(cfg, Step(cfg, Step(cfg, Step(cfg, s, a), b), c), d);
  }

  lemma StoresAndDisables(cfg: Config, s: State, pairs: Pairs, client: ClientConfig, v: Validated, tx: Transaction,
                          i: Input, now: int, disabledAt: int)
    requires |s.procs| == 1 && s.procs[0] == AuthorizeProcess(Storing(pairs, client, v, tx, now))
    requires i.fault == Delivered
    requires IsDynamicClientId(tx.clientId) && Find(cfg.clients, tx.clientId) == None && tx.clientId in s.records
    requires s.records[tx.clientId].status == Active
    ensures var t := Step(cfg, Step(cfg, s, Advance(0, i)), Administer(Modify(tx.clientId, Disable(disabledAt))));
            && |t.procs| == 1 && t.redirects == s.redirects && IsDisabled(t.records, tx.clientId)
            && tx.discordState in t.store.txs && t.store.txs[tx.discordState] == tx
  {
  }

  lemma CallsLate(cfg: Config, s: State, tx: Transaction, query: string, i: Input, now: int)
    requires |s.procs| == 1 && |tx.discordState| == 43 && CarriesCode(cfg.lossy, query, tx.discordState)
    requires tx.discordState in s.store.txs && s.store.txs[tx.discordState] == tx && tx.expiresAt <= now
    requires i.fault == Delivered
    ensures var t := Step(cfg, Step(cfg, s, StartCallback(query, now)), Advance(1, i));
            && t.records == s.records
            && t.redirects == s.redirects
                 + [FromCallback(1, tx, FailureToClient(tx.redirectUri, TemporarilyUnavailable, tx.rpState), now)]
  {
    var code := FirstValue(ParseForm(cfg.lossy, query), "code");
    var s1 := Step(cfg, s, StartCallback(query, now));
    assert InPhase(s1, 1, CallbackProcess(Taking(tx.discordState, code, None, now)));
    ExpiredTakeRedirects(cfg, s1, 1, tx, code, None, now, i);
  }

  lemma LateCallbackRedirects(cfg: Config, s: State, pairs: Pairs, client: ClientConfig, v: Validated,
                              query: string, i: Input, now: int, disabledAt: int)
    requires i.fault == Delivered && CarriesCode(cfg.lossy, query, TokenText(i.drawB)) && |s.procs| == 1
    requires s.procs[0] == AuthorizeProcess(Storing(pairs, client, v, TransactionFor(v, i.drawA, i.drawB, now), now))
    requires IsDynamicClientId(v.clientId) && Find(cfg.clients, v.clientId) == None && v.clientId in s.records
    requires s.records[v.clientId].status == Active
    ensures var tx := TransactionFor(v, i.drawA, i.drawB, now);
            var t := Run(cfg, s, Late(v.clientId, query, i, now, disabledAt));
            && IsDisabled(t.records, v.clientId)
            && t.redirects == s.redirects
                 + [FromCallback(1, tx, FailureToClient(v.redirectUri, TemporarilyUnavailable, v.rpState), now + 600)]
  {
    var tx := TransactionFor(v, i.drawA, i.drawB, now);
    TokenShape(i.drawB);
    StoresAndDisables(cfg, s, pairs, client, v, tx, i, now, disabledAt);
    var mid := Step(cfg, Step(cfg, s, Advance(0, i)), Administer(Modify(v.clientId, Disable(disabledAt))));
    CallsLate(cfg, mid, tx, query, i, now + 600);
    RunFour(cfg, s, Advance(0, i), Administer(Modify(v.clientId, Disable(disabledAt))), StartCallback(query, now + 600),
            Advance(1, i));
  }

  /** The promise that a client disabled before the callback gets no redirect is
      not kept. Take any public client the admin API can create, with a redirect
      URI short enough for `/authorize`: it is created, asks for authorization,
      and is disabled; the callback comes 600 s after the request, and the one
      redirect of the whole run sends the browser to the disabled client. */
  lemma DisabledClientIsRedirectedTo(cfg: Config, r: ClientRecord, uri: string, verifier: string, code: string,
                                     i: Input, now: int, disabledAt: int)
    returns (actions: seq<Action>, tx: Transaction)
    requires LossyOk(cfg.lossy) && Permitted(cfg, Insert(r)) && r.clientType == Public && i.fault == Delivered
    requires uri in r.metadata.redirectUris && |uri| <= MAX_PARAM_LEN && IsString(uri)
    requires Pkce.IsValidVerifier(verifier) && IsString(code)
    ensures tx.clientId == r.clientId && tx.redirectUri == uri
    ensures var s := Run(cfg, INIT, actions);
            && IsDisabled(s.records, r.clientId)
            && s.redirects == [FromCallback(1, tx, FailureToClient(uri, TemporarilyUnavailable, tx.rpState), now + 600)]
  {
    var ops, client, query := [Insert(r)], ToConfig(r), PrintedQuery(code, TokenText(i.drawB));
    assert ops[..0] == [];
    assert AdministeredAll(map[], ops) == Administered(AdministeredAll(map[], []), Insert(r));
    DynamicIdIsText(r.clientId);
    var asked, v := GoodQuery(cfg, AdministeredAll(map[], ops), client, uri, verifier, PublicId, now);
    var pairs := ParseForm(cfg.lossy, asked);
    var earlier := Proceeds(cfg, ops, asked, pairs, client, v, verifier, PublicId, i, now);
    PrintedQueryCarriesCode(cfg.lossy, code, i.drawB);
    tx := TransactionFor(v, i.drawA, i.drawB, now);
    LateCallbackRedirects(cfg, Run(cfg, INIT, earlier), pairs, client, v, query, i, now, disabledAt);
    actions := earlier + Late(r.clientId, query, i, now, disabledAt);
    RunConcat(cfg, INIT, earlier, Late(r.clientId, query, i, now, disabledAt));
  }
}
