/** The handlers and the step system are one model: a request that runs with
    nothing in between, and without storage faults, ends exactly as the handler
    run alone does. */
module Handlers {
  import opened Basics
  import opened Resolver
  import opened AuthorizationStore
  import opened Util
  import opened Authorize
  import opened Callback
  import opened Token
  import opened Protocol

  /** `n` steps of request `pid` in a row, all with the same input. */
  ghost function Alone(cfg: Config, s: State, pid: nat, i: Input, n: nat): State
    decreases n
  {
    if n == 0 then s else Alone(cfg, Step(cfg, s, Advance(pid, i)), pid, i, n - 1)
  }

  /** After `n` steps the request is in phase `p` and the store is `store`. */
  ghost predicate Ends(cfg: Config, s: State, pid: nat, i: Input, n: nat, p: Process, store: Store) {
    var t := Alone(cfg, s, pid, i, n);
    InPhase(t, pid, p) && t.store == store && t.records == s.records
  }

  lemma OneStep(cfg: Config, s: State, pid: nat, p: Process, i: Input) returns (t: State)
    requires InPhase(s, pid, p)
    ensures t == Step(cfg, s, Advance(pid, i)) && t.records == s.records
    ensures var (q, store, _) := AdvanceProcess(cfg, s, pid, i); InPhase(t, pid, q) && t.store == store
  {
    t := Step(cfg, s, Advance(pid, i));
  }

  /** An answered request does nothing more. */
  lemma {:induction false} OverStays(cfg: Config, s: State, pid: nat, p: Process, i: Input, n: nat)
    requires InPhase(s, pid, p) && IsOver(p)
    ensures Ends(cfg, s, pid, i, n, p, s.store)
    decreases n
  {
    if n > 0 {
      var t := OneStep(cfg, s, pid, p, i);
      OverStays(cfg, t, pid, p, i, n - 1);
    }
  }

  // ---------- /authorize ----------

  lemma AuthorizeAlone(cfg: Config, s: State, query: string, now: int, i: Input)
    requires i.fault == Delivered
    ensures var (resp, store) := Handled(cfg, s.records, s.store, query, i.drawA, i.drawB, now);
            Ends(cfg, Step(cfg, s, StartAuthorize(query, now)), |s.procs|, i, 2, AuthorizeProcess(Finished(resp)),
                 store)
  {
    var s1, pid := Step(cfg, s, StartAuthorize(query, now)), |s.procs|;
    var p := Begin(cfg.lossy, query, now);
    assert InPhase(s1, pid, AuthorizeProcess(p));
    var (resp, store) := Handled(cfg, s.records, s.store, query, i.drawA, i.drawB, now);
    if p.Finished? {
      OverStays(cfg, s1, pid, AuthorizeProcess(p), i, 2);
    } else {
      var q := AfterFind(p.pairs, Resolved(FindClient(cfg, s.records, p.clientId)), i.drawA, i.drawB, now);
      var s2 := OneStep(cfg, s1, pid, AuthorizeProcess(p), i);
      assert InPhase(s2, pid, AuthorizeProcess(q)) && s2.store == s.store;
      var s3 := OneStep(cfg, s2, pid, AuthorizeProcess(q), i);
      assert Alone(cfg, s3, pid, i, 0) == s3;
      assert Alone(cfg, s2, pid, i, 1) == Alone(cfg, s3, pid, i, 0);
    }
  }

  // ---------- Callback ----------

  lemma StoringCodeEnds(cfg: Config, s: State, pid: nat, p: CallbackPhase, i: Input, n: nat)
    requires i.fault == Delivered && InPhase(s, pid, CallbackProcess(p)) && p.StoringCode? && n >= 1
    ensures Ends(cfg, s, pid, i, n,
                 CallbackProcess(Answered(CodeToClient(p.tx.redirectUri, TokenText(p.draw), p.tx.rpState))),
                 PutCode(s.store, p.record))
  {
    var t := OneStep(cfg, s, pid, CallbackProcess(p), i);
    OverStays(cfg, t, pid, CallbackProcess(AfterPut(p.tx, p.draw, true)), i, n - 1);
  }

  function Replies(i: Input): DiscordReplies {
    DiscordReplies(_ => i.discordToken, _ => i.discordUser, (_, _) => i.member)
  }

  /** `n` steps of the request end it as the handler does from phase `p` on. */
  ghost predicate EndsLikeHandler(cfg: Config, s: State, pid: nat, p: CallbackPhase, i: Input, n: nat, now: int) {
    var (resp, store) := CalledAfterResolve(cfg, s.store, p, Replies(i), i.drawA, now);
    Ends(cfg, s, pid, i, n, CallbackProcess(Answered(resp)), store)
  }

  lemma LastEnds(cfg: Config, s: State, pid: nat, p: CallbackPhase, i: Input, n: nat, now: int)
    requires i.fault == Delivered && InPhase(s, pid, CallbackProcess(p)) && n >= 1
    requires p.Answered? || (p.StoringCode? && p.draw == i.drawA)
    ensures EndsLikeHandler(cfg, s, pid, p, i, n, now)
  {
    if p.Answered? { OverStays(cfg, s, pid, CallbackProcess(p), i, n); } else { StoringCodeEnds(cfg, s, pid, p, i, n); }
  }

  lemma CheckingEnds(cfg: Config, s: State, pid: nat, p: CallbackPhase, i: Input, n: nat, now: int)
    requires i.fault == Delivered && InPhase(s, pid, CallbackProcess(p)) && n >= 2 && (p.Answered? || p.CheckingMember?)
    ensures EndsLikeHandler(cfg, s, pid, p, i, n, now)
  {
    if p.Answered? {
      LastEnds(cfg, s, pid, p, i, n, now);
    } else {
      var t := OneStep(cfg, s, pid, CallbackProcess(p), i);
      LastEnds(cfg, t, pid, AfterMember(cfg.sha, p.tx, p.client, p.token, p.user, i.member, i.drawA, p.now), i, n - 1,
               now);
    }
  }

  lemma FetchingEnds(cfg: Config, s: State, pid: nat, p: CallbackPhase, i: Input, n: nat, now: int)
    requires i.fault == Delivered && InPhase(s, pid, CallbackProcess(p)) && n >= 3 && (p.Answered? || p.FetchingUser?)
    ensures EndsLikeHandler(cfg, s, pid, p, i, n, now)
  {
    if p.Answered? {
      LastEnds(cfg, s, pid, p, i, n, now);
    } else {
      var t := OneStep(cfg, s, pid, CallbackProcess(p), i);
      CheckingEnds(cfg, t, pid, AfterUser(p.tx, p.client, p.token, i.discordUser, p.now), i, n - 1, now);
    }
  }

  lemma ExchangingEnds(cfg: Config, s: State, pid: nat, p: CallbackPhase, i: Input, n: nat, now: int)
    requires i.fault == Delivered && InPhase(s, pid, CallbackProcess(p)) && n >= 4 && (p.Answered? || p.Exchanging?)
    ensures EndsLikeHandler(cfg, s, pid, p, i, n, now)
  {
    if p.Answered? {
      LastEnds(cfg, s, pid, p, i, n, now);
    } else {
      var t := OneStep(cfg, s, pid, CallbackProcess(p), i);
      FetchingEnds(cfg, t, pid, AfterExchange(p.tx, p.client, i.discordToken, p.now), i, n - 1, now);
    }
  }

  lemma ResolvingEnds(cfg: Config, s: State, pid: nat, p: CallbackPhase, i: Input)
    requires i.fault == Delivered && InPhase(s, pid, CallbackProcess(p)) && (p.Resolving? || p.Answered?)
    ensures var (resp, store) := CalledAfterTake(cfg, s.records, s.store, p, Replies(i), i.drawA, if p.Resolving? then
                                                 p.now else 0);
            Ends(cfg, s, pid, i, 5, CallbackProcess(Answered(resp)), store)
  {
    if p.Answered? {
      OverStays(cfg, s, pid, CallbackProcess(p), i, 5);
    } else {
      var t := OneStep(cfg, s, pid, CallbackProcess(p), i);
      var q := AfterResolve(p.tx, Resolved(FindClient(cfg, s.records, p.tx.clientId)), p.code, p.error, p.now);
      assert InPhase(t, pid, CallbackProcess(q)) && t.store == s.store;
      ExchangingEnds(cfg, t, pid, q, i, 4, p.now);
    }
  }

  lemma CallbackAlone(cfg: Config, s: State, query: string, now: int, i: Input)
    requires i.fault == Delivered
    ensures var (resp, store) := Called(cfg, s.records, s.store, query, Replies(i), i.drawA, now);
            Ends(cfg, Step(cfg, s, StartCallback(query, now)), |s.procs|, i, 6, CallbackProcess(Answered(resp)), store)
  {
    var s1, pid := Step(cfg, s, StartCallback(query, now)), |s.procs|;
    var p := BeginCallback(cfg.lossy, query, now);
    assert InPhase(s1, pid, CallbackProcess(p));
    if p.Answered? {
      OverStays(cfg, s1, pid, CallbackProcess(p), i, 6);
    } else {
      var t := OneStep(cfg, s1, pid, CallbackProcess(p), i);
      var q := AfterTake(Some(TakeReply(s.store, p.state, now)), p.code, p.error, now);
      assert InPhase(t, pid, CallbackProcess(q)) && t.store == TakeTransaction(s.store, p.state);
      ResolvingEnds(cfg, t, pid, q, i);
    }
  }

  // ---------- /token ----------

  lemma SigningEnds(cfg: Config, s: State, pid: nat, p: TokenPhase, i: Input, n: nat)
    requires InPhase(s, pid, TokenProcess(p)) && (p.Signing? || p.Responded?) && n >= 1
    ensures var q := if p.Signing? then AfterSign(cfg, p.client, p.record, i.drawA, i.signed, p.now) else p;
            Ends(cfg, s, pid, i, n, TokenProcess(q), s.store)
  {
    if p.Responded? {
      OverStays(cfg, s, pid, TokenProcess(p), i, n);
    } else {
      var t := OneStep(cfg, s, pid, TokenProcess(p), i);
      OverStays(cfg, t, pid, TokenProcess(AfterSign(cfg, p.client, p.record, i.drawA, i.signed, p.now)), i, n - 1);
    }
  }

  predicate AtTime(p: TokenPhase, now: int) { p.Responded? || p.now == now }

  /** From the authenticated request, or an answer, on. */
  lemma ExchangeEnds(cfg: Config, s: State, pid: nat, p: TokenPhase, i: Input, n: nat, now: int)
    requires i.fault == Delivered && InPhase(s, pid, TokenProcess(p)) && (p.Consuming? || p.Responded?) && n >= 2
    requires AtTime(p, now)
    ensures var (resp, store) := Completed(cfg, s.store, p, i.drawA, i.signed, now);
            Ends(cfg, s, pid, i, n, TokenProcess(Responded(resp)), store)
  {
    if p.Responded? {
      OverStays(cfg, s, pid, TokenProcess(p), i, n);
    } else {
      var t := OneStep(cfg, s, pid, TokenProcess(p), i);
      var q := AfterConsume(p.client, p.check, Some(ConsumeReply(cfg.sha, s.store, p.hash, p.check, now)), now);
      assert InPhase(t, pid, TokenProcess(q)) && t.store == ConsumeCode(cfg.sha, s.store, p.hash, p.check, now);
      SigningEnds(cfg, t, pid, q, i, n - 1);
    }
  }

  /** What the client's secret check leads to. */
  function Verified(cfg: Config, s: State, p: TokenPhase, now: int): TokenPhase {
    if p.VerifyingSecret? then
      AfterVerify(cfg.sha, p.pairs, p.client, Some(VerifyClientSecret(cfg, s.records, p.id, p.secret, now)), now)
    else p
  }

  lemma VerifyingEnds(cfg: Config, s: State, pid: nat, p: TokenPhase, i: Input, now: int)
    requires i.fault == Delivered && InPhase(s, pid, TokenProcess(p)) && !p.FindingClient? && !p.Signing?
    requires AtTime(p, now)
    ensures var (resp, store) := Completed(cfg, s.store, Verified(cfg, s, p, now), i.drawA, i.signed, now);
            Ends(cfg, s, pid, i, 3, TokenProcess(Responded(resp)), store)
  {
    if p.VerifyingSecret? {
      var t := OneStep(cfg, s, pid, TokenProcess(p), i);
      assert InPhase(t, pid, TokenProcess(Verified(cfg, s, p, now))) && t.store == s.store;
      ExchangeEnds(cfg, t, pid, Verified(cfg, s, p, now), i, 2, now);
    } else {
      ExchangeEnds(cfg, s, pid, p, i, 3, now);
    }
  }

  lemma FindingEnds(cfg: Config, s: State, pid: nat, p: TokenPhase, i: Input, now: int)
    requires i.fault == Delivered && InPhase(s, pid, TokenProcess(p)) && (p.FindingClient? || p.Responded?)
    requires AtTime(p, now)
    ensures var (resp, store) := Completed(cfg, s.store, Authenticated(cfg, s.records, p), i.drawA, i.signed, now);
            Ends(cfg, s, pid, i, 4, TokenProcess(Responded(resp)), store)
  {
    if p.Responded? {
      OverStays(cfg, s, pid, TokenProcess(p), i, 4);
    } else {
      var t := OneStep(cfg, s, pid, TokenProcess(p), i);
      var q := AfterFindClient(cfg.sha, p.pairs, p.cred, Resolved(FindClient(cfg, s.records, p.cred.id)), now);
      assert InPhase(t, pid, TokenProcess(q)) && t.store == s.store;
      assert Authenticated(cfg, s.records, p) == Verified(cfg, t, q, now);
      VerifyingEnds(cfg, t, pid, q, i, now);
    }
  }

  lemma TokenAlone(cfg: Config, s: State, body: string, header: Option<string>, now: int, i: Input)
    requires i.fault == Delivered
    ensures var (resp, store) := Exchanged(cfg, s.records, s.store, body, header, i.drawA, i.signed, now);
            Ends(cfg, Step(cfg, s, StartToken(body, header, now)), |s.procs|, i, 4, TokenProcess(Responded(resp)),
                 store)
  {
    var s1, p := Step(cfg, s, StartToken(body, header, now)), BeginToken(cfg.lossy, body, header, now);
    assert InPhase(s1, |s.procs|, TokenProcess(p)) && s1.store == s.store && s1.records == s.records;
    assert p.Responded? || p.FindingClient?;
    FindingEnds(cfg, s1, |s.procs|, p, i, now);
  }
}
