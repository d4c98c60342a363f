/** Where the provider sends a browser other than to Discord, over all
    interleaved runs, and what becomes of the callback of a client that has been
    disabled. */
module Redirects {
  import opened Basics
  import opened Client
  import opened Registry
  import opened Resolver
  import opened Code
  import opened Util
  import opened AuthorizationStore
  import opened OAuth
  import opened Form
  import opened Params
  import opened Authorize
  import opened Token
  import opened Callback
  import opened Protocol
  import opened Provenance

  // ---------- No redirect goes unlogged ----------

  /** The answer sends the browser on to the client. */
  predicate IsRedirect(resp: CallbackResponse) { !resp.FailurePage? }

  /** The request has been answered with a redirect to a client. */
  predicate SendsOn(p: Process) {
    match p
    case AuthorizeProcess(q) => q.Finished? && q.resp.ErrorToClient?
    case CallbackProcess(q) => q.Answered? && IsRedirect(q.resp)
    case TokenProcess(_) => false
  }

  function RedirectUri(r: Redirect): string {
    match r
    case FromCallback(_, _, resp, _) => if resp.FailurePage? then "" else resp.uri
    case FromAuthorize(_, _, answer, _) => if answer.ErrorToClient? then answer.uri else ""
  }

  lemma CallbackIsLogged(cfg: Config, s: State, pid: nat, p: CallbackPhase, i: Input)
    requires !p.Answered?
    requires SendsOn(CallbackProcess(AdvanceCallback(cfg, s, pid, p, i).0))
    ensures var (q, _, e) := AdvanceCallback(cfg, s, pid, p, i);
            exists tx ::
              RedirectOf(pid, CallbackProcess(p), CallbackProcess(q), e) == [FromCallback(pid, tx, q.resp, p.now)]
  {
    var (q, _, e) := AdvanceCallback(cfg, s, pid, p, i);
    var tx := TransactionOf(p, e).value;
    assert RedirectOf(pid, CallbackProcess(p), CallbackProcess(q), e) == [FromCallback(pid, tx, q.resp, p.now)];
  }

  lemma AuthorizeIsLogged(cfg: Config, s: State, pid: nat, p: Phase, i: Input)
    requires !p.Finished?
    requires SendsOn(AuthorizeProcess(AdvanceAuthorize(cfg, s, pid, p, i).0))
    ensures var (q, _, e) := AdvanceAuthorize(cfg, s, pid, p, i);
            && e.Refused? && e.answer == q.resp
            && RedirectOf(pid, AuthorizeProcess(p), AuthorizeProcess(q), e)
               == [FromAuthorize(pid, e.client, q.resp, e.now)]
  {
  }

  /** A step that ends its request with a redirect to a client logs just that
      redirect. */
  lemma RedirectsAreLogged(cfg: Config, s: State, pid: nat, i: Input)
    requires pid < |s.procs| && !IsOver(s.procs[pid]) && SendsOn(AdvanceProcess(cfg, s, pid, i).0)
    ensures var s' := Step(cfg, s, Advance(pid, i));
            exists r :: s'.redirects == s.redirects + [r] && r.pid == pid && Carries(r, s'.procs[pid])
  {
    var (q, _, e) := AdvanceProcess(cfg, s, pid, i);
    match s.procs[pid] {
      case AuthorizeProcess(p) =>
        AuthorizeIsLogged(cfg, s, pid, p, i);
        assert Carries(FromAuthorize(pid, e.client, q.authorize.resp, e.now), q);
      case CallbackProcess(p) =>
        CallbackIsLogged(cfg, s, pid, p, i);
        var tx :| RedirectOf(pid, s.procs[pid], q, e) == [FromCallback(pid, tx, q.callback.resp, p.now)];
        assert Carries(FromCallback(pid, tx, q.callback.resp, p.now), q);
    }
  }

  /** The logged redirect is the answer of the request. */
  predicate Carries(r: Redirect, p: Process) {
    match r
    case FromCallback(_, _, resp, _) => p.CallbackProcess? && p.callback == Answered(resp)
    case FromAuthorize(_, _, answer, _) => p.AuthorizeProcess? && p.authorize == Finished(answer)
  }

  // ---------- Each redirect is justified ----------

  ghost predicate ExpiredKnown(log: seq<Event>, pid: nat, tx: Transaction, now: int) {
    exists k :: 0 <= k < |log| && log[k] == TxExpired(pid, tx, now)
  }

  ghost predicate ResolutionKnown(log: seq<Event>, pid: nat, tx: Transaction, now: int) {
    exists c :: ResolvedKnown(log, pid, tx, c, now)
  }

  /** The callback has stored the code that it sends, by its hash. */
  ghost predicate CodeSent(log: seq<Event>, pid: nat, tx: Transaction, code: string, now: int) {
    exists k :: 0 <= k < |log| && log[k].CodeStored? && log[k].pid == pid && log[k].tx == tx && log[k].now == now
                && code == TokenText(log[k].draw)
  }

  ghost predicate RefusalKnown(log: seq<Event>, pid: nat, client: ClientConfig, answer: Response, now: int) {
    exists k :: 0 <= k < |log| && log[k].Refused? && log[k].pid == pid && log[k].client == client
                && log[k].answer == answer && log[k].now == now
  }

  ghost predicate RedirectOk(log: seq<Event>, r: Redirect) {
    match r
    case FromCallback(pid, tx, resp, now) =>
      && IsRedirect(resp) && resp.uri == tx.redirectUri && resp.state == tx.rpState
      && (resp.CodeToClient? ==> CodeSent(log, pid, tx, resp.code, now))
      && (ExpiredKnown(log, pid, tx, now) || ResolutionKnown(log, pid, tx, now))
    case FromAuthorize(pid, client, answer, now) => RefusalKnown(log, pid, client, answer, now)
  }

  ghost predicate RedirectsOk(s: State) {
    forall n :: 0 <= n < |s.redirects| ==> RedirectOk(s.log, s.redirects[n])
  }

  lemma RedirectGrows(log: seq<Event>, e: Event, r: Redirect)
    requires RedirectOk(log, r)
    ensures RedirectOk(log + [e], r)
  {
    KnownGrows(log, e);
    var more := log + [e];
    assert forall k :: 0 <= k < |log| ==> more[k] == log[k];
  }

  /** A callback that is past its resolution has it in the log. */
  lemma ResolvedBefore(cfg: Config, log: seq<Event>, pid: nat, p: CallbackPhase)
    requires LogOk(cfg, log) && Supported(cfg, log, pid, CallbackProcess(p))
    requires p.Exchanging? || p.FetchingUser? || p.CheckingMember? || p.StoringCode?
    ensures ResolvedKnown(log, pid, p.tx, p.client, p.now)
  {
    match p {
      case Exchanging(_, _, _, _) =>
      case FetchingUser(tx, client, token, now) =>
        ResolvedBeforeExchange(cfg, log, DiscordExchanged(pid, tx, client, Some(token), now));
      case CheckingMember(tx, client, token, user, now) =>
        ResolvedBeforeUser(cfg, log, UserFetched(pid, tx, client, token, user, now));
      case StoringCode(tx, client, token, user, draw, record, now) =>
        assert log[..|log|] == log;
        var k := EventPosition(log, |log|, MemberConfirmed(pid, tx, client, token, user, cfg.guild, now));
        assert Justified(cfg, log[..k], log[k]);
        ResolvedBeforeUser(cfg, log, UserFetched(pid, tx, client, token, user, now));
    }
  }

  lemma ResolvedBeforeExchange(cfg: Config, log: seq<Event>, e: Event)
    requires LogOk(cfg, log) && e in log && e.DiscordExchanged?
    ensures ResolvedKnown(log, e.pid, e.tx, e.client, e.now)
  {
    var k :| 0 <= k < |log| && log[k] == e;
    var before := log[..k];
    assert Justified(cfg, before, e);
    var j :| 0 <= j < |before| && before[j].ClientResolved? && before[j].pid == e.pid && before[j].tx == e.tx
             && before[j].client == e.client && before[j].now == e.now;
    assert log[j] == before[j];
  }

  lemma ResolvedBeforeUser(cfg: Config, log: seq<Event>, e: Event)
    requires LogOk(cfg, log) && e in log && e.UserFetched?
    ensures ResolvedKnown(log, e.pid, e.tx, e.client, e.now)
  {
    var k :| 0 <= k < |log| && log[k] == e;
    assert Justified(cfg, log[..k], e);
    ResolvedBeforeExchange(cfg, log, DiscordExchanged(e.pid, e.tx, e.client, Some(e.token), e.now));
  }

  lemma TakingRedirect(cfg: Config, s: State, pid: nat, p: CallbackPhase, i: Input)
    requires StoreOk(s.log, s.store) && p.Taking?
    ensures var (q, _, e) := AdvanceCallback(cfg, s, pid, p, i);
            forall r :: r in RedirectOf(pid, CallbackProcess(p), CallbackProcess(q), e) ==> RedirectOk(s.log + [e], r)
  {
    var (q, _, e) := AdvanceCallback(cfg, s, pid, p, i);
    assert (s.log + [e])[|s.log|] == e;
  }

  lemma ResolvingRedirect(cfg: Config, s: State, pid: nat, p: CallbackPhase, i: Input)
    requires p.Resolving?
    ensures var (q, _, e) := AdvanceCallback(cfg, s, pid, p, i);
            forall r :: r in RedirectOf(pid, CallbackProcess(p), CallbackProcess(q), e) ==> RedirectOk(s.log + [e], r)
  {
    var (q, _, e) := AdvanceCallback(cfg, s, pid, p, i);
    if q.Answered? && IsRedirect(q.resp) {
      LastKnown(s.log, e);
      assert ResolvedKnown(s.log + [e], pid, p.tx, e.client, p.now);
    }
  }

  lemma LastCodeSent(log: seq<Event>, e: Event)
    requires e.CodeStored?
    ensures CodeSent(log + [e], e.pid, e.tx, TokenText(e.draw), e.now)
  {
    assert (log + [e])[|log|] == e;
  }

  lemma UpstreamRedirect(cfg: Config, s: State, pid: nat, p: CallbackPhase, i: Input)
    requires p.Exchanging? || p.FetchingUser? || p.CheckingMember? || p.StoringCode?
    requires ResolvedKnown(s.log, pid, p.tx, p.client, p.now)
    ensures var (q, _, e) := AdvanceCallback(cfg, s, pid, p, i);
            forall r :: r in RedirectOf(pid, CallbackProcess(p), CallbackProcess(q), e) ==> RedirectOk(s.log + [e], r)
  {
    var (q, _, e) := AdvanceCallback(cfg, s, pid, p, i);
    KnownGrows(s.log, e);
    if e.CodeStored? { LastCodeSent(s.log, e); }
  }

  lemma CallbackRedirect(cfg: Config, s: State, pid: nat, p: CallbackPhase, i: Input)
    requires Inv(cfg, s) && Supported(cfg, s.log, pid, CallbackProcess(p))
    ensures var (q, _, e) := AdvanceCallback(cfg, s, pid, p, i);
            forall r :: r in RedirectOf(pid, CallbackProcess(p), CallbackProcess(q), e) ==> RedirectOk(s.log + [e], r)
  {
    match p {
      case Taking(_, _, _, _) => TakingRedirect(cfg, s, pid, p, i);
      case Resolving(_, _, _, _) => ResolvingRedirect(cfg, s, pid, p, i);
      case Answered(_) =>
      case _ =>
        ResolvedBefore(cfg, s.log, pid, p);
        UpstreamRedirect(cfg, s, pid, p, i);
    }
  }

  lemma AuthorizeRedirect(cfg: Config, s: State, pid: nat, p: Phase, i: Input)
    ensures var (q, _, e) := AdvanceAuthorize(cfg, s, pid, p, i);
            forall r :: r in RedirectOf(pid, AuthorizeProcess(p), AuthorizeProcess(q), e) ==> RedirectOk(s.log + [e], r)
  {
    var (q, _, e) := AdvanceAuthorize(cfg, s, pid, p, i);
    assert (s.log + [e])[|s.log|] == e;
  }

  lemma TokenDoesNotRedirect(cfg: Config, s: State, pid: nat, p: TokenPhase, i: Input)
    ensures var (q, _, e) := AdvanceToken(cfg, s, pid, p, i); RedirectOf(pid, TokenProcess(p), TokenProcess(q), e) == []
  {
  }

  lemma AdvanceRedirect(cfg: Config, s: State, pid: nat, i: Input)
    requires Inv(cfg, s) && pid < |s.procs|
    ensures var (q, _, e) := AdvanceProcess(cfg, s, pid, i);
            forall r :: r in RedirectOf(pid, s.procs[pid], q, e) ==> RedirectOk(s.log + [e], r)
  {
    assert Supported(cfg, s.log, pid, s.procs[pid]);
    match s.procs[pid] {
      case AuthorizeProcess(p) => AuthorizeRedirect(cfg, s, pid, p, i);
      case CallbackProcess(p) => CallbackRedirect(cfg, s, pid, p, i);
      case TokenProcess(p) => TokenDoesNotRedirect(cfg, s, pid, p, i);
    }
  }

  lemma StepKeepsRedirects(cfg: Config, s: State, a: Action)
    requires Inv(cfg, s) && RedirectsOk(s)
    ensures RedirectsOk(Step(cfg, s, a))
  {
    if IsStart(a) {
      var p := StartStep(cfg, s, a);
      RedirectsGrow(s, Spawn(s, p), Quiet, []);
    } else if IsSystem(s, a) {
      SystemStep(cfg, s, a);
      RedirectsGrow(s, Step(cfg, s, a), SystemEvent(cfg, s, a), []);
    } else {
      var (q, _, e) := AdvanceProcess(cfg, s, a.pid, a.input);
      AdvanceRedirect(cfg, s, a.pid, a.input);
      RedirectsGrow(s, Step(cfg, s, a), e, RedirectOf(a.pid, s.procs[a.pid], q, e));
    }
  }

  lemma RedirectsGrow(s: State, s': State, e: Event, redirects: seq<Redirect>)
    requires RedirectsOk(s) && s'.log == s.log + [e] && s'.redirects == s.redirects + redirects
    requires forall r :: r in redirects ==> RedirectOk(s.log + [e], r)
    ensures RedirectsOk(s')
  {
    forall n | 0 <= n < |s'.redirects| ensures RedirectOk(s'.log, s'.redirects[n]) {
      if n < |s.redirects| { RedirectGrows(s.log, e, s.redirects[n]); } else { assert s'.redirects[n] in redirects; }
    }
  }

  lemma {:induction false} RunKeepsRedirects(cfg: Config, s: State, actions: seq<Action>)
    requires Inv(cfg, s) && RedirectsOk(s)
    ensures RedirectsOk(Run(cfg, s, actions))
    decreases |actions|
  {
    if actions != [] {
      StepKeepsInv(cfg, s, actions[0]);
      StepKeepsRedirects(cfg, s, actions[0]);
      RunKeepsRedirects(cfg, Step(cfg, s, actions[0]), actions[1..]);
    }
  }

  /** What lies behind the redirect of a callback: the transaction's request,
      which proceeded, and the step, at `checked`, that let it through. */
  ghost predicate CallbackTraced(cfg: Config, log: seq<Event>, r: Redirect, proceeded: nat, checked: nat)
    requires r.FromCallback?
  {
    && proceeded < checked < |log| && IsRedirect(r.resp) && r.resp.uri == r.tx.redirectUri
    && log[proceeded].Proceeded? && log[proceeded].tx == r.tx
    && r.resp.state == SingleOrNone(log[proceeded].pairs, "state")
    && (r.resp.CodeToClient? ==> CodeSent(log, r.pid, r.tx, r.resp.code, r.now))
    && RequestCarried(log[proceeded].pairs, log[proceeded].client, r.tx, log[proceeded].now)
    && FindClient(cfg, log[proceeded].records, r.tx.clientId) == Some(log[proceeded].client)
    && if r.tx.expiresAt <= r.now then log[checked] == TxExpired(r.pid, r.tx, r.now)
       else
         && log[checked].ClientResolved? && log[checked].pid == r.pid && log[checked].tx == r.tx
         && log[checked].now == r.now
         && FindClient(cfg, log[checked].records, r.tx.clientId) == Some(log[checked].client)
         && r.resp.uri in log[checked].client.redirectUris
  }

  /** And behind that of `/authorize`: the step that refused the request of a
      client that resolved, for its protocol fault, with the URI registered and
      the request's own state. */
  ghost predicate RefusalTraced(cfg: Config, log: seq<Event>, r: Redirect, checked: nat)
    requires r.FromAuthorize?
  {
    && checked < |log| && log[checked].Refused? && log[checked].pid == r.pid && log[checked].now == r.now
    && log[checked].client == r.client && log[checked].answer == r.answer && r.answer.ErrorToClient?
    && Single(log[checked].pairs, "client_id") == Exactly(r.client.clientId)
    && FindClient(cfg, log[checked].records, r.client.clientId) == Some(r.client)
    && r.answer.uri in r.client.redirectUris
    && Single(log[checked].pairs, "redirect_uri") == Exactly(r.answer.uri)
    && r.answer.state == SingleOrNone(log[checked].pairs, "state")
    && ProtocolFault(log[checked].pairs) == Some(r.answer.code)
  }

  ghost predicate Traced(cfg: Config, log: seq<Event>, r: Redirect, proceeded: nat, checked: nat) {
    if r.FromCallback? then CallbackTraced(cfg, log, r, proceeded, checked) else RefusalTraced(cfg, log, r, checked)
  }

  lemma TakenIsFresh(cfg: Config, log: seq<Event>, k: nat) returns (taken: nat)
    requires LogOk(cfg, log) && k < |log| && log[k].ClientResolved?
    ensures taken < k && log[taken] == TxTaken(log[k].pid, log[k].tx, log[k].now) && log[k].now < log[k].tx.expiresAt
  {
    assert Justified(cfg, log[..k], log[k]);
    taken := EventPosition(log, k, TxTaken(log[k].pid, log[k].tx, log[k].now));
    assert Justified(cfg, log[..taken], log[taken]);
  }

  lemma RequestBehind(cfg: Config, log: seq<Event>, k: nat) returns (proceeded: nat)
    requires LogOk(cfg, log) && k < |log| && (log[k].TxExpired? || log[k].TxTaken?)
    ensures proceeded < k && log[proceeded].Proceeded? && log[proceeded].tx == log[k].tx
    ensures RequestCarried(log[proceeded].pairs, log[proceeded].client, log[k].tx, log[proceeded].now)
    ensures FindClient(cfg, log[proceeded].records, log[k].tx.clientId) == Some(log[proceeded].client)
  {
    var stored := StoredBehind(cfg, log, k);
    proceeded := ProceededBehind(cfg, log, stored);
    RequestIsCarried(cfg, log[..proceeded], log[proceeded]);
    StepsChecked(cfg, log[..proceeded], log[proceeded]);
  }

  lemma ExpiryBehind(cfg: Config, log: seq<Event>, r: Redirect) returns (proceeded: nat, checked: nat)
    requires r.FromCallback? && LogOk(cfg, log) && RedirectOk(log, r) && ExpiredKnown(log, r.pid, r.tx, r.now)
    ensures CallbackTraced(cfg, log, r, proceeded, checked)
  {
    checked :| 0 <= checked < |log| && log[checked] == TxExpired(r.pid, r.tx, r.now);
    assert Justified(cfg, log[..checked], log[checked]);
    proceeded := RequestBehind(cfg, log, checked);
  }

  lemma ResolutionBehind(cfg: Config, log: seq<Event>, r: Redirect) returns (proceeded: nat, checked: nat)
    requires r.FromCallback? && LogOk(cfg, log) && RedirectOk(log, r) && ResolutionKnown(log, r.pid, r.tx, r.now)
    ensures CallbackTraced(cfg, log, r, proceeded, checked)
  {
    var c :| ResolvedKnown(log, r.pid, r.tx, c, r.now);
    checked :| 0 <= checked < |log| && log[checked].ClientResolved? && log[checked].pid == r.pid
               && log[checked].tx == r.tx && log[checked].client == c && log[checked].now == r.now;
    StepsChecked(cfg, log[..checked], log[checked]);
    var taken := TakenIsFresh(cfg, log, checked);
    proceeded := RequestBehind(cfg, log, taken);
  }

  lemma RefusalChecked(cfg: Config, before: seq<Event>, e: Event)
    requires e.Refused? && Justified(cfg, before, e)
    ensures Single(e.pairs, "client_id") == Exactly(e.client.clientId)
    ensures FindClient(cfg, e.records, e.client.clientId) == Some(e.client)
    ensures e.answer.ErrorToClient? && e.answer.uri in e.client.redirectUris
    ensures Single(e.pairs, "redirect_uri") == Exactly(e.answer.uri) && ProtocolFault(e.pairs) == Some(e.answer.code)
    ensures e.answer.state == SingleOrNone(e.pairs, "state")
  {
    VerdictExact(e.pairs, e.client);
  }

  lemma RefusalBehind(cfg: Config, log: seq<Event>, r: Redirect) returns (checked: nat)
    requires r.FromAuthorize? && LogOk(cfg, log) && RefusalKnown(log, r.pid, r.client, r.answer, r.now)
    ensures RefusalTraced(cfg, log, r, checked)
  {
    checked :| 0 <= checked < |log| && log[checked].Refused? && log[checked].pid == r.pid
               && log[checked].client == r.client && log[checked].answer == r.answer && log[checked].now == r.now;
    RefusalChecked(cfg, log[..checked], log[checked]);
  }

  lemma RedirectBehind(cfg: Config, log: seq<Event>, r: Redirect) returns (proceeded: nat, checked: nat)
    requires LogOk(cfg, log) && RedirectOk(log, r)
    ensures Traced(cfg, log, r, proceeded, checked)
  {
    proceeded := 0;
    if r.FromAuthorize? { checked := RefusalBehind(cfg, log, r); }
    else if ExpiredKnown(log, r.pid, r.tx, r.now) { proceeded, checked := ExpiryBehind(cfg, log, r); }
    else { proceeded, checked := ResolutionBehind(cfg, log, r); }
  }

  /** Every redirect to a client in every interleaved run. One of `/authorize`
      goes to a URI registered to the client that this request resolved. One of
      a callback goes to the redirect URI of a transaction whose request
      proceeded, registered to the client the registry then resolved; unless the
      transaction had expired when it was taken, the client has resolved again
      in this callback, with the URI registered. */
  lemma RedirectsAreTraced(cfg: Config, actions: seq<Action>, n: nat) returns (proceeded: nat, checked: nat)
    requires n < |Run(cfg, INIT, actions).redirects|
    ensures var s := Run(cfg, INIT, actions); Traced(cfg, s.log, s.redirects[n], proceeded, checked)
  {
    InvInit(cfg);
    RunKeepsInv(cfg, INIT, actions);
    RunKeepsRedirects(cfg, INIT, actions);
    var s := Run(cfg, INIT, actions);
    proceeded, checked := RedirectBehind(cfg, s.log, s.redirects[n]);
  }

  // ---------- The disabled client ----------

  /** The client of the transaction is there with its redirect URI. */
  predicate StillRegistered(cfg: Config, records: Records, tx: Transaction) {
    FindClient(cfg, records, tx.clientId).Some?
    && tx.redirectUri in FindClient(cfg, records, tx.clientId).value.redirectUris
  }

  /** The callback of a client that no longer resolves, or not with the redirect
      URI, contacts nobody, stores no code, and ends on an error page if and only
      if its transaction has not expired: an expired one is answered to its
      redirect URI all the same. */
  lemma UnregisteredCallback(cfg: Config, records: Records, s: Store, query: string, d: DiscordReplies, draw: Bytes32,
                             now: int, state: string)
    requires FirstValue(ParseForm(cfg.lossy, query), "state") == Some(state) && |state| <= MAX_CALLBACK_STATE_LEN
    requires state in s.txs && !StillRegistered(cfg, records, s.txs[state])
    ensures var (resp, after) := Called(cfg, records, s, query, d, draw, now);
            var tx := s.txs[state];
            && after == TakeTransaction(s, state)
            && (IsRedirect(resp) <==> tx.expiresAt <= now)
            && (IsRedirect(resp) ==> resp == FailureToClient(tx.redirectUri, TemporarilyUnavailable, tx.rpState))
  {
  }

  /** The step behind it: taking an expired transaction sends the browser on. */
  lemma ExpiredTakeRedirects(cfg: Config, s: State, pid: nat, tx: Transaction, code: Option<string>,
                             error: Option<string>, now: int, i: Input)
    requires tx.discordState in s.store.txs && s.store.txs[tx.discordState] == tx && tx.expiresAt <= now
    requires InPhase(s, pid, CallbackProcess(Taking(tx.discordState, code, error, now))) && i.fault == Delivered
    ensures Step(cfg, s, Advance(pid, i)).redirects
         == s.redirects
            + [FromCallback(pid, tx, FailureToClient(tx.redirectUri, TemporarilyUnavailable, tx.rpState), now)]
  {
  }
}
