/** Every answer of `/authorize`, told from the raw query, the registry and the
    drawn tokens: each error code holds exactly under its condition. */
module AuthorizeAnswers {
  import opened Basics
  import opened Text
  import opened Form
  import opened Params
  import opened OAuth
  import opened Client
  import opened Registry
  import opened Resolver
  import opened Code
  import opened AuthorizationStore
  import opened Util
  import opened Authorize

  // ---------- Which fault ----------

  ghost predicate Prompts(pairs: Pairs, word: string) { exists p :: Is(pairs, "prompt", p) && word in Words(p) }

  /** The one `prompt` is the word `none` with another word. */
  ghost predicate NoneWithOthers(pairs: Pairs) {
    exists p :: Is(pairs, "prompt", p) && "none" in Words(p) && |Words(p)| > 1
  }

  /** The challenge is there, and neither `state` nor `nonce` is too long. */
  ghost predicate BindingsOk(pairs: Pairs) {
    ChallengeGiven(pairs) && AtMostOne(pairs, "state", 1024) && AtMostOne(pairs, "nonce", 1024)
  }

  ghost predicate Ages(pairs: Pairs, valid: bool) { exists a :: Is(pairs, "max_age", a) && ParsesU64(a) == valid }

  /** What is looked at, as facts about the raw parameter list. */
  datatype Facts = Facts(
    knownOnce: bool, typeGiven: bool, typeIsCode: bool, hasOpenid: bool, bindingsOk: bool,
    noneWithOthers: bool, mustAsk: bool, mustSelect: bool, aged: bool, misaged: bool)

  ghost function FactsOf(pairs: Pairs): Facts {
    Facts(KnownAtMostOnce(pairs), Values(pairs, "response_type") != [], Is(pairs, "response_type", "code"),
          ScopeGiven(pairs), BindingsOk(pairs), NoneWithOthers(pairs),
          Prompts(pairs, "none") || Prompts(pairs, "login"), Prompts(pairs, "select_account"),
          Ages(pairs, true), Ages(pairs, false))
  }

  /** All is in order but perhaps `prompt` and `max_age`. */
  predicate Ordinary(f: Facts) { f.knownOnce && f.typeIsCode && f.hasOpenid && f.bindingsOk }

  /** The facts each error code stands for: earlier faults hide later ones. */
  predicate IsFault(f: Facts, code: ErrorCode) {
    match code
    case UnsupportedResponseType => f.knownOnce && f.typeGiven && !f.typeIsCode
    case InvalidScope => f.knownOnce && f.typeIsCode && !f.hasOpenid
    case AccountSelectionRequired => Ordinary(f) && f.mustSelect && !f.mustAsk
    case LoginRequired => Ordinary(f) && !f.noneWithOthers && (f.mustAsk || (!f.mustSelect && f.aged))
    case InvalidRequest =>
      || !f.knownOnce || !f.typeGiven || (f.typeIsCode && f.hasOpenid && !f.bindingsOk)
      || (Ordinary(f) && f.noneWithOthers) || (Ordinary(f) && !f.mustAsk && !f.mustSelect && f.misaged)
    case _ => false
  }

  /** The order in which the faults are met. */
  function FirstFault(f: Facts): Option<ErrorCode> {
    if !f.knownOnce || !f.typeGiven then Some(InvalidRequest)
    else if !f.typeIsCode then Some(UnsupportedResponseType)
    else if !f.hasOpenid then Some(InvalidScope)
    else if !f.bindingsOk || f.noneWithOthers then Some(InvalidRequest)
    else if f.mustAsk then Some(LoginRequired)
    else if f.mustSelect then Some(AccountSelectionRequired)
    else if f.aged then Some(LoginRequired)
    else if f.misaged then Some(InvalidRequest)
    else None
  }

  predicate AreConsistent(f: Facts) {
    (f.typeIsCode ==> f.typeGiven) && (f.noneWithOthers ==> f.mustAsk) && !(f.aged && f.misaged)
  }

  lemma PromptExact(pairs: Pairs, word: string)
    ensures Prompts(pairs, word) <==> word in PromptWords(pairs)
    ensures NoneWithOthers(pairs) <==> "none" in PromptWords(pairs) && |PromptWords(pairs)| > 1
  {
    forall p ensures SingleOrNone(pairs, "prompt") == Some(p) <==> Is(pairs, "prompt", p) {
      SingleIs(pairs, "prompt", p);
    }
  }

  lemma PromptFaults(pairs: Pairs)
    ensures PromptFault(PromptWords(pairs)) ==
      if NoneWithOthers(pairs) then Some(InvalidRequest)
      else if Prompts(pairs, "none") || Prompts(pairs, "login") then Some(LoginRequired)
      else if Prompts(pairs, "select_account") then Some(AccountSelectionRequired)
      else None
    ensures NoneWithOthers(pairs) ==> Prompts(pairs, "none")
  {
    PromptExact(pairs, "none");
    PromptExact(pairs, "login");
    PromptExact(pairs, "select_account");
  }

  lemma AgeExact(pairs: Pairs)
    ensures MaxAgeFault(pairs) ==
      if Ages(pairs, true) then Some(LoginRequired) else if Ages(pairs, false) then Some(InvalidRequest) else None
    ensures !(Ages(pairs, true) && Ages(pairs, false))
  {
    forall a ensures SingleOrNone(pairs, "max_age") == Some(a) <==> Is(pairs, "max_age", a) {
      SingleIs(pairs, "max_age", a);
    }
  }

  lemma TypeExact(pairs: Pairs)
    requires |Values(pairs, "response_type")| <= 1
    ensures ResponseTypeFault(pairs) ==
      if Values(pairs, "response_type") == [] then Some(InvalidRequest)
      else if Is(pairs, "response_type", "code") then None
      else Some(UnsupportedResponseType)
  {
    forall t ensures Single(pairs, "response_type") == Exactly(t) <==> Is(pairs, "response_type", t) {
      SingleIs(pairs, "response_type", t);
    }
  }

  lemma ScopeExact(pairs: Pairs)
    requires AtMostOne(pairs, "scope", MAX_PARAM_LEN)
    ensures ScopeFault(pairs) == if ScopeGiven(pairs) then None else Some(InvalidScope)
  {
    ScopeFaultExact(pairs);
  }

  /** The checks between the scope and the prompt report one code. */
  function BindingsFault(pairs: Pairs): Option<ErrorCode> {
    if ChallengeFault(pairs).Some? then ChallengeFault(pairs)
    else if TooLong(SingleOrNone(pairs, "nonce"), MAX_STATE_LEN) then Some(InvalidRequest)
    else if TooLong(SingleOrNone(pairs, "state"), MAX_STATE_LEN) then Some(InvalidRequest)
    else None
  }

  lemma BindingsExact(pairs: Pairs)
    requires AtMostOne(pairs, "state", MAX_PARAM_LEN) && AtMostOne(pairs, "nonce", MAX_PARAM_LEN)
    ensures BindingsFault(pairs) == if BindingsOk(pairs) then None else Some(InvalidRequest)
  {
    ChallengeFaultExact(pairs);
    NotTooLong(pairs, "state", MAX_STATE_LEN);
    NotTooLong(pairs, "nonce", MAX_STATE_LEN);
  }

  lemma FaultInOrder(pairs: Pairs)
    ensures ProtocolFault(pairs) ==
      if SomeBadParameter(pairs) then Some(InvalidRequest)
      else if ResponseTypeFault(pairs).Some? then ResponseTypeFault(pairs)
      else if ScopeFault(pairs).Some? then ScopeFault(pairs)
      else if BindingsFault(pairs).Some? then BindingsFault(pairs)
      else if PromptFault(PromptWords(pairs)).Some? then PromptFault(PromptWords(pairs))
      else MaxAgeFault(pairs)
  {
  }

  lemma KnownLimits(pairs: Pairs)
    requires KnownAtMostOnce(pairs)
    ensures |Values(pairs, "response_type")| <= 1 && AtMostOne(pairs, "scope", MAX_PARAM_LEN)
    ensures AtMostOne(pairs, "state", MAX_PARAM_LEN) && AtMostOne(pairs, "nonce", MAX_PARAM_LEN)
  {
    KnownNames();
  }

  lemma FactsDecide(pairs: Pairs)
    ensures ProtocolFault(pairs) == FirstFault(FactsOf(pairs))
    ensures AreConsistent(FactsOf(pairs))
  {
    FaultInOrder(pairs);
    SomeBadParameterExact(pairs);
    PromptFaults(pairs);
    AgeExact(pairs);
    if KnownAtMostOnce(pairs) {
      KnownLimits(pairs);
      TypeExact(pairs);
      ScopeExact(pairs);
      BindingsExact(pairs);
    }
  }

  lemma FaultTable(f: Facts, code: ErrorCode)
    requires AreConsistent(f)
    ensures FirstFault(f) == Some(code) <==> IsFault(f, code)
  {
  }

  /** The fault of every parameter list, and none exactly if it is in order. */
  lemma FaultExact(pairs: Pairs, code: ErrorCode)
    ensures ProtocolFault(pairs) == Some(code) <==> IsFault(FactsOf(pairs), code)
    ensures ProtocolFault(pairs) == None <==> ProtocolOk(pairs)
  {
    FactsDecide(pairs);
    FaultTable(FactsOf(pairs), code);
    ProtocolFaultExact(pairs);
  }

  // ---------- The answer ----------

  /** The query names, once, a client that resolves and one of its redirect URIs. */
  ghost predicate Reaches(cfg: Config, records: Records, query: string, client: ClientConfig, uri: string) {
    var pairs := ParseForm(cfg.lossy, query);
    && |query| <= 8192 && |uri| <= 2048 && Is(pairs, "redirect_uri", uri) && uri in client.redirectUris
    && exists id :: |id| <= 2048 && Is(pairs, "client_id", id) && FindClient(cfg, records, id) == Some(client)
  }

  /** The scope is asked for and allowed. */
  ghost predicate MayHave(pairs: Pairs, client: ClientConfig, w: string) {
    w in client.allowedScopes && exists scope :: Is(pairs, "scope", scope) && w in Words(scope)
  }

  /** What is stored for a request that goes on: a transaction under the second
      drawn token, with the request's parameters. */
  ghost predicate IsTransactionFor(pairs: Pairs, client: ClientConfig, uri: string, idDraw: Bytes32,
                                   stateDraw: Bytes32, now: int, tx: Transaction) {
    && tx.id == TokenText(idDraw) && tx.discordState == TokenText(stateDraw)
    && tx.clientId == client.clientId && tx.redirectUri == uri && Is(pairs, "code_challenge", tx.challenge)
    && tx.rpState == SingleOrNone(pairs, "state") && tx.nonce == SingleOrNone(pairs, "nonce")
    && (forall w :: w in Words(tx.scope) <==> MayHave(pairs, client, w))
    && tx.createdAt == now && tx.expiresAt == now + 600
  }

  /** The answer to a request that reaches a client. */
  ghost predicate Answer(pairs: Pairs, client: ClientConfig, uri: string, s: Store, idDraw: Bytes32,
                         stateDraw: Bytes32, now: int, resp: Response, after: Store) {
    if ProtocolOk(pairs) then
      && resp == ToDiscord(TokenText(stateDraw), AsksConsent(pairs))
      && after.codes == s.codes
      && exists tx :: IsTransactionFor(pairs, client, uri, idDraw, stateDraw, now, tx)
                      && after.txs == s.txs[tx.discordState := tx]
    else
      && resp.ErrorToClient? && IsFault(FactsOf(pairs), resp.code) && resp.uri == uri
      && resp.state == SingleOrNone(pairs, "state") && after == s
  }

  lemma ScopeOfTransaction(pairs: Pairs, client: ClientConfig)
    requires ProtocolOk(pairs)
    ensures var granted := Join(Granted(Words(ValueOf(pairs, "scope")), client.allowedScopes), " ");
            forall w :: w in Words(granted) <==> MayHave(pairs, client, w)
  {
    var scope := ValueOf(pairs, "scope");
    forall v ensures Single(pairs, "scope") == Exactly(v) <==> Is(pairs, "scope", v) { SingleIs(pairs, "scope", v); }
    GrantedExact(Words(scope), client.allowedScopes);
    GrantResplits(scope, client.allowedScopes);
  }

  lemma TransactionExact(pairs: Pairs, client: ClientConfig, uri: string, idDraw: Bytes32, stateDraw: Bytes32, now: int)
    requires ProtocolOk(pairs) && Is(pairs, "redirect_uri", uri)
    ensures IsTransactionFor(pairs, client, uri, idDraw, stateDraw, now,
                             TransactionFor(Accepted(pairs, client), idDraw, stateDraw, now))
  {
    ScopeOfTransaction(pairs, client);
    SingleIs(pairs, "redirect_uri", uri);
    SingleIs(pairs, "code_challenge", ValueOf(pairs, "code_challenge"));
  }

  lemma VerdictOnReached(pairs: Pairs, client: ClientConfig, uri: string)
    requires Is(pairs, "redirect_uri", uri) && |uri| <= 2048 && uri in client.redirectUris
    ensures ProtocolOk(pairs) ==> VerdictFor(pairs, client) == Proceed(Accepted(pairs, client))
    ensures !ProtocolOk(pairs) ==>
      && ProtocolFault(pairs).Some? && IsFault(FactsOf(pairs), ProtocolFault(pairs).value)
      && VerdictFor(pairs, client) == RedirectError(uri, ProtocolFault(pairs).value, SingleOrNone(pairs, "state"))
  {
    SingleIs(pairs, "redirect_uri", uri);
    FaultExact(pairs, if ProtocolFault(pairs).Some? then ProtocolFault(pairs).value else InvalidRequest);
  }

  /** The rest of the handler once the client is looked up. */
  function Done(p: Phase, s: Store): (Response, Store) {
    match p
    case Storing(_, _, v, tx, _) => (ToDiscord(tx.discordState, v.consent), PutTransaction(s, tx))
    case Finished(resp) => (resp, s)
    case Finding(_, _, _) => (Page(500), s)
  }

  lemma ReachedIsFound(cfg: Config, records: Records, s: Store, query: string, client: ClientConfig, uri: string,
                       idDraw: Bytes32, stateDraw: Bytes32, now: int)
    requires Reaches(cfg, records, query, client, uri)
    ensures Handled(cfg, records, s, query, idDraw, stateDraw, now)
         == Done(AfterFind(ParseForm(cfg.lossy, query), Resolved(Some(client)), idDraw, stateDraw, now), s)
  {
    var pairs := ParseForm(cfg.lossy, query);
    var id :| |id| <= 2048 && Is(pairs, "client_id", id) && FindClient(cfg, records, id) == Some(client);
    SingleIs(pairs, "client_id", id);
  }

  lemma AcceptedAnswers(pairs: Pairs, client: ClientConfig, uri: string, s: Store, idDraw: Bytes32, stateDraw: Bytes32,
                        now: int)
    requires Is(pairs, "redirect_uri", uri) && ProtocolOk(pairs)
    requires VerdictFor(pairs, client) == Proceed(Accepted(pairs, client))
    ensures var v := Accepted(pairs, client);
            var tx := TransactionFor(v, idDraw, stateDraw, now);
            Answer(pairs, client, uri, s, idDraw, stateDraw, now, ToDiscord(tx.discordState, v.consent),
                   PutTransaction(s, tx))
  {
    TransactionExact(pairs, client, uri, idDraw, stateDraw, now);
    ProceedCarries(pairs, client);
  }

  lemma FoundAnswers(pairs: Pairs, client: ClientConfig, uri: string, s: Store, idDraw: Bytes32, stateDraw: Bytes32,
                     now: int)
    requires Is(pairs, "redirect_uri", uri) && |uri| <= 2048 && uri in client.redirectUris
    ensures var (resp, after) := Done(AfterFind(pairs, Resolved(Some(client)), idDraw, stateDraw, now), s);
            Answer(pairs, client, uri, s, idDraw, stateDraw, now, resp, after)
  {
    VerdictOnReached(pairs, client, uri);
    if ProtocolOk(pairs) { AcceptedAnswers(pairs, client, uri, s, idDraw, stateDraw, now); }
  }

  /** A request that reaches a client is answered to it, or sent to Discord. */
  lemma AuthorizeExact(cfg: Config, records: Records, s: Store, query: string, client: ClientConfig, uri: string,
                       idDraw: Bytes32, stateDraw: Bytes32, now: int)
    requires Reaches(cfg, records, query, client, uri)
    ensures var (resp, after) := Handled(cfg, records, s, query, idDraw, stateDraw, now);
            Answer(ParseForm(cfg.lossy, query), client, uri, s, idDraw, stateDraw, now, resp, after)
  {
    ReachedIsFound(cfg, records, s, query, client, uri, idDraw, stateDraw, now);
    FoundAnswers(ParseForm(cfg.lossy, query), client, uri, s, idDraw, stateDraw, now);
  }

  /** And any other request gets the error page and changes nothing. */
  lemma UnreachedIsRefused(cfg: Config, records: Records, s: Store, query: string, idDraw: Bytes32, stateDraw: Bytes32,
                           now: int)
    requires forall client, uri :: !Reaches(cfg, records, query, client, uri)
    ensures Handled(cfg, records, s, query, idDraw, stateDraw, now) == (Page(400), s)
  {
    var pairs := ParseForm(cfg.lossy, query);
    var id, uri := ValueOf(pairs, "client_id"), ValueOf(pairs, "redirect_uri");
    SingleIs(pairs, "client_id", id);
    SingleIs(pairs, "redirect_uri", uri);
    if |query| <= 8192 && Is(pairs, "client_id", id) && |id| <= 2048 && FindClient(cfg, records, id).Some? {
      assert !Reaches(cfg, records, query, FindClient(cfg, records, id).value, uri);
    }
  }
}
