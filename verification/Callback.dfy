/** The Discord callback (crates/oidc-core/src/callback.rs), cut at its awaits
    into phases; `HandleCallback` is the same code as written. */
module Callback {
  import opened Basics
  import opened Form
  import opened OAuth
  import opened Client
  import opened Registry
  import opened Resolver
  import opened Code
  import opened AuthorizationStore
  import opened Util
  import opened Authorize

  const MAX_CALLBACK_STATE_LEN := 256

  /** The first value given for `name`. */
  function FirstValue(pairs: Pairs, name: string): Option<string> {
    if pairs == [] then None
    else if pairs[0].0 == name then Some(pairs[0].1)
    else FirstValue(pairs[1..], name)
  }

  datatype CallbackResponse =
    | CodeToClient(uri: string, code: string, state: Option<string>)
    | FailureToClient(uri: string, error: ErrorCode, state: Option<string>)
    | FailurePage(status: int)

  datatype MemberReply = MemberFailure | NotMember | IsMember

  datatype CallbackPhase =
    | Taking(state: string, code: Option<string>, error: Option<string>, now: int)
    | Resolving(tx: Transaction, code: Option<string>, error: Option<string>, now: int)
    | Exchanging(tx: Transaction, client: ClientConfig, discordCode: string, now: int)
    | FetchingUser(tx: Transaction, client: ClientConfig, token: string, now: int)
    | CheckingMember(tx: Transaction, client: ClientConfig, token: string, user: string, now: int)
    | StoringCode(tx: Transaction, client: ClientConfig, token: string, user: string, draw: Bytes32,
                  record: StoredCode, now: int)
    | Answered(resp: CallbackResponse)

  function ErrorTo(tx: Transaction, error: ErrorCode): CallbackPhase {
    Answered(FailureToClient(tx.redirectUri, error, tx.rpState))
  }

  /** `sanitize_upstream_error`. */
  function Sanitize(error: string): ErrorCode {
    if error == "server_error" then ServerError
    else if error == "temporarily_unavailable" then TemporarilyUnavailable
    else if error == "invalid_request" then InvalidRequest
    else AccessDenied
  }

  /** Up to `take_transaction`. */
  function BeginCallback(lossy: Lossy, query: string, now: int): CallbackPhase {
    var pairs := ParseForm(lossy, query);
    match FirstValue(pairs, "state")
    case None => Answered(FailurePage(400))
    case Some(state) =>
      if |state| > MAX_CALLBACK_STATE_LEN then Answered(FailurePage(400))
      else Taking(state, FirstValue(pairs, "code"), FirstValue(pairs, "error"), now)
  }

  /** After `take_transaction`; `None` is a storage failure. An expired
      transaction is answered to its redirect URI without another look at the
      client. */
  function AfterTake(reply: Option<TakeResult>, code: Option<string>, error: Option<string>, now: int): CallbackPhase {
    match reply
    case None => Answered(FailurePage(500))
    case Some(Missing) => Answered(FailurePage(400))
    case Some(Stale(tx)) => ErrorTo(tx, TemporarilyUnavailable)
    case Some(Active(tx)) => Resolving(tx, code, error, now)
  }

  /** After the transaction's client is resolved again. */
  function AfterResolve(tx: Transaction, reply: FindReply, code: Option<string>, error: Option<string>,
                        now: int): CallbackPhase {
    match reply
    case RegistryFailure => Answered(FailurePage(500))
    case Resolved(None) => Answered(FailurePage(403))
    case Resolved(Some(client)) =>
      if tx.redirectUri !in client.redirectUris then Answered(FailurePage(403))
      else if error.Some? then ErrorTo(tx, Sanitize(error.value))
      else if code == None then ErrorTo(tx, InvalidRequest)
      else Exchanging(tx, client, code.value, now)
  }

  function AfterExchange(tx: Transaction, client: ClientConfig, token: Option<string>, now: int): CallbackPhase {
    if token == None then ErrorTo(tx, ServerError) else FetchingUser(tx, client, token.value, now)
  }

  /** The subject must be a non-empty run of digits. */
  function AfterUser(tx: Transaction, client: ClientConfig, token: string, user: Option<string>,
                     now: int): CallbackPhase {
    if user == None || !IsDigits(user.value) then ErrorTo(tx, ServerError)
    else CheckingMember(tx, client, token, user.value, now)
  }

  function AfterMember(sha: Digest, tx: Transaction, client: ClientConfig, token: string, user: string,
                       member: MemberReply, draw: Bytes32, now: int): CallbackPhase {
    match member
    case IsMember => StoringCode(tx, client, token, user, draw, IssueCode(sha, tx, user, draw, now), now)
    case NotMember => ErrorTo(tx, AccessDenied)
    case MemberFailure => ErrorTo(tx, ServerError)
  }

  function AfterPut(tx: Transaction, draw: Bytes32, stored: bool): CallbackPhase {
    if stored then Answered(CodeToClient(tx.redirectUri, TokenText(draw), tx.rpState)) else ErrorTo(tx, ServerError)
  }

  /** What Discord answers to the three calls of one callback: the access token
      for a code, the user of a token, and whether that user is in a guild. */
  datatype DiscordReplies = DiscordReplies(
    token: string -> Option<string>, user: string -> Option<string>, member: (string, string) -> MemberReply)

  /** The whole handler run alone, without storage faults. */
  function Called(cfg: Config, records: Records, s: Store, query: string, d: DiscordReplies, draw: Bytes32, now: int)
    : (CallbackResponse, Store)
  {
    match BeginCallback(cfg.lossy, query, now)
    case Taking(state, code, error, _) =>
      CalledAfterTake(cfg, records, TakeTransaction(s, state),
                      AfterTake(Some(TakeReply(s, state, now)), code, error, now), d, draw, now)
    case Answered(resp) => (resp, s)
    case _ => (FailurePage(500), s)
  }

  function CalledAfterTake(cfg: Config, records: Records, s: Store, p: CallbackPhase, d: DiscordReplies,
                           draw: Bytes32, now: int)
    : (CallbackResponse, Store)
  {
    match p
    case Resolving(tx, code, error, _) =>
      CalledAfterResolve(cfg, s, AfterResolve(tx, Resolved(FindClient(cfg, records, tx.clientId)), code, error, now),
                         d, draw, now)
    case Answered(resp) => (resp, s)
    case _ => (FailurePage(500), s)
  }

  /** The upstream calls in order; each reply feeds the next. */
  function Upstream(cfg: Config, p: CallbackPhase, d: DiscordReplies, draw: Bytes32): CallbackPhase {
    var exchanged := if p.Exchanging? then AfterExchange(p.tx, p.client, d.token(p.discordCode), p.now) else p;
    var fetched := if exchanged.FetchingUser? then
      AfterUser(exchanged.tx, exchanged.client, exchanged.token, d.user(exchanged.token), exchanged.now) else exchanged;
    if fetched.CheckingMember? then
      AfterMember(cfg.sha, fetched.tx, fetched.client, fetched.token, fetched.user,
                  d.member(fetched.token, cfg.guild), draw, fetched.now)
    else fetched
  }

  function CalledAfterResolve(cfg: Config, s: Store, p: CallbackPhase, d: DiscordReplies, draw: Bytes32, now: int)
    : (CallbackResponse, Store)
  {
    match Upstream(cfg, p, d, draw)
    case StoringCode(tx, _, _, _, _, record, _) =>
      (CodeToClient(tx.redirectUri, TokenText(draw), tx.rpState), PutCode(s, record))
    case Answered(resp) => (resp, s)
    case _ => (FailurePage(500), s)
  }

  // ---------- The handler as written ----------

  lemma {:induction false} FirstValueAppend(pairs: Pairs, p: (string, string), name: string)
    ensures FirstValue(pairs + [p], name)
         == if FirstValue(pairs, name).Some? then FirstValue(pairs, name) else if p.0 == name then Some(p.1) else None
  {
    if pairs != [] {
      assert (pairs + [p])[1..] == pairs[1..] + [p];
      FirstValueAppend(pairs[1..], p, name);
    }
  }

  /** The first-wins parameter loop. */
  method ReadParameters(pairs: Pairs) returns (state: Option<string>, code: Option<string>, error: Option<string>)
    ensures state == FirstValue(pairs, "state") && code == FirstValue(pairs, "code")
    ensures error == FirstValue(pairs, "error")
  {
    state, code, error := None, None, None;
    for i := 0 to |pairs|
      invariant state == FirstValue(pairs[..i], "state") && code == FirstValue(pairs[..i], "code")
      invariant error == FirstValue(pairs[..i], "error")
    {
      var (k, v) := pairs[i];
      assert pairs[..i + 1] == pairs[..i] + [(k, v)];
      FirstValueAppend(pairs[..i], (k, v), "state");
      FirstValueAppend(pairs[..i], (k, v), "code");
      FirstValueAppend(pairs[..i], (k, v), "error");
      if k == "state" {
        if state == None { state := Some(v); }
      } else if k == "code" {
        if code == None { code := Some(v); }
      } else if k == "error" {
        if error == None { error := Some(v); }
      }
    }
    assert pairs[..|pairs|] == pairs;
  }

  method FinishCallback(cfg: Config, store: InMemoryStore, entropy: EntropySource,
                        tx: Transaction, client: ClientConfig, discordCode: string, d: DiscordReplies, now: int)
    returns (resp: CallbackResponse, ghost draw: Bytes32)
    modifies store, entropy`used
    ensures (resp, store.View()) == CalledAfterResolve(cfg, old(store.View()),
                                                       Exchanging(tx, client, discordCode, now), d, draw, now)
    ensures resp.CodeToClient? ==> draw == old(entropy.Upcoming(32)) && entropy.used == old(entropy.used) + 32
    ensures !resp.CodeToClient? ==> entropy.used == old(entropy.used)
  {
    draw := seq(32, i => 0);
    var token := d.token(discordCode);
    if token == None { return FailureToClient(tx.redirectUri, ServerError, tx.rpState), draw; }
    var found := d.user(token.value);
    if found == None { return FailureToClient(tx.redirectUri, ServerError, tx.rpState), draw; }
    var user := found.value;
    if !IsDigits(user) { return FailureToClient(tx.redirectUri, ServerError, tx.rpState), draw; }
    match d.member(token.value, cfg.guild) {
      case IsMember =>
      case NotMember => return FailureToClient(tx.redirectUri, AccessDenied, tx.rpState), draw;
      case MemberFailure => return FailureToClient(tx.redirectUri, ServerError, tx.rpState), draw;
    }
    var plaintext;
    plaintext, draw := RandomToken(entropy);
    var record := StoredCode(HashText(cfg.sha, plaintext), tx.clientId, tx.redirectUri, user, tx.scope,
                             tx.nonce, tx.challenge, now, now + AUTHORIZATION_CODE_TTL_SECS);
    store.PutCodeRecord(record);
    resp := CodeToClient(tx.redirectUri, plaintext, tx.rpState);
  }

  /** `handle_callback` from the live transaction on. */
  method AnswerCallback(cfg: Config, registry: InMemoryClientRegistry, store: InMemoryStore, entropy: EntropySource,
                        tx: Transaction, code: Option<string>, error: Option<string>, d: DiscordReplies, now: int)
    returns (resp: CallbackResponse, ghost draw: Bytes32)
    modifies store, entropy`used
    ensures (resp, store.View()) == CalledAfterTake(cfg, registry.records, old(store.View()),
                                                    Resolving(tx, code, error, now), d, draw, now)
    ensures resp.CodeToClient? ==> draw == old(entropy.Upcoming(32)) && entropy.used == old(entropy.used) + 32
    ensures !resp.CodeToClient? ==> entropy.used == old(entropy.used)
  {
    draw := seq(32, i => 0);
    var client := FindClient(cfg, registry.records, tx.clientId);
    if client == None { return FailurePage(403), draw; }
    if tx.redirectUri !in client.value.redirectUris { return FailurePage(403), draw; }
    if error.Some? { return FailureToClient(tx.redirectUri, Sanitize(error.value), tx.rpState), draw; }
    if code == None { return FailureToClient(tx.redirectUri, InvalidRequest, tx.rpState), draw; }
    resp, draw := FinishCallback(cfg, store, entropy, tx, client.value, code.value, d, now);
  }

  /** `handle_callback`, run alone against the in-memory store and registry. */
  method HandleCallback(cfg: Config, registry: InMemoryClientRegistry, store: InMemoryStore, entropy: EntropySource,
                        query: string, d: DiscordReplies, now: int)
    returns (resp: CallbackResponse, ghost draw: Bytes32)
    modifies store, entropy`used
    ensures (resp, store.View()) == Called(cfg, registry.records, old(store.View()), query, d, draw, now)
    ensures resp.CodeToClient? ==> draw == old(entropy.Upcoming(32)) && entropy.used == old(entropy.used) + 32
    ensures !resp.CodeToClient? ==> entropy.used == old(entropy.used)
  {
    draw := seq(32, i => 0);
    var state, code, error := ReadParameters(ParseForm(cfg.lossy, query));
    if state == None { return FailurePage(400), draw; }
    if |state.value| > MAX_CALLBACK_STATE_LEN { return FailurePage(400), draw; }
    var taken := store.Take(state.value, now);
    if taken.Missing? { return FailurePage(400), draw; }
    var tx := taken.tx;
    if taken.Stale? { return FailureToClient(tx.redirectUri, TemporarilyUnavailable, tx.rpState), draw; }
    resp, draw := AnswerCallback(cfg, registry, store, entropy, tx, code, error, d, now);
  }
}
