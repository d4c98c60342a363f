/** `/token` (crates/oidc-core/src/token.rs), cut at its awaits into phases;
    `HandleToken` is the same code as written. */
module Token {
  import opened Basics
  import opened Text
  import opened Form
  import opened Params
  import opened OAuth
  import opened Client
  import opened Registry
  import opened Resolver
  import opened Code
  import opened AuthorizationStore
  import opened Util
  import opened Authorize
  import Base64

  const MAX_TOKEN_BODY_LEN := 8192
  const MAX_CODE_LEN := 256
  const MAX_REDIRECT_LEN := 2048
  const MAX_VERIFIER_LEN := 128

  datatype Credential = BasicCredential(id: string, secret: string) | BodyCredential(id: string)

  datatype Claims = Claims(
    iss: string, sub: string, aud: string, iat: int, exp: int, nonce: Option<string>, atHash: string)

  datatype TokenResponse =
    | TokenError(status: int, error: ErrorCode)
    | TokenOk(accessToken: string, expiresIn: int, scope: string, claims: Claims)

  datatype TokenPhase =
    | FindingClient(pairs: Pairs, cred: Credential, now: int)
    | VerifyingSecret(pairs: Pairs, client: ClientConfig, id: string, secret: string, now: int)
    | Consuming(client: ClientConfig, hash: string, check: ExchangeCheck, now: int)
    | Signing(client: ClientConfig, check: ExchangeCheck, record: StoredCode, now: int)
    | Responded(resp: TokenResponse)

  const INVALID_CLIENT := Responded(TokenError(401, InvalidClient))
  const SERVER_ERROR := Responded(TokenError(500, ServerError))

  function BadRequest(): TokenPhase { Responded(TokenError(400, InvalidRequest)) }

  /** Up to the first registry read. */
  function BeginToken(lossy: Lossy, body: string, header: Option<string>, now: int): TokenPhase {
    if |body| > MAX_TOKEN_BODY_LEN then BadRequest()
    else
      var pairs := ParseForm(lossy, body);
      if HasRepeated(pairs) then BadRequest()
      else
        match Single(pairs, "grant_type")
        case Exactly(g) =>
          if g == "authorization_code" then BeginAuthentication(pairs, header, now)
          else Responded(TokenError(400, UnsupportedGrantType))
        case _ => BadRequest()
  }

  function BeginAuthentication(pairs: Pairs, header: Option<string>, now: int): TokenPhase {
    var bodyId := SingleOrNone(pairs, "client_id");
    match header
    case Some(h) =>
      if Trim(h) == "" then INVALID_CLIENT
      else
        (match DecodeBasic(Trim(h))
         case None => INVALID_CLIENT
         case Some((id, secret)) =>
           if bodyId.Some? && bodyId.value != id then INVALID_CLIENT
           else FindingClient(pairs, BasicCredential(id, secret), now))
    case None =>
      match bodyId
      case None => INVALID_CLIENT
      case Some(id) => FindingClient(pairs, BodyCredential(id), now)
  }

  function AfterFindClient(sha: Digest, pairs: Pairs, cred: Credential, reply: FindReply, now: int): TokenPhase {
    match reply
    case RegistryFailure => SERVER_ERROR
    case Resolved(None) => INVALID_CLIENT
    case Resolved(Some(client)) =>
      match cred
      case BasicCredential(id, secret) =>
        if client.clientType != Confidential || client.authMethod != ClientSecretBasic then INVALID_CLIENT
        else VerifyingSecret(pairs, client, id, secret, now)
      case BodyCredential(_) =>
        if client.clientType != Public || client.authMethod != NoAuthentication then INVALID_CLIENT
        else AfterAuthentication(sha, pairs, client, now)
  }

  /** After `verify_client_secret`; `None` is a registry failure. */
  function AfterVerify(sha: Digest, pairs: Pairs, client: ClientConfig, verified: Option<bool>, now: int): TokenPhase {
    match verified
    case None => SERVER_ERROR
    case Some(ok) => if ok then AfterAuthentication(sha, pairs, client, now) else INVALID_CLIENT
  }

  predicate WithinLimit(v: Option<string>, limit: nat) { v.Some? && v.value != "" && |v.value| <= limit }

  /** The grant parameters of an authenticated client. */
  function AfterAuthentication(sha: Digest, pairs: Pairs, client: ClientConfig, now: int): TokenPhase {
    var code, uri, verifier :=
      SingleOrNone(pairs, "code"), SingleOrNone(pairs, "redirect_uri"), SingleOrNone(pairs, "code_verifier");
    if !WithinLimit(code, MAX_CODE_LEN) || !WithinLimit(uri, MAX_REDIRECT_LEN)
      || !WithinLimit(verifier, MAX_VERIFIER_LEN)
    then BadRequest()
    else Consuming(client, HashText(sha, code.value), ExchangeCheck(client.clientId, uri.value, verifier.value), now)
  }

  /** After `consume_authorization_code`; `None` is a storage failure. */
  function AfterConsume(client: ClientConfig, check: ExchangeCheck, reply: Option<ConsumeResult>,
                        now: int): TokenPhase {
    match reply
    case None => SERVER_ERROR
    case Some(Denied(_)) => Responded(TokenError(400, InvalidGrant))
    case Some(Consumed(record)) => Signing(client, check, record, now)
  }

  function AtHash(sha: Digest, accessToken: string): string { Base64.UrlEncode(sha(accessToken)[..16]) }

  function ClaimsFor(cfg: Config, client: ClientConfig, record: StoredCode, accessToken: string, now: int): Claims {
    Claims(cfg.issuer, record.subject, client.clientId, now, now + cfg.idTokenTtl, record.nonce,
           AtHash(cfg.sha, accessToken))
  }

  /** The access token is well formed, the ID Token's `at_hash` is the left half
      of its digest (section 3.1.3.6 of OpenID Connect Core), and it lasts as
      long as the ID Token. */
  ghost predicate AccessTokenOk(sha: Digest, resp: TokenResponse)
    requires resp.TokenOk?
  {
    && |resp.accessToken| == 43 && UrlSafeText(resp.accessToken)
    && Base64.UrlDecode(resp.claims.atHash) == Some(sha(resp.accessToken)[..16])
    && resp.expiresIn == resp.claims.exp - resp.claims.iat
  }

  lemma SignedTokenOk(cfg: Config, client: ClientConfig, record: StoredCode, draw: Bytes32, now: int)
    ensures var p := AfterSign(cfg, client, record, draw, true, now);
            p.Responded? && p.resp.TokenOk? && AccessTokenOk(cfg.sha, p.resp) && p.resp.accessToken == TokenText(draw)
  {
    TokenShape(draw);
    Base64.DecodeEncode(Base64.UrlSafe, cfg.sha(TokenText(draw))[..16]);
  }

  /** After signing with the access token drawn as `draw`. */
  function AfterSign(cfg: Config, client: ClientConfig, record: StoredCode, draw: Bytes32, signed: bool,
                     now: int): TokenPhase {
    if !signed then SERVER_ERROR
    else Responded(TokenOk(TokenText(draw), cfg.idTokenTtl, record.scope,
                           ClaimsFor(cfg, client, record, TokenText(draw), now)))
  }

  /** The authentication part run alone: both registry reads. */
  function Authenticated(cfg: Config, records: Records, p: TokenPhase): TokenPhase {
    match p
    case FindingClient(pairs, cred, now) =>
      var q := AfterFindClient(cfg.sha, pairs, cred, Resolved(FindClient(cfg, records, cred.id)), now);
      if q.VerifyingSecret? then
        AfterVerify(cfg.sha, q.pairs, q.client, Some(VerifyClientSecret(cfg, records, q.id, q.secret, now)), now)
      else q
    case _ => p
  }

  /** The exchange run alone, from the authenticated request on. */
  function Completed(cfg: Config, s: Store, p: TokenPhase, draw: Bytes32, signed: bool, now: int): (TokenResponse,
    Store) {
    match p
    case Consuming(client, hash, check, _) =>
      var after := ConsumeCode(cfg.sha, s, hash, check, now);
      (match AfterConsume(client, check, Some(ConsumeReply(cfg.sha, s, hash, check, now)), now)
       case Signing(_, _, record, _) =>
         (match AfterSign(cfg, client, record, draw, signed, now)
          case Responded(resp) => (resp, after)
          case _ => (TokenError(500, ServerError), after))
       case Responded(resp) => (resp, after)
       case _ => (TokenError(500, ServerError), after))
    case Responded(resp) => (resp, s)
    case _ => (TokenError(500, ServerError), s)
  }

  /** The whole handler run alone, without storage faults. */
  function Exchanged(cfg: Config, records: Records, s: Store, body: string, header: Option<string>,
                     draw: Bytes32, signed: bool, now: int): (TokenResponse, Store)
  {
    Completed(cfg, s, Authenticated(cfg, records, BeginToken(cfg.lossy, body, header, now)), draw, signed, now)
  }

  // ---------- The handler as written ----------

  lemma RepeatedInMap(params: ParamMap, pairs: Pairs)
    requires Collects(params, pairs)
    ensures (exists name :: name in params && |params[name]| > 1) <==> HasRepeated(pairs)
  {
    if name :| name in params && |params[name]| > 1 {
      ValuesCount(pairs, name);
    }
    if HasRepeated(pairs) {
      var i, j :| 0 <= i < j < |pairs| && pairs[i].0 == pairs[j].0;
      ValuesCount(pairs, pairs[i].0);
    }
  }

  /** The HTTP Basic branch of `authenticate_client`. */
  method AuthenticateBasic(cfg: Config, registry: InMemoryClientRegistry, bodyId: Option<string>, header: string,
                           now: int, ghost pairs: Pairs)
    returns (client: Option<ClientConfig>)
    requires bodyId == SingleOrNone(pairs, "client_id")
    ensures Authenticated(cfg, registry.records, BeginAuthentication(pairs, Some(header), now))
         == if client.Some? then AfterAuthentication(cfg.sha, pairs, client.value, now) else INVALID_CLIENT
  {
    client := None;
    if Trim(header) == "" { return; }
    var decoded := DecodeBasic(Trim(header));
    if decoded == None { return; }
    var (id, secret) := decoded.value;
    if bodyId.Some? && bodyId.value != id { return; }
    var found := FindClient(cfg, registry.records, id);
    if found == None { return; }
    if found.value.clientType != Confidential || found.value.authMethod != ClientSecretBasic { return; }
    if VerifyClientSecret(cfg, registry.records, id, secret, now) { client := found; }
  }

  /** `authenticate_client`: the client, or a denial with status 401. */
  method AuthenticateClient(cfg: Config, registry: InMemoryClientRegistry, params: ParamMap, header: Option<string>,
                            now: int, ghost pairs: Pairs)
    returns (client: Option<ClientConfig>)
    requires Collects(params, pairs)
    ensures Authenticated(cfg, registry.records, BeginAuthentication(pairs, header, now))
         == if client.Some? then AfterAuthentication(cfg.sha, pairs, client.value, now) else INVALID_CLIENT
  {
    LookupAgrees(params, pairs, "client_id");
    var bodyId := LookupOne(params, "client_id");
    if header.Some? {
      client := AuthenticateBasic(cfg, registry, bodyId, header.value, now, pairs);
      return;
    }
    client := None;
    if bodyId == None { return; }
    var found := FindClient(cfg, registry.records, bodyId.value);
    if found == None { return; }
    if found.value.clientType != Public || found.value.authMethod != NoAuthentication { return; }
    client := found;
  }

  method ReadGrant(cfg: Config, params: ParamMap, client: ClientConfig, now: int, ghost pairs: Pairs)
    returns (hash: Option<string>, check: ExchangeCheck)
    requires Collects(params, pairs)
    ensures AfterAuthentication(cfg.sha, pairs, client, now)
         == if hash.Some? then Consuming(client, hash.value, check, now) else BadRequest()
  {
    LookupAgrees(params, pairs, "code");
    LookupAgrees(params, pairs, "redirect_uri");
    LookupAgrees(params, pairs, "code_verifier");
    hash, check := None, ExchangeCheck("", "", "");
    var code := LookupOne(params, "code");
    if !WithinLimit(code, MAX_CODE_LEN) { return; }
    var uri := LookupOne(params, "redirect_uri");
    if !WithinLimit(uri, MAX_REDIRECT_LEN) { return; }
    var verifier := LookupOne(params, "code_verifier");
    if !WithinLimit(verifier, MAX_VERIFIER_LEN) { return; }
    hash := Some(HashText(cfg.sha, code.value));
    check := ExchangeCheck(client.clientId, uri.value, verifier.value);
  }

  /** The rest of `handle_token` once the client is authenticated. */
  method Redeem(cfg: Config, store: InMemoryStore, entropy: EntropySource, client: ClientConfig,
                hash: string, check: ExchangeCheck, signed: bool, now: int)
    returns (resp: TokenResponse, ghost draw: Bytes32)
    modifies store, entropy`used
    ensures (resp, store.View())
         == Completed(cfg, old(store.View()), Consuming(client, hash, check, now), draw, signed, now)
    ensures resp.TokenOk? ==> AccessTokenOk(cfg.sha, resp) && resp.accessToken == TokenText(draw)
    ensures entropy.used
         == old(entropy.used) + if ConsumeReply(cfg.sha, old(store.View()), hash, check, now).Consumed? then 32 else 0
    ensures resp.TokenOk? ==> draw == old(entropy.Upcoming(32))
  {
    draw := seq(32, i => 0);
    var reply := store.Consume(cfg.sha, hash, check, now);
    if reply.Denied? { return TokenError(400, InvalidGrant), draw; }
    var record := reply.record;
    var accessToken;
    accessToken, draw := RandomToken(entropy);
    SignedTokenOk(cfg, client, record, draw, now);
    var claims := Claims(cfg.issuer, record.subject, client.clientId, now, now + cfg.idTokenTtl, record.nonce,
                         AtHash(cfg.sha, accessToken));
    if !signed { return TokenError(500, ServerError), draw; }
    resp := TokenOk(accessToken, cfg.idTokenTtl, record.scope, claims);
  }

  /** `handle_token` after authentication has answered. */
  method AnswerClient(cfg: Config, store: InMemoryStore, entropy: EntropySource, params: ParamMap,
                      client: Option<ClientConfig>, signed: bool, now: int, ghost pairs: Pairs)
    returns (resp: TokenResponse, ghost draw: Bytes32)
    requires Collects(params, pairs)
    modifies store, entropy`used
    ensures var p := if client.Some? then AfterAuthentication(cfg.sha, pairs, client.value, now) else INVALID_CLIENT;
            (resp, store.View()) == Completed(cfg, old(store.View()), p, draw, signed, now)
    ensures resp.TokenOk? ==>
      && client.Some? && draw == old(entropy.Upcoming(32)) && entropy.used == old(entropy.used) + 32
      && AccessTokenOk(cfg.sha, resp) && resp.accessToken == TokenText(draw)
    ensures resp.TokenError? && resp.status != 500 ==> entropy.used == old(entropy.used)
  {
    draw := seq(32, i => 0);
    if client == None { return TokenError(401, InvalidClient), draw; }
    var hash, check := ReadGrant(cfg, params, client.value, now, pairs);
    if hash == None { return TokenError(400, InvalidRequest), draw; }
    resp, draw := Redeem(cfg, store, entropy, client.value, hash.value, check, signed, now);
  }

  /** `handle_token`, run alone against the in-memory store and registry;
      `signed` says whether the signer succeeds. */
  method HandleToken(cfg: Config, registry: InMemoryClientRegistry, store: InMemoryStore, entropy: EntropySource,
                     body: string, header: Option<string>, signed: bool, now: int)
    returns (resp: TokenResponse, ghost draw: Bytes32)
    modifies store, entropy`used
    ensures (resp, store.View()) == Exchanged(cfg, registry.records, old(store.View()), body, header, draw, signed, now)
    ensures resp.TokenOk? ==>
      && draw == old(entropy.Upcoming(32)) && entropy.used == old(entropy.used) + 32
      && AccessTokenOk(cfg.sha, resp) && resp.accessToken == TokenText(draw)
    ensures resp.TokenError? && resp.status != 500 ==> entropy.used == old(entropy.used)
  {
    draw := seq(32, i => 0);
    if |body| > MAX_TOKEN_BODY_LEN { return TokenError(400, InvalidRequest), draw; }
    var pairs := ParseForm(cfg.lossy, body);
    var params := Collect(pairs);
    RepeatedInMap(params, pairs);
    if exists name :: name in params && |params[name]| > 1 { return TokenError(400, InvalidRequest), draw; }
    LookupAgrees(params, pairs, "grant_type");
    match SingleIn(params, "grant_type") {
      case Exactly(g) => if g != "authorization_code" { return TokenError(400, UnsupportedGrantType), draw; }
      case _ => return TokenError(400, InvalidRequest), draw;
    }
    var client := AuthenticateClient(cfg, registry, params, header, now, pairs);
    ghost var p := if client.Some? then AfterAuthentication(cfg.sha, pairs, client.value, now) else INVALID_CLIENT;
    assert Authenticated(cfg, registry.records, BeginToken(cfg.lossy, body, header, now)) == p;
    resp, draw := AnswerClient(cfg, store, entropy, params, client, signed, now, pairs);
  }
}
