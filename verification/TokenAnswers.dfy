/** Every answer of `/token`, told from the raw body and header, the registry
    and the store: the conditions are exclusive and leave no case out. */
module TokenAnswers {
  import opened Basics
  import opened Text
  import opened Form
  import opened Params
  import opened OAuth
  import opened Client
  import opened Registry
  import opened Resolver
  import opened Code
  import opened AuthorizationStore
  import opened Util
  import opened Token

  // ---------- The request ----------

  ghost predicate WellFormed(body: string, pairs: Pairs) { |body| <= 8192 && !HasRepeated(pairs) }

  ghost predicate AsksForCode(body: string, pairs: Pairs) {
    WellFormed(body, pairs) && ("grant_type", "authorization_code") in pairs
  }

  /** The request shows this id, and this secret if any: with a header the body
      may repeat the id but not name another. */
  ghost predicate ShowsId(pairs: Pairs, header: Option<string>, id: string, secret: Option<string>) {
    match secret
    case None => header == None && ("client_id", id) in pairs
    case Some(text) =>
      && header.Some? && DecodeBasic(Trim(header.value)) == Some((id, text))
      && forall other :: ("client_id", other) in pairs ==> other == id
  }

  /** A public client needs no secret and may show none; a confidential one
      needs one that verifies. */
  ghost predicate Admits(cfg: Config, records: Records, client: ClientConfig, id: string, secret: Option<string>,
                         now: int) {
    && FindClient(cfg, records, id) == Some(client)
    && match secret
       case None => client.clientType == Public && client.authMethod == NoAuthentication
       case Some(text) =>
         && client.clientType == Confidential && client.authMethod == ClientSecretBasic
         && VerifyClientSecret(cfg, records, id, text, now)
  }

  ghost predicate IsAuthentic(cfg: Config, records: Records, pairs: Pairs, header: Option<string>, client: ClientConfig,
                              now: int) {
    exists id, secret :: ShowsId(pairs, header, id, secret) && Admits(cfg, records, client, id, secret, now)
  }

  ghost predicate Grants(pairs: Pairs, code: string, uri: string, verifier: string) {
    && ("code", code) in pairs && 1 <= |code| <= 256
    && ("redirect_uri", uri) in pairs && 1 <= |uri| <= 2048
    && ("code_verifier", verifier) in pairs && 1 <= |verifier| <= 128
  }

  // ---------- The answer ----------

  /** The token says what the record says, to the client that redeems it. */
  ghost predicate TokenFor(cfg: Config, client: ClientConfig, r: StoredCode, resp: TokenResponse, now: int) {
    && resp.TokenOk? && AccessTokenOk(cfg.sha, resp) && resp.scope == r.scope
    && resp.claims.iss == cfg.issuer && resp.claims.aud == client.clientId && resp.claims.sub == r.subject
    && resp.claims.nonce == r.nonce && resp.claims.iat == now && resp.claims.exp == now + cfg.idTokenTtl
  }

  /** The answer to a complete grant, and what it leaves of the codes: the code
      goes when it matches in full or has expired, and nothing else changes. */
  ghost predicate Redeemed(cfg: Config, s: Store, client: ClientConfig, hash: string, check: ExchangeCheck,
                           signed: bool, now: int, resp: TokenResponse, after: Store) {
    var known := hash in s.codes;
    var fits := known && FullyMatches(cfg.sha, s.codes[hash], check, now);
    && after.txs == s.txs
    && (forall h :: h in after.codes ==> h in s.codes && after.codes[h] == s.codes[h])
    && (forall h ::
          h in s.codes && h !in after.codes <==> h == hash && known && (fits || s.codes[hash].expiresAt <= now))
    && if fits && signed then TokenFor(cfg, client, s.codes[hash], resp, now)
       else resp == if fits then TokenError(500, ServerError) else TokenError(400, InvalidGrant)
  }

  /** The answer to an authenticated client. */
  ghost predicate GrantAnswer(cfg: Config, s: Store, pairs: Pairs, client: ClientConfig, signed: bool, now: int,
                              resp: TokenResponse, after: Store) {
    && ((forall code, uri, verifier :: !Grants(pairs, code, uri, verifier)) ==>
        resp == TokenError(400, InvalidRequest) && after == s)
    && (forall code, uri, verifier :: Grants(pairs, code, uri, verifier) ==>
        Redeemed(cfg, s, client, HashText(cfg.sha, code), ExchangeCheck(client.clientId, uri, verifier), signed, now,
                 resp, after))
  }

  /** The whole table. */
  ghost predicate Answer(cfg: Config, records: Records, s: Store, body: string, header: Option<string>, signed: bool,
                         now: int, resp: TokenResponse, after: Store) {
    var pairs := ParseForm(cfg.lossy, body);
    && (!WellFormed(body, pairs) || (forall g :: ("grant_type", g) !in pairs) ==>
        resp == TokenError(400, InvalidRequest) && after == s)
    && (forall g :: WellFormed(body, pairs) && ("grant_type", g) in pairs && g != "authorization_code" ==>
        resp == TokenError(400, UnsupportedGrantType) && after == s)
    && (AsksForCode(body, pairs) && (forall client :: !IsAuthentic(cfg, records, pairs, header, client, now)) ==>
        resp == TokenError(401, InvalidClient) && after == s)
    && (forall client :: AsksForCode(body, pairs) && IsAuthentic(cfg, records, pairs, header, client, now) ==>
        GrantAnswer(cfg, s, pairs, client, signed, now, resp, after))
  }

  // ---------- The proof, part by part ----------

  /** Without repetition a pair is found under its name. */
  lemma PairIsSingle(pairs: Pairs, name: string, value: string)
    requires !HasRepeated(pairs)
    ensures Single(pairs, name) == Exactly(value) <==> (name, value) in pairs
    ensures SingleOrNone(pairs, name) == Some(value) <==> (name, value) in pairs
    ensures SingleOrNone(pairs, name) == None <==> Single(pairs, name) == Absent
  {
    if (name, value) in pairs {
      var i :| 0 <= i < |pairs| && pairs[i] == (name, value);
      SingleAt(pairs, i);
    } else if i: nat :| i < |pairs| && pairs[i].0 == name {
      SingleAt(pairs, i);
      assert pairs[i] == (name, pairs[i].1);
    } else {
      NoSuchName(pairs, name);
    }
  }

  lemma EmptyHeader(h: string)
    requires Trim(h) == ""
    ensures DecodeBasic(Trim(h)) == None
  {
  }

  lemma BegunExact(cfg: Config, body: string, header: Option<string>, now: int)
    ensures var pairs, p := ParseForm(cfg.lossy, body), BeginToken(cfg.lossy, body, header, now);
            && (!WellFormed(body, pairs) || (forall g :: ("grant_type", g) !in pairs) ==> p == BadRequest())
            && (forall g :: WellFormed(body, pairs) && ("grant_type", g) in pairs && g != "authorization_code" ==>
                p == Responded(TokenError(400, UnsupportedGrantType)))
            && (AsksForCode(body, pairs) ==> p == BeginAuthentication(pairs, header, now))
  {
    var pairs := ParseForm(cfg.lossy, body);
    if WellFormed(body, pairs) {
      forall g ensures Single(pairs, "grant_type") == Exactly(g) <==> ("grant_type", g) in pairs {
        PairIsSingle(pairs, "grant_type", g);
      }
    }
  }

  lemma ShownExact(pairs: Pairs, header: Option<string>, now: int)
    requires !HasRepeated(pairs)
    ensures var p := BeginAuthentication(pairs, header, now);
            && (forall id, secret :: ShowsId(pairs, header, id, secret) ==>
                p == FindingClient(pairs, if secret.Some? then BasicCredential(id, secret.value)
                                          else BodyCredential(id), now))
            && ((forall id, secret :: !ShowsId(pairs, header, id, secret)) ==> p == INVALID_CLIENT)
  {
    forall id ensures SingleOrNone(pairs, "client_id") == Some(id) <==> ("client_id", id) in pairs {
      PairIsSingle(pairs, "client_id", id);
    }
    if header.Some? && Trim(header.value) == "" { EmptyHeader(header.value); }
    var p := BeginAuthentication(pairs, header, now);
    if p.FindingClient? {
      match p.cred {
        case BasicCredential(id, secret) => assert ShowsId(pairs, header, id, Some(secret));
        case BodyCredential(id) => assert ShowsId(pairs, header, id, None);
      }
    }
  }

  lemma AuthenticExact(cfg: Config, records: Records, pairs: Pairs, header: Option<string>, now: int)
    requires !HasRepeated(pairs)
    ensures var p := Authenticated(cfg, records, BeginAuthentication(pairs, header, now));
            && (forall client :: IsAuthentic(cfg, records, pairs, header, client, now) ==>
                p == AfterAuthentication(cfg.sha, pairs, client, now))
            && ((forall client :: !IsAuthentic(cfg, records, pairs, header, client, now)) ==> p == INVALID_CLIENT)
  {
    ShownExact(pairs, header, now);
    var p := BeginAuthentication(pairs, header, now);
    if id, secret :| ShowsId(pairs, header, id, secret) {
      AdmittedExact(cfg, records, pairs, id, secret, now);
      var q := Authenticated(cfg, records, p);
      if client :| Admits(cfg, records, client, id, secret, now) {
        assert IsAuthentic(cfg, records, pairs, header, client, now);
      }
      forall client | IsAuthentic(cfg, records, pairs, header, client, now)
        ensures q == AfterAuthentication(cfg.sha, pairs, client, now)
      {
        var i, t :| ShowsId(pairs, header, i, t) && Admits(cfg, records, client, i, t, now);
        assert (i, t) == (id, secret);
      }
    }
  }

  lemma AdmittedExact(cfg: Config, records: Records, pairs: Pairs, id: string, secret: Option<string>, now: int)
    ensures var cred := if secret.Some? then BasicCredential(id, secret.value) else BodyCredential(id);
            var q := Authenticated(cfg, records, FindingClient(pairs, cred, now));
            && (forall client :: Admits(cfg, records, client, id, secret, now) ==>
                q == AfterAuthentication(cfg.sha, pairs, client, now))
            && ((forall client :: !Admits(cfg, records, client, id, secret, now)) ==> q == INVALID_CLIENT)
  {
    var found := FindClient(cfg, records, id);
    if found.Some? && Admits(cfg, records, found.value, id, secret, now) {
      assert forall client :: Admits(cfg, records, client, id, secret, now) ==> client == found.value;
    }
  }

  lemma GrantExact(sha: Digest, pairs: Pairs, client: ClientConfig, now: int)
    requires !HasRepeated(pairs)
    ensures var p := AfterAuthentication(sha, pairs, client, now);
            && (forall code, uri, verifier :: Grants(pairs, code, uri, verifier) ==>
                p == Consuming(client, HashText(sha, code), ExchangeCheck(client.clientId, uri, verifier), now))
            && ((forall code, uri, verifier :: !Grants(pairs, code, uri, verifier)) ==> p == BadRequest())
  {
    forall name, v ensures SingleOrNone(pairs, name) == Some(v) <==> (name, v) in pairs {
      PairIsSingle(pairs, name, v);
    }
    var code, uri, verifier :=
      SingleOrNone(pairs, "code"), SingleOrNone(pairs, "redirect_uri"), SingleOrNone(pairs, "code_verifier");
    if code.Some? && uri.Some? && verifier.Some? {
      assert Grants(pairs, code.value, uri.value, verifier.value)
        <==> 1 <= |code.value| <= 256 && 1 <= |uri.value| <= 2048 && 1 <= |verifier.value| <= 128;
    }
  }

  lemma RedeemedExact(cfg: Config, s: Store, client: ClientConfig, hash: string, check: ExchangeCheck, draw: Bytes32,
                      signed: bool, now: int)
    ensures var (resp, after) := Completed(cfg, s, Consuming(client, hash, check, now), draw, signed, now);
            Redeemed(cfg, s, client, hash, check, signed, now, resp, after)
  {
    ConsumeExact(cfg.sha, s, hash, check, now);
    if hash in s.codes { SignedTokenOk(cfg, client, s.codes[hash], draw, now); }
  }

  lemma GrantAnswered(cfg: Config, s: Store, pairs: Pairs, client: ClientConfig, draw: Bytes32, signed: bool, now: int)
    requires !HasRepeated(pairs)
    ensures var p := AfterAuthentication(cfg.sha, pairs, client, now);
            var (resp, after) := Completed(cfg, s, p, draw, signed, now);
            GrantAnswer(cfg, s, pairs, client, signed, now, resp, after)
  {
    GrantExact(cfg.sha, pairs, client, now);
    forall code, uri, verifier | Grants(pairs, code, uri, verifier)
      ensures var check := ExchangeCheck(client.clientId, uri, verifier);
              var (resp, after) := Completed(cfg, s, Consuming(client, HashText(cfg.sha, code), check, now), draw,
                                             signed, now);
              Redeemed(cfg, s, client, HashText(cfg.sha, code), check, signed, now, resp, after)
    {
      RedeemedExact(cfg, s, client, HashText(cfg.sha, code), ExchangeCheck(client.clientId, uri, verifier), draw,
                    signed, now);
    }
  }

  /** From authentication on. */
  lemma AuthenticationAnswered(cfg: Config, records: Records, s: Store, pairs: Pairs, header: Option<string>,
                               draw: Bytes32, signed: bool, now: int)
    requires !HasRepeated(pairs)
    ensures var p := Authenticated(cfg, records, BeginAuthentication(pairs, header, now));
            var (resp, after) := Completed(cfg, s, p, draw, signed, now);
            && ((forall client :: !IsAuthentic(cfg, records, pairs, header, client, now)) ==>
                resp == TokenError(401, InvalidClient) && after == s)
            && (forall client :: IsAuthentic(cfg, records, pairs, header, client, now) ==>
                GrantAnswer(cfg, s, pairs, client, signed, now, resp, after))
  {
    AuthenticExact(cfg, records, pairs, header, now);
    if client :| IsAuthentic(cfg, records, pairs, header, client, now) {
      forall c | IsAuthentic(cfg, records, pairs, header, c, now)
        ensures var p := AfterAuthentication(cfg.sha, pairs, c, now);
                var (resp, after) := Completed(cfg, s, p, draw, signed, now);
                GrantAnswer(cfg, s, pairs, c, signed, now, resp, after)
      {
        GrantAnswered(cfg, s, pairs, c, draw, signed, now);
      }
    }
  }

  /** `/token` answers as the table says, for every body, header, registry and
      store. */
  lemma TokenExact(cfg: Config, records: Records, s: Store, body: string, header: Option<string>, draw: Bytes32,
                   signed: bool, now: int)
    ensures var (resp, after) := Exchanged(cfg, records, s, body, header, draw, signed, now);
            Answer(cfg, records, s, body, header, signed, now, resp, after)
  {
    var pairs := ParseForm(cfg.lossy, body);
    BegunExact(cfg, body, header, now);
    if AsksForCode(body, pairs) { AuthenticationAnswered(cfg, records, s, pairs, header, draw, signed, now); }
  }
}
