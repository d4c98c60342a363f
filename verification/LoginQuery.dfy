/** The `/authorize` query of a conforming client, and for which clients one
    exists that `/authorize` lets proceed. */
module LoginQuery {
  import opened Basics
  import opened Text
  import opened Form
  import opened Params
  import opened Client
  import opened ClientRecords
  import opened Registry
  import opened Resolver
  import opened Util
  import opened Authorize
  import opened TokenRequest
  import Pkce

  function QueryPairs(id: string, uri: string, challenge: string): Pairs {
    [("response_type", "code"), ("client_id", id), ("redirect_uri", uri), ("scope", "openid"),
     ("code_challenge", challenge), ("code_challenge_method", "S256")]
  }

  // ---------- Parameters without repetition ----------

  lemma {:induction false} ValueIsGiven(pairs: Pairs, name: string, v: string)
    requires v in Values(pairs, name)
    ensures exists i :: 0 <= i < |pairs| && pairs[i] == (name, v)
  {
    var n := |pairs| - 1;
    if pairs[n] == (name, v) {
    } else {
      ValueIsGiven(pairs[..n], name, v);
      var i :| 0 <= i < n && pairs[..n][i] == (name, v);
      assert pairs[i] == (name, v);
    }
  }

  lemma OnceEach(pairs: Pairs, name: string, limit: nat)
    requires !HasRepeated(pairs) && forall i :: 0 <= i < |pairs| ==> |pairs[i].1| <= limit
    ensures AtMostOne(pairs, name, limit)
  {
    ValuesCount(pairs, name);
    forall v | v in Values(pairs, name) ensures |v| <= limit { ValueIsGiven(pairs, name, v); }
  }

  lemma NotGiven(pairs: Pairs, name: string)
    requires forall i :: 0 <= i < |pairs| ==> pairs[i].0 != name
    ensures Values(pairs, name) == []
  {
    ValuesCount(pairs, name);
  }

  // ---------- The query proceeds ----------

  lemma QuerySingles(id: string, uri: string, challenge: string)
    ensures var pairs := QueryPairs(id, uri, challenge);
            && !HasRepeated(pairs)
            && Is(pairs, "response_type", "code") && Is(pairs, "client_id", id) && Is(pairs, "redirect_uri", uri)
            && Is(pairs, "scope", "openid") && Is(pairs, "code_challenge", challenge)
            && Is(pairs, "code_challenge_method", "S256")
  {
    var pairs := QueryPairs(id, uri, challenge);
    SingleAt(pairs, 0); SingleAt(pairs, 1); SingleAt(pairs, 2);
    SingleAt(pairs, 3); SingleAt(pairs, 4); SingleAt(pairs, 5);
    SingleIs(pairs, "response_type", "code"); SingleIs(pairs, "client_id", id); SingleIs(pairs, "redirect_uri", uri);
    SingleIs(pairs, "scope", "openid"); SingleIs(pairs, "code_challenge", challenge);
    SingleIs(pairs, "code_challenge_method", "S256");
  }

  lemma QueryOmits(id: string, uri: string, challenge: string)
    ensures var pairs := QueryPairs(id, uri, challenge);
            && Values(pairs, "state") == [] && Values(pairs, "nonce") == []
            && Values(pairs, "prompt") == [] && Values(pairs, "max_age") == []
  {
    var pairs := QueryPairs(id, uri, challenge);
    NotGiven(pairs, "state"); NotGiven(pairs, "nonce"); NotGiven(pairs, "prompt"); NotGiven(pairs, "max_age");
  }

  lemma OpenidIsOneWord()
    ensures Words("openid") == ["openid"]
  {
    WordsOfOne("openid");
  }

  /** What makes a parameter list acceptable to the protocol. */
  lemma ProtocolOkFrom(pairs: Pairs, challenge: string)
    requires !HasRepeated(pairs) && forall i :: 0 <= i < |pairs| ==> |pairs[i].1| <= MAX_PARAM_LEN
    requires Is(pairs, "response_type", "code") && Is(pairs, "scope", "openid")
    requires Is(pairs, "code_challenge", challenge) && Is(pairs, "code_challenge_method", "S256")
    requires Pkce.IsValidChallenge(challenge)
    requires Values(pairs, "state") == [] && Values(pairs, "nonce") == []
    requires Values(pairs, "prompt") == [] && Values(pairs, "max_age") == []
    ensures ProtocolOk(pairs)
  {
    forall name | name in KNOWN_PARAMETERS ensures AtMostOne(pairs, name, MAX_PARAM_LEN) {
      OnceEach(pairs, name, MAX_PARAM_LEN);
    }
    OpenidIsOneWord();
  }

  lemma QueryProceeds(client: ClientConfig, uri: string, challenge: string)
    requires uri in client.redirectUris && |uri| <= MAX_PARAM_LEN && |client.clientId| <= 128
    requires Pkce.IsValidChallenge(challenge)
    ensures var pairs := QueryPairs(client.clientId, uri, challenge);
            && Single(pairs, "client_id") == Exactly(client.clientId)
            && VerdictFor(pairs, client).Proceed?
            && VerdictFor(pairs, client).v.redirectUri == uri && VerdictFor(pairs, client).v.challenge == challenge
  {
    var pairs := QueryPairs(client.clientId, uri, challenge);
    QuerySingles(client.clientId, uri, challenge);
    QueryOmits(client.clientId, uri, challenge);
    ProtocolOkFrom(pairs, challenge);
    VerdictExact(pairs, client);
    SingleIs(pairs, "client_id", client.clientId);
    SingleIs(pairs, "redirect_uri", uri);
    SingleIs(pairs, "code_challenge", challenge);
  }

  // ---------- It fits ----------

  lemma QueryPairsOk(id: string, uri: string, challenge: string)
    requires IsString(id) && IsString(uri) && IsString(challenge)
    ensures PairsOk(QueryPairs(id, uri, challenge))
  {
    assert IsAscii("response_type") && IsAscii("code") && IsAscii("client_id") && IsAscii("redirect_uri");
    assert IsAscii("scope") && IsAscii("openid") && IsAscii("code_challenge");
    assert IsAscii("code_challenge_method") && IsAscii("S256");
    PairsOfAsciiNames(QueryPairs(id, uri, challenge));
  }

  lemma QuerySizes(id: string, uri: string, challenge: string)
    requires |id| <= 128 && |uri| <= MAX_PARAM_LEN && |challenge| <= 43
    ensures NamesLength(QueryPairs(id, uri, challenge)) <= 128 + MAX_PARAM_LEN + 43 + 88
  {
    var pairs := QueryPairs(id, uri, challenge);
    var last := pairs[4..];
    LengthOfFour(pairs);
    assert last[1..] == pairs[5..];
    assert NamesLength(last) == |last[0].0| + |last[0].1| + NamesLength(pairs[5..]);
    LengthOfOne(pairs[5..]);
  }

  /** The query a conforming client prints is read back, and is within the
      8192 bytes of `/authorize` even when fully percent-encoded. */
  lemma QueryFits(lossy: Lossy, id: string, uri: string, challenge: string)
    requires LossyOk(lossy) && IsString(id) && IsString(uri) && IsString(challenge)
    requires |id| <= 128 && |uri| <= MAX_PARAM_LEN && |challenge| <= 43
    ensures PairsOk(QueryPairs(id, uri, challenge))
    ensures |EncodePairs(QueryPairs(id, uri, challenge))| <= MAX_QUERY_LEN
    ensures ParseForm(lossy, EncodePairs(QueryPairs(id, uri, challenge))) == QueryPairs(id, uri, challenge)
  {
    QueryPairsOk(id, uri, challenge);
    EncodedLength(QueryPairs(id, uri, challenge));
    QuerySizes(id, uri, challenge);
    FormRoundTrip(lossy, QueryPairs(id, uri, challenge));
  }

  // ---------- For which clients ----------

  /** `asked` is a query with which `/authorize` lets `client` proceed. */
  ghost predicate Asked(lossy: Lossy, asked: string, client: ClientConfig) {
    && |asked| <= MAX_QUERY_LEN
    && Single(ParseForm(lossy, asked), "client_id") == Exactly(client.clientId)
    && VerdictFor(ParseForm(lossy, asked), client).Proceed?
  }

  lemma ChallengeIsText(sha: Digest, verifier: string)
    requires Pkce.IsValidVerifier(verifier)
    ensures |HashText(sha, verifier)| == 43 && IsString(HashText(sha, verifier))
    ensures Pkce.IsValidChallenge(HashText(sha, verifier))
  {
    TextOfToken(sha(verifier));
    Pkce.ChallengeOfVerifier(sha, verifier);
  }

  /** A query for a given short redirect URI and verifier. */
  lemma QueryFor(lossy: Lossy, sha: Digest, client: ClientConfig, uri: string, verifier: string) returns (asked: string)
    requires LossyOk(lossy) && IsString(client.clientId) && |client.clientId| <= 128
    requires uri in client.redirectUris && IsString(uri) && |uri| <= MAX_PARAM_LEN && Pkce.IsValidVerifier(verifier)
    ensures Asked(lossy, asked, client)
    ensures var v := VerdictFor(ParseForm(lossy, asked), client).v;
            v.redirectUri == uri && v.challenge == HashText(sha, verifier)
  {
    var challenge := HashText(sha, verifier);
    ChallengeIsText(sha, verifier);
    QueryFits(lossy, client.clientId, uri, challenge);
    QueryProceeds(client, uri, challenge);
    asked := EncodePairs(QueryPairs(client.clientId, uri, challenge));
  }

  lemma ProceedingUri(pairs: Pairs, client: ClientConfig)
    requires VerdictFor(pairs, client).Proceed?
    ensures exists u :: u in client.redirectUris && |u| <= MAX_PARAM_LEN
  {
    assert VerdictFor(pairs, client).v.redirectUri in client.redirectUris;
  }

  /** Registration does not limit the length of a redirect URI; `/authorize`
      does. So a client can be logged in to at all if and only if one of its
      registered URIs is within that limit. */
  lemma LoginPossibleExactly(lossy: Lossy, client: ClientConfig)
    requires LossyOk(lossy) && IsString(client.clientId) && |client.clientId| <= 128
    requires forall u :: u in client.redirectUris ==> IsString(u)
    ensures (exists asked :: Asked(lossy, asked, client))
      <==> (exists u :: u in client.redirectUris && |u| <= MAX_PARAM_LEN)
  {
    if asked :| Asked(lossy, asked, client) { ProceedingUri(ParseForm(lossy, asked), client); }
    if u :| u in client.redirectUris && |u| <= MAX_PARAM_LEN {
      var zero: Bytes32 := seq(32, i => 0);
      var verifier := seq(43, i => 'a');
      var asked := QueryFor(lossy, s => zero, client, u, verifier);
    }
  }

  /** The two guards do not fit together: the admin API accepts clients all of
      whose redirect URIs are longer. Such a client resolves, and no request of
      it ever proceeds. */
  lemma LongUrisNeverProceed(cfg: Config, records: Records, r: ClientRecord, pairs: Pairs)
    requires Permitted(cfg, Insert(r)) && r.clientId !in records
    requires forall u :: u in r.metadata.redirectUris ==> |u| > MAX_PARAM_LEN
    ensures FindClient(cfg, Administered(records, Insert(r)), r.clientId) == Some(ToConfig(r))
    ensures !VerdictFor(pairs, ToConfig(r)).Proceed?
  {
    if VerdictFor(pairs, ToConfig(r)).Proceed? { ProceedingUri(pairs, ToConfig(r)); }
  }

  /** There are such clients whenever the URI rule accepts a long URI. */
  lemma LongUriIsRegistered(cfg: Config, id: string, owner: string, uri: string, now: int) returns (r: ClientRecord)
    requires IsDynamicClientId(id) && Find(cfg.clients, id) == None && IsSnowflake(owner)
    requires cfg.policy(uri) && |uri| > MAX_PARAM_LEN
    ensures r.clientId == id && Permitted(cfg, Insert(r)) && r.metadata.redirectUris == [uri]
  {
    r := NewRecord(id, Metadata("a", owner, [uri]), Public, None, now);
  }
}
