/** The token request of a conforming client, as
    crates/oidc-core/tests/support/mod.rs builds it, and how `/token` reads it. */
module TokenRequest {
  import opened Basics
  import opened Text
  import opened Form
  import opened Params
  import opened Client
  import opened Code
  import opened Token
  import opened Util
  import Pkce

  /** How the client shows who it is. A confidential client may repeat its id
      in the body. */
  datatype Presented = PublicId | BasicSecret(secret: string, idInBody: bool)

  function BodyPairs(code: string, uri: string, verifier: string, id: Option<string>): Pairs {
    [("grant_type", "authorization_code"), ("code", code), ("redirect_uri", uri), ("code_verifier", verifier)]
      + (match id case None => [] case Some(c) => [("client_id", c)])
  }

  function BodyId(id: string, p: Presented): Option<string> {
    if p.PublicId? || p.idInBody then Some(id) else None
  }

  function Header(id: string, p: Presented): Option<string>
    requires IsText(id) && (p.BasicSecret? ==> IsText(p.secret))
  {
    match p
    case PublicId => None
    case BasicSecret(secret, _) => Some(EncodeBasic(id, secret))
  }

  function CredentialOf(id: string, p: Presented): Credential {
    match p
    case PublicId => BodyCredential(id)
    case BasicSecret(secret, _) => BasicCredential(id, secret)
  }

  lemma TextOfVerifier(v: string)
    requires Pkce.IsValidVerifier(v)
    ensures IsString(v)
  {
    AsciiIsUtf8(v);
  }

  lemma TextOfToken(draw: Bytes32)
    ensures |TokenText(draw)| == 43 && IsString(TokenText(draw))
  {
    TokenShape(draw);
    var t := TokenText(draw);
    assert forall i :: 0 <= i < |t| ==> t[i] in t && (t[i] as int) < 0x80;
    AsciiIsUtf8(t);
  }

  predicate IsAscii(s: string) { forall i :: 0 <= i < |s| ==> (s[i] as int) < 0x80 }

  lemma TextOfAscii(s: string)
    requires IsAscii(s)
    ensures IsString(s)
  {
    AsciiIsUtf8(s);
  }

  lemma PairsOfAsciiNames(pairs: Pairs)
    requires forall i :: 0 <= i < |pairs| ==> IsAscii(pairs[i].0) && (IsAscii(pairs[i].1) || IsString(pairs[i].1))
    ensures PairsOk(pairs)
  {
    forall i | 0 <= i < |pairs| ensures IsString(pairs[i].0) && IsString(pairs[i].1) {
      TextOfAscii(pairs[i].0);
      if IsAscii(pairs[i].1) { TextOfAscii(pairs[i].1); }
    }
  }

  lemma BodyPairsOk(code: string, uri: string, verifier: string, id: Option<string>)
    requires IsString(code) && IsString(uri) && IsString(verifier) && (id.Some? ==> IsString(id.value))
    ensures PairsOk(BodyPairs(code, uri, verifier, id))
  {
    assert IsAscii("grant_type") && IsAscii("authorization_code") && IsAscii("code") && IsAscii("redirect_uri");
    assert IsAscii("code_verifier") && IsAscii("client_id");
    PairsOfAsciiNames(BodyPairs(code, uri, verifier, id));
  }

  function NamesLength(pairs: Pairs): nat {
    if pairs == [] then 0 else |pairs[0].0| + |pairs[0].1| + NamesLength(pairs[1..])
  }

  /** Percent-encoding at worst triples a body. */
  lemma {:induction false} EncodedLength(pairs: Pairs)
    requires PairsOk(pairs)
    ensures |EncodePairs(pairs)| <= 3 * NamesLength(pairs) + 2 * |pairs|
  {
    if |pairs| > 1 { EncodedLength(pairs[1..]); }
  }

  lemma LengthOfFour(pairs: Pairs)
    requires |pairs| >= 4
    ensures NamesLength(pairs)
      == |pairs[0].0| + |pairs[0].1| + |pairs[1].0| + |pairs[1].1| + |pairs[2].0| + |pairs[2].1|
         + |pairs[3].0| + |pairs[3].1| + NamesLength(pairs[4..])
  {
    var b, c, d := pairs[1..], pairs[2..], pairs[3..];
    assert b[1..] == c && c[1..] == d && d[1..] == pairs[4..];
    assert NamesLength(pairs) == |pairs[0].0| + |pairs[0].1| + NamesLength(b);
    assert NamesLength(b) == |b[0].0| + |b[0].1| + NamesLength(c);
    assert NamesLength(c) == |c[0].0| + |c[0].1| + NamesLength(d);
    assert NamesLength(d) == |d[0].0| + |d[0].1| + NamesLength(pairs[4..]);
  }

  lemma LengthOfOne(pairs: Pairs)
    ensures |pairs| == 1 ==> NamesLength(pairs) == |pairs[0].0| + |pairs[0].1|
  {
  }

  lemma BodySizes(code: string, uri: string, verifier: string, id: Option<string>)
    requires |code| <= MAX_CODE_LEN && |uri| <= MAX_REDIRECT_LEN && |verifier| <= MAX_VERIFIER_LEN
    requires (id.Some? ==> |id.value| <= 128)
    ensures NamesLength(BodyPairs(code, uri, verifier,
                                  id)) <= MAX_CODE_LEN + MAX_REDIRECT_LEN + MAX_VERIFIER_LEN + 128 + 71
  {
    var pairs := BodyPairs(code, uri, verifier, id);
    assert |pairs[0].0| + |pairs[0].1| + |pairs[1].0| + |pairs[2].0| + |pairs[3].0| <= 61;
    assert |pairs[4..]| == 1 ==> |pairs[4..][0].0| <= 10 && |pairs[4..][0].1| <= 128;
    LengthOfFour(pairs);
    LengthOfOne(pairs[4..]);
  }

  /** The length limits of the token endpoint fit together: with every value at
      its own limit and fully percent-encoded, the body is within 8192 bytes. */
  lemma BodyFits(code: string, uri: string, verifier: string, id: Option<string>)
    requires IsString(code) && IsString(uri) && IsString(verifier) && (id.Some? ==> IsString(id.value))
    requires |code| <= MAX_CODE_LEN && |uri| <= MAX_REDIRECT_LEN && |verifier| <= MAX_VERIFIER_LEN
    requires (id.Some? ==> |id.value| <= 128)
    ensures PairsOk(BodyPairs(code, uri, verifier, id))
    ensures |EncodePairs(BodyPairs(code, uri, verifier, id))| <= MAX_TOKEN_BODY_LEN
  {
    BodyPairsOk(code, uri, verifier, id);
    EncodedLength(BodyPairs(code, uri, verifier, id));
    BodySizes(code, uri, verifier, id);
  }

  /** A body that asks for a token with these values; the order of its
      parameters and any others are free. */
  ghost predicate Asks(lossy: Lossy, body: string, code: string, uri: string, verifier: string, id: Option<string>) {
    var pairs := ParseForm(lossy, body);
    && |body| <= MAX_TOKEN_BODY_LEN && !HasRepeated(pairs)
    && Single(pairs, "grant_type") == Exactly("authorization_code") && SingleOrNone(pairs, "client_id") == id
    && SingleOrNone(pairs, "code") == Some(code) && SingleOrNone(pairs, "redirect_uri") == Some(uri)
    && SingleOrNone(pairs, "code_verifier") == Some(verifier)
  }

  lemma BodySingles(code: string, uri: string, verifier: string, id: Option<string>)
    ensures var pairs := BodyPairs(code, uri, verifier, id);
            && !HasRepeated(pairs)
            && Single(pairs, "grant_type") == Exactly("authorization_code") && SingleOrNone(pairs, "client_id") == id
            && SingleOrNone(pairs, "code") == Some(code) && SingleOrNone(pairs, "redirect_uri") == Some(uri)
            && SingleOrNone(pairs, "code_verifier") == Some(verifier)
  {
    var pairs := BodyPairs(code, uri, verifier, id);
    SingleAt(pairs, 0); SingleAt(pairs, 1); SingleAt(pairs, 2); SingleAt(pairs, 3);
    if id.Some? { SingleAt(pairs, 4); } else { NoSuchName(pairs, "client_id"); }
  }

  /** The body a conforming client sends asks, whatever characters its redirect
      URI and id hold: no guard on the way refuses it. */
  lemma ConformingBodyAsks(lossy: Lossy, code: string, uri: string, verifier: string, id: Option<string>)
    requires LossyOk(lossy)
    requires IsString(code) && IsString(uri) && IsString(verifier) && (id.Some? ==> IsString(id.value))
    requires |code| <= MAX_CODE_LEN && |uri| <= MAX_REDIRECT_LEN && |verifier| <= MAX_VERIFIER_LEN
    requires (id.Some? ==> |id.value| <= 128)
    ensures PairsOk(BodyPairs(code, uri, verifier, id))
    ensures Asks(lossy, EncodePairs(BodyPairs(code, uri, verifier, id)), code, uri, verifier, id)
  {
    BodyFits(code, uri, verifier, id);
    FormRoundTrip(lossy, BodyPairs(code, uri, verifier, id));
    BodySingles(code, uri, verifier, id);
  }

  /** The header, or its absence, presents these credentials. */
  predicate Shows(header: Option<string>, id: string, p: Presented) {
    match p
    case PublicId => header == None
    case BasicSecret(secret, _) =>
      header.Some? && Trim(header.value) != "" && DecodeBasic(Trim(header.value)) == Some((id, secret))
  }

  /** A conforming client's header does. */
  lemma ConformingHeaderShows(id: string, p: Presented)
    requires IsString(id) && (p.BasicSecret? ==> IsString(p.secret))
    ensures Shows(Header(id, p), id, p)
  {
    if p.BasicSecret? { BasicRoundTrip(id, p.secret); }
  }

  /** A request with such a body and header is read as it was meant, up to the
      first registry read. */
  lemma RequestIsRead(lossy: Lossy, body: string, header: Option<string>, code: string, uri: string, verifier: string,
                      id: string, p: Presented, now: int)
    requires Asks(lossy, body, code, uri, verifier, BodyId(id, p)) && Shows(header, id, p)
    ensures BeginToken(lossy, body, header, now) == FindingClient(ParseForm(lossy, body), CredentialOf(id, p), now)
  {
  }

  /** What a conforming client prints as its body. */
  ghost function PrintedBody(code: string, uri: string, verifier: string, id: Option<string>): string {
    var pairs := BodyPairs(code, uri, verifier, id);
    if PairsOk(pairs) then EncodePairs(pairs) else ""
  }

  lemma PrintedBodyAsks(lossy: Lossy, draw: Bytes32, uri: string, verifier: string, id: string, p: Presented)
    requires LossyOk(lossy) && IsString(uri) && IsString(id) && Pkce.IsValidVerifier(verifier)
    requires |uri| <= MAX_REDIRECT_LEN && |id| <= 128
    ensures Asks(lossy, PrintedBody(TokenText(draw), uri, verifier, BodyId(id, p)), TokenText(draw), uri, verifier,
                 BodyId(id, p))
  {
    TextOfToken(draw);
    TextOfVerifier(verifier);
    ConformingBodyAsks(lossy, TokenText(draw), uri, verifier, BodyId(id, p));
  }

  /** A well-formed grant reaches the store as presented. */
  lemma GrantIsRead(sha: Digest, lossy: Lossy, body: string, code: string, uri: string, verifier: string,
                    id: Option<string>, client: ClientConfig, now: int)
    requires Asks(lossy, body, code, uri, verifier, id)
    requires 1 <= |code| <= MAX_CODE_LEN && 1 <= |uri| <= MAX_REDIRECT_LEN && Pkce.IsValidVerifier(verifier)
    ensures AfterAuthentication(sha, ParseForm(lossy, body), client, now)
         == Consuming(client, HashText(sha, code), ExchangeCheck(client.clientId, uri, verifier), now)
  {
  }
}
