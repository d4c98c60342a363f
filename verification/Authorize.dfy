/** `/authorize` (crates/oidc-core/src/authorize.rs). The handler is cut at its
    two awaits into phases; `ValidateRequest` and `HandleAuthorize` are the
    same code as written, proved against them. */
module Authorize {
  import opened Basics
  import opened Text
  import opened Form
  import opened Params
  import opened OAuth
  import opened Client
  import opened Registry
  import opened Resolver
  import opened Code
  import opened AuthorizationStore
  import opened Util
  import Pkce

  const MAX_QUERY_LEN := 8192
  const MAX_PARAM_LEN := 2048
  const MAX_STATE_LEN := 1024

  const KNOWN_PARAMETERS: seq<string> := [
    "response_type", "client_id", "redirect_uri", "scope", "state", "nonce",
    "code_challenge", "code_challenge_method", "prompt", "max_age"]

  datatype Validated = Validated(
    clientId: string, redirectUri: string, scope: string, rpState: Option<string>,
    nonce: Option<string>, challenge: string, consent: bool)

  datatype Verdict =
    | Proceed(v: Validated)
    | RedirectError(uri: string, code: ErrorCode, state: Option<string>)
    | RenderError(status: int)

  // ---------- Scopes ----------

  /** The granted scopes: requested ones that are allowed, each once. */
  function Granted(requested: seq<string>, allowed: seq<string>): seq<string> {
    if requested == [] then []
    else
      var n := |requested| - 1;
      var g := Granted(requested[..n], allowed);
      if requested[n] in allowed && requested[n] !in g then g + [requested[n]] else g
  }

  function FirstIndex(ws: seq<string>, w: string): (i: nat)
    ensures i <= |ws| && (i < |ws| ==> ws[i] == w) && forall j :: 0 <= j < i ==> ws[j] != w
  {
    if ws == [] || ws[0] == w then 0 else 1 + FirstIndex(ws[1..], w)
  }

  /** The grant is exactly the intersection, without duplicates, in the order
      of first request. */
  lemma {:induction false} GrantedExact(requested: seq<string>, allowed: seq<string>)
    ensures forall w :: w in Granted(requested, allowed) <==> w in requested && w in allowed
    ensures forall i, j :: 0 <= i < j < |Granted(requested, allowed)| ==>
      FirstIndex(requested, Granted(requested, allowed)[i]) < FirstIndex(requested, Granted(requested, allowed)[j])
  {
    if requested != [] {
      var n := |requested| - 1;
      var front, g := requested[..n], Granted(requested[..n], allowed);
      GrantedExact(front, allowed);
      assert requested == front + [requested[n]];
      forall w | w in front ensures FirstIndex(requested, w) == FirstIndex(front, w) < n {
        var k := FirstIndex(front, w);
        assert k < n && requested[k] == w && forall j :: 0 <= j < k ==> requested[j] == front[j];
      }
      assert forall i :: 0 <= i < |g| ==> g[i] in g;
      if requested[n] in allowed && requested[n] !in g {
        assert FirstIndex(requested, requested[n]) == n;
      }
    }
  }

  /** The scope string of the grant splits back into the grant. */
  lemma GrantResplits(scope: string, allowed: seq<string>)
    ensures Words(Join(Granted(Words(scope), allowed), " ")) == Granted(Words(scope), allowed)
  {
    GrantedExact(Words(scope), allowed);
    WordsAreWords(scope);
    WordsOfJoin(Granted(Words(scope), allowed));
  }

  // ---------- The verdict ----------

  function DecimalValue(s: string): nat
    requires forall i :: 0 <= i < |s| ==> '0' <= s[i] <= '9'
  {
    if s == "" then 0 else DecimalValue(s[..|s| - 1]) * 10 + (s[|s| - 1] as int - 48)
  }

  /** `str::parse::<u64>`. */
  predicate ParsesU64(s: string) {
    var digits := if s != "" && s[0] == '+' then s[1..] else s;
    IsDigits(digits) && DecimalValue(digits) < 0x1_0000_0000_0000_0000
  }

  function PromptWords(pairs: Pairs): seq<string> {
    match SingleOrNone(pairs, "prompt")
    case None => []
    case Some(p) => Words(p)
  }

  predicate BadKnownParameter(pairs: Pairs, name: string) {
    var vs := Values(pairs, name);
    |vs| > 1 || exists i :: 0 <= i < |vs| && |vs[i]| > MAX_PARAM_LEN
  }

  /** The known-parameter loop: some known parameter is repeated or too long. */
  predicate SomeBadParameter(pairs: Pairs) {
    exists name :: name in KNOWN_PARAMETERS && BadKnownParameter(pairs, name)
  }

  predicate TooLong(v: Option<string>, limit: nat) { v.Some? && |v.value| > limit }

  function ScopeFault(pairs: Pairs): Option<ErrorCode> {
    match Single(pairs, "scope")
    case Exactly(s) => if |s| > MAX_PARAM_LEN || "openid" !in Words(s) then Some(InvalidScope) else None
    case _ => Some(InvalidScope)
  }

  function ResponseTypeFault(pairs: Pairs): Option<ErrorCode> {
    match Single(pairs, "response_type")
    case Exactly(t) => if t == "code" then None else Some(UnsupportedResponseType)
    case _ => Some(InvalidRequest)
  }

  function ChallengeFault(pairs: Pairs): Option<ErrorCode> {
    if Single(pairs, "code_challenge_method") != Exactly(Pkce.REQUIRED_CHALLENGE_METHOD) then Some(InvalidRequest)
    else
      match Single(pairs, "code_challenge")
      case Exactly(c) => if Pkce.IsValidChallenge(c) then None else Some(InvalidRequest)
      case _ => Some(InvalidRequest)
  }

  function PromptFault(prompt: seq<string>): Option<ErrorCode> {
    if "none" in prompt && |prompt| > 1 then Some(InvalidRequest)
    else if "none" in prompt || "login" in prompt then Some(LoginRequired)
    else if "select_account" in prompt then Some(AccountSelectionRequired)
    else None
  }

  function MaxAgeFault(pairs: Pairs): Option<ErrorCode> {
    match SingleOrNone(pairs, "max_age")
    case None => None
    case Some(age) => if ParsesU64(age) then Some(LoginRequired) else Some(InvalidRequest)
  }

  /** The first protocol fault after the redirect URI is known to be registered. */
  function ProtocolFault(pairs: Pairs): Option<ErrorCode> {
    if SomeBadParameter(pairs) then Some(InvalidRequest)
    else if ResponseTypeFault(pairs).Some? then ResponseTypeFault(pairs)
    else if ScopeFault(pairs).Some? then ScopeFault(pairs)
    else if ChallengeFault(pairs).Some? then ChallengeFault(pairs)
    else if TooLong(SingleOrNone(pairs, "nonce"), MAX_STATE_LEN) then Some(InvalidRequest)
    else if TooLong(SingleOrNone(pairs, "state"), MAX_STATE_LEN) then Some(InvalidRequest)
    else if PromptFault(PromptWords(pairs)).Some? then PromptFault(PromptWords(pairs))
    else MaxAgeFault(pairs)
  }

  function ValueOf(pairs: Pairs, name: string): string {
    match Single(pairs, name)
    case Exactly(v) => v
    case _ => ""
  }

  function Accepted(pairs: Pairs, client: ClientConfig): Validated {
    Validated(client.clientId, ValueOf(pairs, "redirect_uri"),
              Join(Granted(Words(ValueOf(pairs, "scope")), client.allowedScopes), " "),
              SingleOrNone(pairs, "state"), SingleOrNone(pairs, "nonce"),
              ValueOf(pairs, "code_challenge"), "consent" in PromptWords(pairs))
  }

  /** The verdict on the parameters once the client is resolved. */
  function VerdictFor(pairs: Pairs, client: ClientConfig): Verdict {
    match Single(pairs, "redirect_uri")
    case Exactly(uri) =>
      if |uri| > MAX_PARAM_LEN || uri !in client.redirectUris then RenderError(400)
      else
        (match ProtocolFault(pairs)
         case Some(code) => RedirectError(uri, code, SingleOrNone(pairs, "state"))
         case None => Proceed(Accepted(pairs, client)))
    case _ => RenderError(400)
  }

  /** Exactly one value, and which. */
  ghost predicate Is(pairs: Pairs, name: string, value: string) { Values(pairs, name) == [value] }

  ghost predicate AtMostOne(pairs: Pairs, name: string, limit: nat) {
    |Values(pairs, name)| <= 1 && forall v :: v in Values(pairs, name) ==> |v| <= limit
  }

  ghost predicate KnownAtMostOnce(pairs: Pairs) {
    forall name :: name in KNOWN_PARAMETERS ==> AtMostOne(pairs, name, MAX_PARAM_LEN)
  }

  lemma KnownNames()
    ensures "response_type" in KNOWN_PARAMETERS && "client_id" in KNOWN_PARAMETERS && "redirect_uri" in KNOWN_PARAMETERS
    ensures "scope" in KNOWN_PARAMETERS && "state" in KNOWN_PARAMETERS && "nonce" in KNOWN_PARAMETERS
    ensures "code_challenge" in KNOWN_PARAMETERS && "code_challenge_method" in KNOWN_PARAMETERS
    ensures "prompt" in KNOWN_PARAMETERS && "max_age" in KNOWN_PARAMETERS && |KNOWN_PARAMETERS| == 10
  {
    var k := KNOWN_PARAMETERS;
    assert k[0] in k && k[1] in k && k[2] in k && k[3] in k && k[4] in k;
    assert k[5] in k && k[6] in k && k[7] in k && k[8] in k && k[9] in k;
  }

  ghost predicate ScopeGiven(pairs: Pairs) { exists s :: Is(pairs, "scope", s) && "openid" in Words(s) }

  ghost predicate ChallengeGiven(pairs: Pairs) {
    && Is(pairs, "code_challenge_method", "S256")
    && exists c :: Is(pairs, "code_challenge", c) && Pkce.IsValidChallenge(c)
  }

  ghost predicate PromptSatisfiable(pairs: Pairs) {
    forall p :: Is(pairs, "prompt", p) ==> "none" !in Words(p) && "login" !in Words(p) && "select_account" !in Words(p)
  }

  /** What the protocol demands of the parameters of any client. */
  ghost predicate ProtocolOk(pairs: Pairs) {
    && KnownAtMostOnce(pairs)
    && Is(pairs, "response_type", "code") && ScopeGiven(pairs) && ChallengeGiven(pairs)
    && AtMostOne(pairs, "state", MAX_STATE_LEN) && AtMostOne(pairs, "nonce", MAX_STATE_LEN)
    && PromptSatisfiable(pairs) && Values(pairs, "max_age") == []
  }

  /** What a request must be for authorization to proceed, read off the raw
      parameter list. */
  ghost predicate Acceptable(pairs: Pairs, client: ClientConfig) {
    ProtocolOk(pairs) && exists uri :: uri in client.redirectUris && Is(pairs, "redirect_uri", uri)
  }

  lemma SingleIs(pairs: Pairs, name: string, v: string)
    ensures Single(pairs, name) == Exactly(v) <==> Is(pairs, name, v)
    ensures SingleOrNone(pairs, name) == Some(v) <==> Is(pairs, name, v)
    ensures Is(pairs, name, v) ==> v in Values(pairs, name)
  {
    if Is(pairs, name, v) { assert Values(pairs, name)[0] == v; }
    if |Values(pairs, name)| == 1 { assert Values(pairs, name) == [Values(pairs, name)[0]]; }
  }

  lemma ScopeFaultExact(pairs: Pairs)
    requires AtMostOne(pairs, "scope", MAX_PARAM_LEN)
    ensures ScopeFault(pairs) == None <==> ScopeGiven(pairs)
  {
    SingleIs(pairs, "scope", ValueOf(pairs, "scope"));
  }

  lemma ChallengeFaultExact(pairs: Pairs)
    ensures ChallengeFault(pairs) == None <==> ChallengeGiven(pairs)
  {
    SingleIs(pairs, "code_challenge_method", "S256");
    SingleIs(pairs, "code_challenge", ValueOf(pairs, "code_challenge"));
  }

  lemma RequiredFaults(pairs: Pairs)
    requires AtMostOne(pairs, "scope", MAX_PARAM_LEN)
    ensures ResponseTypeFault(pairs) == None <==> Is(pairs, "response_type", "code")
    ensures ScopeFault(pairs) == None <==> ScopeGiven(pairs)
    ensures ChallengeFault(pairs) == None <==> ChallengeGiven(pairs)
  {
    SingleIs(pairs, "response_type", "code");
    ScopeFaultExact(pairs);
    ChallengeFaultExact(pairs);
  }

  lemma NotTooLong(pairs: Pairs, name: string, limit: nat)
    requires |Values(pairs, name)| <= 1
    ensures !TooLong(SingleOrNone(pairs, name), limit) <==> AtMostOne(pairs, name, limit)
  {
    SingleIs(pairs, name, ValueOf(pairs, name));
  }

  lemma OptionalFaults(pairs: Pairs)
    requires AtMostOne(pairs, "state", MAX_PARAM_LEN) && AtMostOne(pairs, "nonce", MAX_PARAM_LEN)
    requires AtMostOne(pairs, "max_age", MAX_PARAM_LEN)
    ensures !TooLong(SingleOrNone(pairs, "state"), MAX_STATE_LEN) <==> AtMostOne(pairs, "state", MAX_STATE_LEN)
    ensures !TooLong(SingleOrNone(pairs, "nonce"), MAX_STATE_LEN) <==> AtMostOne(pairs, "nonce", MAX_STATE_LEN)
    ensures MaxAgeFault(pairs) == None <==> Values(pairs, "max_age") == []
  {
    NotTooLong(pairs, "state", MAX_STATE_LEN);
    NotTooLong(pairs, "nonce", MAX_STATE_LEN);
  }

  lemma PromptFaultExact(pairs: Pairs)
    ensures PromptFault(PromptWords(pairs)) == None <==> PromptSatisfiable(pairs)
  {
    SingleIs(pairs, "prompt", ValueOf(pairs, "prompt"));
  }

  lemma BadParameterExact(pairs: Pairs, name: string)
    ensures BadKnownParameter(pairs, name) <==> !AtMostOne(pairs, name, MAX_PARAM_LEN)
  {
    var vs := Values(pairs, name);
    assert forall i :: 0 <= i < |vs| ==> vs[i] in vs;
  }

  lemma SomeBadParameterExact(pairs: Pairs)
    ensures SomeBadParameter(pairs) <==> !KnownAtMostOnce(pairs)
  {
    forall name ensures BadKnownParameter(pairs, name) <==> !AtMostOne(pairs, name, MAX_PARAM_LEN) {
      BadParameterExact(pairs, name);
    }
  }

  lemma ProtocolFaultExact(pairs: Pairs)
    ensures ProtocolFault(pairs) == None <==> ProtocolOk(pairs)
  {
    SomeBadParameterExact(pairs);
    KnownNames();
    if KnownAtMostOnce(pairs) {
      RequiredFaults(pairs);
      OptionalFaults(pairs);
      PromptFaultExact(pairs);
    }
  }

  lemma UriIsShort(pairs: Pairs, uri: string)
    requires KnownAtMostOnce(pairs) && Is(pairs, "redirect_uri", uri)
    ensures |uri| <= MAX_PARAM_LEN
  {
    KnownNames();
    SingleIs(pairs, "redirect_uri", uri);
  }

  lemma VerdictOnUri(pairs: Pairs, client: ClientConfig, uri: string)
    requires Is(pairs, "redirect_uri", uri)
    ensures VerdictFor(pairs, client).Proceed?
      <==> uri in client.redirectUris && |uri| <= MAX_PARAM_LEN && ProtocolFault(pairs) == None
    ensures VerdictFor(pairs, client).RedirectError? ==>
        VerdictFor(pairs, client).uri == uri && uri in client.redirectUris
  {
    SingleIs(pairs, "redirect_uri", uri);
  }

  /** Authorization proceeds exactly on acceptable requests, and an error is
      sent only to a redirect URI registered to the resolved client. */
  lemma VerdictExact(pairs: Pairs, client: ClientConfig)
    ensures VerdictFor(pairs, client).Proceed? <==> Acceptable(pairs, client)
    ensures VerdictFor(pairs, client).RedirectError? ==> VerdictFor(pairs, client).uri in client.redirectUris
  {
    if Single(pairs, "redirect_uri").Exactly? {
      var uri := ValueOf(pairs, "redirect_uri");
      SingleIs(pairs, "redirect_uri", uri);
      VerdictOnUri(pairs, client, uri);
      ProtocolFaultExact(pairs);
      if ProtocolOk(pairs) { UriIsShort(pairs, uri); }
    } else {
      forall uri ensures !Is(pairs, "redirect_uri", uri) { SingleIs(pairs, "redirect_uri", uri); }
    }
  }

  lemma ProceedScope(pairs: Pairs, client: ClientConfig)
    requires VerdictFor(pairs, client).Proceed?
    ensures "openid" in Words(ValueOf(pairs, "scope"))
    ensures VerdictFor(pairs, client).v.scope
        == Join(Granted(Words(ValueOf(pairs, "scope")), client.allowedScopes), " ")
  {
    assert ProtocolFault(pairs) == None;
    assert ScopeFault(pairs) == None;
  }

  /** The request's one `prompt` contains the word `consent`. */
  ghost predicate AsksConsent(pairs: Pairs) { exists p :: Is(pairs, "prompt", p) && "consent" in Words(p) }

  /** What proceeds shows the consent page at Discord exactly when asked to, and
      carries the request's own state and nonce. */
  lemma ProceedCarries(pairs: Pairs, client: ClientConfig)
    requires VerdictFor(pairs, client).Proceed?
    ensures VerdictFor(pairs, client).v.consent <==> AsksConsent(pairs)
    ensures VerdictFor(pairs, client).v.rpState == SingleOrNone(pairs, "state")
    ensures VerdictFor(pairs, client).v.nonce == SingleOrNone(pairs, "nonce")
  {
    SingleIs(pairs, "prompt", ValueOf(pairs, "prompt"));
    forall p | Is(pairs, "prompt", p) ensures p == ValueOf(pairs, "prompt") { SingleIs(pairs, "prompt", p); }
  }

  /** Two parameter lists with the same values for every known name. */
  ghost predicate SameKnown(a: Pairs, b: Pairs) {
    forall name :: name in KNOWN_PARAMETERS ==> Values(a, name) == Values(b, name)
  }

  lemma SameBad(a: Pairs, b: Pairs, name: string)
    requires Values(a, name) == Values(b, name)
    ensures BadKnownParameter(a, name) == BadKnownParameter(b, name)
  {
  }

  lemma SameParameters(a: Pairs, b: Pairs)
    requires SameKnown(a, b)
    ensures SomeBadParameter(a) == SomeBadParameter(b)
  {
    forall name | name in KNOWN_PARAMETERS ensures BadKnownParameter(a, name) == BadKnownParameter(b, name) {
      SameBad(a, b, name);
    }
  }

  lemma SameOptional(a: Pairs, b: Pairs)
    requires Values(a, "prompt") == Values(b, "prompt") && Values(a, "max_age") == Values(b, "max_age")
    requires Values(a, "state") == Values(b, "state") && Values(a, "nonce") == Values(b, "nonce")
    ensures PromptWords(a) == PromptWords(b) && MaxAgeFault(a) == MaxAgeFault(b)
    ensures SingleOrNone(a, "state") == SingleOrNone(b, "state") && SingleOrNone(a, "nonce") == SingleOrNone(b, "nonce")
  {
  }

  lemma SameRequired(a: Pairs, b: Pairs)
    requires Values(a, "response_type") == Values(b, "response_type") && Values(a, "scope") == Values(b, "scope")
    requires Values(a, "redirect_uri") == Values(b, "redirect_uri")
    requires Values(a, "code_challenge") == Values(b, "code_challenge")
    requires Values(a, "code_challenge_method") == Values(b, "code_challenge_method")
    ensures ResponseTypeFault(a) == ResponseTypeFault(b) && ScopeFault(a) == ScopeFault(b)
    ensures ChallengeFault(a) == ChallengeFault(b)
    ensures Single(a, "redirect_uri") == Single(b, "redirect_uri") && ValueOf(a, "scope") == ValueOf(b, "scope")
    ensures ValueOf(a, "code_challenge") == ValueOf(b, "code_challenge")
  {
  }

  lemma SameFault(a: Pairs, b: Pairs)
    requires SomeBadParameter(a) == SomeBadParameter(b)
    requires ResponseTypeFault(a) == ResponseTypeFault(b) && ScopeFault(a) == ScopeFault(b)
    requires ChallengeFault(a) == ChallengeFault(b)
    requires SingleOrNone(a, "state") == SingleOrNone(b, "state")
    requires SingleOrNone(a, "nonce") == SingleOrNone(b, "nonce")
    requires PromptWords(a) == PromptWords(b) && MaxAgeFault(a) == MaxAgeFault(b)
    ensures ProtocolFault(a) == ProtocolFault(b)
  {
  }

  /** Parameters outside the known set never matter. */
  lemma UnknownParametersIgnored(a: Pairs, b: Pairs, client: ClientConfig)
    requires SameKnown(a, b)
    ensures VerdictFor(a, client) == VerdictFor(b, client)
  {
    KnownNames();
    SameParameters(a, b);
    SameOptional(a, b);
    SameRequired(a, b);
    SameFault(a, b);
  }

  // ---------- The handler, phase by phase ----------

  /** What `find_client` answers. */
  datatype FindReply = RegistryFailure | Resolved(client: Option<ClientConfig>)

  datatype Response =
    | ToDiscord(discordState: string, consent: bool)
    | ErrorToClient(uri: string, code: ErrorCode, state: Option<string>)
    | Page(status: int)

  datatype Phase =
    | Finding(pairs: Pairs, clientId: string, now: int)
    | Storing(pairs: Pairs, client: ClientConfig, v: Validated, tx: Transaction, now: int)
    | Finished(resp: Response)

  /** Up to `find_client`. */
  function Begin(lossy: Lossy, query: string, now: int): Phase {
    if |query| > MAX_QUERY_LEN then Finished(Page(400))
    else
      var pairs := ParseForm(lossy, query);
      match Single(pairs, "client_id")
      case Exactly(id) => if |id| <= MAX_PARAM_LEN then Finding(pairs, id, now) else Finished(Page(400))
      case _ => Finished(Page(400))
  }

  /** From there to `put_transaction`, with the two tokens it draws. */
  function AfterFind(pairs: Pairs, reply: FindReply, idDraw: Bytes32, stateDraw: Bytes32, now: int): Phase {
    match reply
    case RegistryFailure => Finished(Page(500))
    case Resolved(None) => Finished(Page(400))
    case Resolved(Some(client)) =>
      match VerdictFor(pairs, client)
      case RenderError(status) => Finished(Page(status))
      case RedirectError(uri, code, state) => Finished(ErrorToClient(uri, code, state))
      case Proceed(v) => Storing(pairs, client, v, TransactionFor(v, idDraw, stateDraw, now), now)
  }

  function TransactionFor(v: Validated, idDraw: Bytes32, stateDraw: Bytes32, now: int): Transaction {
    NewTransaction(v.clientId, v.redirectUri, v.scope, v.rpState, v.nonce, v.challenge, idDraw, stateDraw, now)
  }

  function AfterStore(v: Validated, tx: Transaction, stored: bool): Phase {
    if stored then Finished(ToDiscord(tx.discordState, v.consent)) else Finished(Page(500))
  }

  /** The whole handler run alone, without storage faults. */
  function Handled(cfg: Config, records: Records, s: Store, query: string, idDraw: Bytes32, stateDraw: Bytes32,
                   now: int): (Response, Store) {
    match Begin(cfg.lossy, query, now)
    case Finished(resp) => (resp, s)
    case Storing(_, _, _, _, _) => (Page(500), s)
    case Finding(pairs, id, _) =>
      match AfterFind(pairs, Resolved(FindClient(cfg, records, id)), idDraw, stateDraw, now)
      case Storing(_, _, v, tx, _) => (ToDiscord(tx.discordState, v.consent), PutTransaction(s, tx))
      case Finished(resp) => (resp, s)
      case Finding(_, _, _) => (Page(500), s)
  }

  // ---------- The handler as written ----------

  /** The known-parameter loop of `validate_authorize_request`. */
  method CheckKnownParameters(params: ParamMap, ghost pairs: Pairs) returns (bad: bool)
    requires Collects(params, pairs)
    ensures bad <==> SomeBadParameter(pairs)
  {
    var known := KNOWN_PARAMETERS;
    bad := false;
    for i := 0 to |known|
      invariant !bad && forall name :: name in known[..i] ==> !BadKnownParameter(pairs, name)
    {
      var name := known[i];
      assert known[..i + 1] == known[..i] + [name] && name in known;
      if name in params {
        var values := params[name];
        assert values == Values(pairs, name);
        if |values| > 1 || exists k :: 0 <= k < |values| && |values[k]| > MAX_PARAM_LEN {
          assert BadKnownParameter(pairs, name);
          return true;
        }
      }
    }
    assert known[..|known|] == known;
  }

  method Intersect(requested: seq<string>, allowed: seq<string>) returns (granted: seq<string>)
    ensures granted == Granted(requested, allowed)
  {
    granted := [];
    for i := 0 to |requested|
      invariant granted == Granted(requested[..i], allowed)
    {
      assert requested[..i + 1][..i] == requested[..i];
      if requested[i] in allowed && requested[i] !in granted { granted := granted + [requested[i]]; }
    }
    assert requested[..|requested|] == requested;
  }

  function LookupOne(params: ParamMap, name: string): Option<string> {
    match SingleIn(params, name)
    case Exactly(v) => Some(v)
    case _ => None
  }

  lemma LookupAgrees(params: ParamMap, pairs: Pairs, name: string)
    requires Collects(params, pairs)
    ensures SingleIn(params, name) == Single(pairs, name) && LookupOne(params, name) == SingleOrNone(pairs, name)
  {
  }

  method CheckRequired(params: ParamMap, ghost pairs: Pairs) returns (fault: Option<ErrorCode>)
    requires Collects(params, pairs)
    ensures fault ==
      if ResponseTypeFault(pairs).Some? then ResponseTypeFault(pairs)
      else if ScopeFault(pairs).Some? then ScopeFault(pairs)
      else ChallengeFault(pairs)
  {
    LookupAgrees(params, pairs, "response_type");
    LookupAgrees(params, pairs, "scope");
    LookupAgrees(params, pairs, "code_challenge_method");
    LookupAgrees(params, pairs, "code_challenge");
    var responseType := SingleIn(params, "response_type");
    if responseType != Exactly("code") {
      return if responseType.Exactly? then Some(UnsupportedResponseType) else Some(InvalidRequest);
    }
    var scope := SingleIn(params, "scope");
    if !scope.Exactly? || |scope.value| > MAX_PARAM_LEN { return Some(InvalidScope); }
    if "openid" !in Words(scope.value) { return Some(InvalidScope); }
    var challengeMethod := SingleIn(params, "code_challenge_method");
    if challengeMethod != Exactly(Pkce.REQUIRED_CHALLENGE_METHOD) { return Some(InvalidRequest); }
    var challenge := SingleIn(params, "code_challenge");
    if !challenge.Exactly? || !Pkce.IsValidChallenge(challenge.value) { return Some(InvalidRequest); }
    fault := None;
  }

  method CheckOptional(params: ParamMap, ghost pairs: Pairs) returns (fault: Option<ErrorCode>)
    requires Collects(params, pairs)
    ensures fault ==
      if TooLong(SingleOrNone(pairs, "nonce"), MAX_STATE_LEN)
        || TooLong(SingleOrNone(pairs, "state"), MAX_STATE_LEN) then Some(InvalidRequest)
      else if PromptFault(PromptWords(pairs)).Some? then PromptFault(PromptWords(pairs))
      else MaxAgeFault(pairs)
  {
    if TooLong(LookupOne(params, "nonce"), MAX_STATE_LEN) { return Some(InvalidRequest); }
    if TooLong(LookupOne(params, "state"), MAX_STATE_LEN) { return Some(InvalidRequest); }
    var prompt: seq<string> := match LookupOne(params, "prompt") case None => [] case Some(p) => Words(p);
    if prompt != [] {
      if "none" in prompt && |prompt| > 1 { return Some(InvalidRequest); }
      if "none" in prompt || "login" in prompt { return Some(LoginRequired); }
      if "select_account" in prompt { return Some(AccountSelectionRequired); }
    }
    match LookupOne(params, "max_age") {
      case Some(age) => return if ParsesU64(age) then Some(LoginRequired) else Some(InvalidRequest);
      case None => return None;
    }
  }

  /** `validate_authorize_request` after the client is resolved: the checks in
      source order, over the collected map. */
  method Validate(params: ParamMap, client: ClientConfig, ghost pairs: Pairs) returns (verdict: Verdict)
    requires Collects(params, pairs)
    ensures verdict == VerdictFor(pairs, client)
  {
    LookupAgrees(params, pairs, "redirect_uri");
    LookupAgrees(params, pairs, "state");
    var uri := LookupOne(params, "redirect_uri");
    if uri == None || |uri.value| > MAX_PARAM_LEN || uri.value !in client.redirectUris { return RenderError(400); }
    var state := LookupOne(params, "state");
    var bad := CheckKnownParameters(params, pairs);
    if bad { return RedirectError(uri.value, InvalidRequest, state); }
    var fault := CheckRequired(params, pairs);
    if fault.Some? { return RedirectError(uri.value, fault.value, state); }
    fault := CheckOptional(params, pairs);
    if fault.Some? { return RedirectError(uri.value, fault.value, state); }
    assert ProtocolFault(pairs) == None;
    var v := BuildValidated(params, client, uri.value, state, pairs);
    verdict := Proceed(v);
  }

  method BuildValidated(params: ParamMap, client: ClientConfig, uri: string, state: Option<string>, ghost pairs: Pairs)
    returns (v: Validated)
    requires Collects(params, pairs) && Single(pairs, "redirect_uri") == Exactly(uri)
    requires state == SingleOrNone(pairs, "state")
    requires Single(pairs, "scope").Exactly? && Single(pairs, "code_challenge").Exactly?
    ensures v == Accepted(pairs, client)
  {
    LookupAgrees(params, pairs, "scope");
    LookupAgrees(params, pairs, "nonce");
    LookupAgrees(params, pairs, "code_challenge");
    LookupAgrees(params, pairs, "prompt");
    var granted := Intersect(Words(LookupOne(params, "scope").value), client.allowedScopes);
    var prompt: seq<string> := match LookupOne(params, "prompt") case None => [] case Some(p) => Words(p);
    v := Validated(client.clientId, uri, Join(granted, " "), state, LookupOne(params, "nonce"),
                   LookupOne(params, "code_challenge").value, "consent" in prompt);
  }

  /** Draws the two tokens, the id first, and persists the transaction. */
  method StoreTransaction(store: InMemoryStore, entropy: EntropySource, v: Validated, now: int)
    returns (tx: Transaction, ghost idDraw: Bytes32, ghost stateDraw: Bytes32)
    modifies store, entropy`used
    ensures tx == TransactionFor(v, idDraw, stateDraw, now)
    ensures store.View() == PutTransaction(old(store.View()), tx)
    ensures entropy.used == old(entropy.used) + 64 && idDraw + stateDraw == old(entropy.Upcoming(64))
  {
    var id, discordState;
    id, idDraw := RandomToken(entropy);
    discordState, stateDraw := RandomToken(entropy);
    tx := Transaction(id, v.clientId, v.redirectUri, v.scope, v.rpState, v.nonce, v.challenge,
                      discordState, now, now + TRANSACTION_TTL_SECS);
    store.PutTransactionRecord(tx);
  }

  /** `handle_authorize`, run alone against the in-memory store and registry. */
  method HandleAuthorize(cfg: Config, registry: InMemoryClientRegistry, store: InMemoryStore, entropy: EntropySource,
                         query: string, now: int)
    returns (resp: Response, ghost idDraw: Bytes32, ghost stateDraw: Bytes32)
    modifies store, entropy`used
    ensures (resp, store.View()) == Handled(cfg, registry.records, old(store.View()), query, idDraw, stateDraw, now)
    ensures resp.ToDiscord? ==>
      entropy.used == old(entropy.used) + 64 && idDraw + stateDraw == old(entropy.Upcoming(64))
    ensures !resp.ToDiscord? ==> entropy.used == old(entropy.used)
  {
    idDraw, stateDraw := seq(32, i => 0), seq(32, i => 0);
    if |query| > MAX_QUERY_LEN { return Page(400), idDraw, stateDraw; }
    var parsed := ParseForm(cfg.lossy, query);
    var params := Collect(parsed);
    LookupAgrees(params, parsed, "client_id");
    var id := LookupOne(params, "client_id");
    if id == None || |id.value| > MAX_PARAM_LEN { return Page(400), idDraw, stateDraw; }
    var client := FindClient(cfg, registry.records, id.value);
    if client == None { return Page(400), idDraw, stateDraw; }
    var verdict := Validate(params, client.value, parsed);
    match verdict {
      case RenderError(status) => resp := Page(status);
      case RedirectError(uri, code, state) => resp := ErrorToClient(uri, code, state);
      case Proceed(v) =>
        var tx;
        tx, idDraw, stateDraw := StoreTransaction(store, entropy, v, now);
        resp := ToDiscord(tx.discordState, v.consent);
    }
  }
}
