/** Every answer of the Discord callback, told from the raw query, the registry,
    the store and what Discord says: each holds exactly under its condition. */
module CallbackAnswers {
  import opened Basics
  import opened Form
  import opened OAuth
  import opened Registry
  import opened Resolver
  import opened Code
  import opened AuthorizationStore
  import opened Util
  import opened Callback
  import opened Redirects
  import Base64
  import Client

  /** `value` is the first value under `name`. */
  ghost predicate IsFirst(pairs: Pairs, name: string, value: string) {
    exists k :: 0 <= k < |pairs| && pairs[k] == (name, value) && forall j :: 0 <= j < k ==> pairs[j].0 != name
  }

  lemma {:induction false} FirstValueExact(pairs: Pairs, name: string, value: string)
    ensures FirstValue(pairs, name) == Some(value) <==> IsFirst(pairs, name, value)
  {
    if pairs != [] {
      var rest := pairs[1..];
      FirstValueExact(rest, name, value);
      if pairs[0].0 == name {
        if pairs[0].1 == value { assert pairs[0] == (name, value); }
      } else {
        if IsFirst(rest, name, value) {
          var k :| 0 <= k < |rest| && rest[k] == (name, value) && forall j :: 0 <= j < k ==> rest[j].0 != name;
          assert pairs[k + 1] == (name, value);
          assert forall j :: 0 < j < k + 1 ==> pairs[j] == rest[j - 1];
        }
        if IsFirst(pairs, name, value) {
          var k :| 0 <= k < |pairs| && pairs[k] == (name, value) && forall j :: 0 <= j < k ==> pairs[j].0 != name;
          assert k > 0 && rest[k - 1] == (name, value);
          assert forall j :: 0 <= j < k - 1 ==> rest[j] == pairs[j + 1];
        }
      }
    }
  }

  ghost predicate Given(pairs: Pairs, name: string) { exists v :: IsFirst(pairs, name, v) }

  lemma GivenExact(pairs: Pairs, name: string)
    ensures Given(pairs, name) <==> FirstValue(pairs, name).Some?
    ensures Given(pairs, name) ==> IsFirst(pairs, name, FirstValue(pairs, name).value)
  {
    if FirstValue(pairs, name).Some? { FirstValueExact(pairs, name, FirstValue(pairs, name).value); }
    forall v ensures IsFirst(pairs, name, v) <==> FirstValue(pairs, name) == Some(v) {
      FirstValueExact(pairs, name, v);
    }
  }

  /** The query is for a stored transaction. */
  ghost predicate IsFor(pairs: Pairs, s: Store, tx: Transaction) {
    exists state :: IsFirst(pairs, "state", state) && |state| <= 256 && state in s.txs && s.txs[state] == tx
  }

  /** Discord's error is passed on only if the protocol has it at this point. */
  lemma SanitizeExact(error: string)
    ensures Name(Sanitize(error)) ==
      if error in ["server_error", "temporarily_unavailable", "invalid_request"] then error else "access_denied"
  {
  }

  /** Discord names this user for the code of the query, and confirms that the
      user is in the guild, under the access token of that code. */
  ghost predicate Confirmed(cfg: Config, d: DiscordReplies, code: string, user: string) {
    exists token :: d.token(code) == Some(token) && d.user(token) == Some(user) && IsDigits(user)
                    && d.member(token, cfg.guild) == IsMember
  }

  /** Discord names the user but knows no such member of the guild. */
  ghost predicate Outside(cfg: Config, d: DiscordReplies, code: string) {
    exists token, user :: d.token(code) == Some(token) && d.user(token) == Some(user) && IsDigits(user)
                          && d.member(token, cfg.guild) == NotMember
  }

  /** What a callback for `tx` answers, by its first `code` and `error`. */
  ghost predicate Answer(cfg: Config, records: Records, pairs: Pairs, tx: Transaction, d: DiscordReplies, draw: Bytes32,
                         now: int, resp: CallbackResponse) {
    var open := now < tx.expiresAt && StillRegistered(cfg, records, tx);
    && (tx.expiresAt <= now ==> resp == FailureToClient(tx.redirectUri, TemporarilyUnavailable, tx.rpState))
    && (now < tx.expiresAt && !StillRegistered(cfg, records, tx) ==> resp == FailurePage(403))
    && (forall e :: open && IsFirst(pairs, "error", e) ==>
        resp == FailureToClient(tx.redirectUri, Sanitize(e), tx.rpState))
    && (open && !Given(pairs, "error") && !Given(pairs, "code") ==>
        resp == FailureToClient(tx.redirectUri, InvalidRequest, tx.rpState))
    && (forall c :: open && !Given(pairs, "error") && IsFirst(pairs, "code", c) ==>
        if exists user :: Confirmed(cfg, d, c, user) then
          resp == CodeToClient(tx.redirectUri, TokenText(draw), tx.rpState)
        else if Outside(cfg, d, c) then resp == FailureToClient(tx.redirectUri, AccessDenied, tx.rpState)
        else resp == FailureToClient(tx.redirectUri, ServerError, tx.rpState))
  }

  /** The record that goes with a code. */
  ghost predicate IsCodeFor(sha: Digest, r: StoredCode, tx: Transaction, user: string, draw: Bytes32, now: int) {
    && Base64.UrlDecode(r.codeHash) == Some(sha(TokenText(draw))) && r.subject == user
    && r.clientId == tx.clientId && r.redirectUri == tx.redirectUri && r.scope == tx.scope && r.nonce == tx.nonce
    && r.challenge == tx.challenge && r.createdAt == now && r.expiresAt == now + 60
  }

  /** What it leaves in the store: the transaction is gone, and a code is stored
      exactly when one is sent. */
  ghost predicate Leaves(cfg: Config, s: Store, pairs: Pairs, tx: Transaction, d: DiscordReplies, draw: Bytes32,
                         now: int, resp: CallbackResponse, after: Store) {
    && (forall state :: IsFirst(pairs, "state", state) ==>
        forall k :: (k in after.txs <==> k in s.txs && k != state) && (k in after.txs ==> after.txs[k] == s.txs[k]))
    && (!resp.CodeToClient? ==> after.codes == s.codes)
    && (resp.CodeToClient? ==>
        exists c, user, r :: IsFirst(pairs, "code", c) && Confirmed(cfg, d, c, user)
                             && IsCodeFor(cfg.sha, r, tx, user, draw, now) && after.codes == s.codes[r.codeHash := r])
  }

  lemma ConfirmedOnce(cfg: Config, d: DiscordReplies, code: string)
    ensures (exists user :: Confirmed(cfg, d, code, user))
      <==> d.token(code).Some? && d.user(d.token(code).value).Some? && IsDigits(d.user(d.token(code).value).value)
           && d.member(d.token(code).value, cfg.guild) == IsMember
    ensures Outside(cfg, d, code)
      <==> d.token(code).Some? && d.user(d.token(code).value).Some? && IsDigits(d.user(d.token(code).value).value)
           && d.member(d.token(code).value, cfg.guild) == NotMember
  {
    if d.token(code).Some? && d.user(d.token(code).value).Some? && IsDigits(d.user(d.token(code).value).value)
       && d.member(d.token(code).value, cfg.guild) == IsMember {
      assert Confirmed(cfg, d, code, d.user(d.token(code).value).value);
    }
  }

  /** From the exchange with Discord on. */
  lemma UpstreamExact(cfg: Config, s: Store, tx: Transaction, client: Client.ClientConfig, code: string,
                      d: DiscordReplies, draw: Bytes32, now: int)
    ensures var (resp, after) := CalledAfterResolve(cfg, s, Exchanging(tx, client, code, now), d, draw, now);
            && resp == (if exists user :: Confirmed(cfg, d, code, user) then
                          CodeToClient(tx.redirectUri, TokenText(draw), tx.rpState)
                        else if Outside(cfg, d, code) then FailureToClient(tx.redirectUri, AccessDenied, tx.rpState)
                        else FailureToClient(tx.redirectUri, ServerError, tx.rpState))
            && after.txs == s.txs && (!resp.CodeToClient? ==> after.codes == s.codes)
            && (resp.CodeToClient? ==> exists user :: Confirmed(cfg, d, code, user)
                                                      && after == PutCode(s, IssueCode(cfg.sha, tx, user, draw, now)))
  {
    ConfirmedOnce(cfg, d, code);
  }

  lemma IssuedIsCodeFor(sha: Digest, tx: Transaction, user: string, draw: Bytes32, now: int)
    ensures IsCodeFor(sha, IssueCode(sha, tx, user, draw, now), tx, user, draw, now)
  {
    TokenShape(sha(TokenText(draw)));
  }

  lemma IsForExact(pairs: Pairs, s: Store, tx: Transaction)
    ensures IsFor(pairs, s, tx)
      <==> var state := FirstValue(pairs, "state");
           state.Some? && |state.value| <= 256 && state.value in s.txs && s.txs[state.value] == tx
  {
    var state := FirstValue(pairs, "state");
    if state.Some? { FirstValueExact(pairs, "state", state.value); }
    forall v ensures IsFirst(pairs, "state", v) <==> state == Some(v) { FirstValueExact(pairs, "state", v); }
  }

  /** The live transaction's callback, up to the exchange. */
  lemma ResolvedAnswers(cfg: Config, records: Records, s: Store, pairs: Pairs, tx: Transaction, d: DiscordReplies,
                        draw: Bytes32, now: int, resp: CallbackResponse, after: Store)
    requires now < tx.expiresAt
    requires (resp, after) == CalledAfterTake(cfg, records, s, Resolving(tx, FirstValue(pairs, "code"),
                                                                         FirstValue(pairs, "error"), now), d, draw, now)
    ensures Answer(cfg, records, pairs, tx, d, draw, now, resp) && after.txs == s.txs
    ensures if resp.CodeToClient? then
              exists c, user :: FirstValue(pairs, "code") == Some(c) && Confirmed(cfg, d, c, user)
                                && after == PutCode(s, IssueCode(cfg.sha, tx, user, draw, now))
            else after == s
    ensures resp != FailurePage(400)
  {
    var code, error := FirstValue(pairs, "code"), FirstValue(pairs, "error");
    forall v ensures IsFirst(pairs, "code", v) <==> code == Some(v) { FirstValueExact(pairs, "code", v); }
    forall v ensures IsFirst(pairs, "error", v) <==> error == Some(v) { FirstValueExact(pairs, "error", v); }
    GivenExact(pairs, "code");
    GivenExact(pairs, "error");
    if StillRegistered(cfg, records, tx) && error == None && code.Some? {
      var client := FindClient(cfg, records, tx.clientId).value;
      UpstreamExact(cfg, s, tx, client, code.value, d, draw, now);
    }
  }

  lemma QueryIsTaken(lossy: Lossy, query: string, s: Store, tx: Transaction, now: int)
    requires IsFor(ParseForm(lossy, query), s, tx)
    ensures var pairs := ParseForm(lossy, query);
            && FirstValue(pairs, "state").Some?
            && BeginCallback(lossy, query, now)
               == Taking(FirstValue(pairs, "state").value, FirstValue(pairs, "code"), FirstValue(pairs, "error"), now)
            && TakeReply(s, FirstValue(pairs, "state").value, now)
               == if tx.expiresAt <= now then Stale(tx) else Active(tx)
  {
    IsForExact(ParseForm(lossy, query), s, tx);
  }

  /** What taking the transaction leads to. */
  lemma TakenAnswers(cfg: Config, records: Records, s: Store, query: string, tx: Transaction, d: DiscordReplies,
                     draw: Bytes32, now: int)
    requires IsFor(ParseForm(cfg.lossy, query), s, tx)
    ensures var pairs := ParseForm(cfg.lossy, query);
            && FirstValue(pairs, "state").Some?
            && Called(cfg, records, s, query, d, draw, now)
               == var left := TakeTransaction(s, FirstValue(pairs, "state").value);
                  if tx.expiresAt <= now then
                    (FailureToClient(tx.redirectUri, TemporarilyUnavailable, tx.rpState), left)
                  else
                    CalledAfterTake(cfg, records, left, Resolving(tx, FirstValue(pairs, "code"),
                                                                  FirstValue(pairs, "error"), now), d, draw, now)
  {
    QueryIsTaken(cfg.lossy, query, s, tx, now);
  }

  lemma TakenLeaves(pairs: Pairs, s: Store, state: string, after: Store)
    requires FirstValue(pairs, "state") == Some(state) && after.txs == TakeTransaction(s, state).txs
    ensures forall st :: IsFirst(pairs, "state", st) ==>
      forall k :: (k in after.txs <==> k in s.txs && k != st) && (k in after.txs ==> after.txs[k] == s.txs[k])
  {
    forall v ensures IsFirst(pairs, "state", v) <==> v == state { FirstValueExact(pairs, "state", v); }
  }

  /** The whole callback for a stored transaction: what it answers and what it
      leaves. */
  lemma CallbackExact(cfg: Config, records: Records, s: Store, query: string, tx: Transaction, d: DiscordReplies,
                      draw: Bytes32, now: int)
    requires IsFor(ParseForm(cfg.lossy, query), s, tx)
    ensures var (resp, after) := Called(cfg, records, s, query, d, draw, now);
            && Answer(cfg, records, ParseForm(cfg.lossy, query), tx, d, draw, now, resp)
            && Leaves(cfg, s, ParseForm(cfg.lossy, query), tx, d, draw, now, resp, after)
            && resp != FailurePage(400)
  {
    var pairs := ParseForm(cfg.lossy, query);
    var (resp, after) := Called(cfg, records, s, query, d, draw, now);
    TakenAnswers(cfg, records, s, query, tx, d, draw, now);
    var state := FirstValue(pairs, "state").value;
    if now < tx.expiresAt {
      ResolvedAnswers(cfg, records, TakeTransaction(s, state), pairs, tx, d, draw, now, resp, after);
      if resp.CodeToClient? {
        var c, user :| FirstValue(pairs, "code") == Some(c) && Confirmed(cfg, d, c, user)
                       && after == PutCode(TakeTransaction(s, state), IssueCode(cfg.sha, tx, user, draw, now));
        FirstValueExact(pairs, "code", c);
        IssuedIsCodeFor(cfg.sha, tx, user, draw, now);
      }
    }
    TakenLeaves(pairs, s, state, after);
  }

  /** A query for no stored transaction gets the error page that none of the
      others gets, and changes nothing. */
  lemma UnknownIsNotFound(cfg: Config, records: Records, s: Store, query: string, d: DiscordReplies, draw: Bytes32,
                          now: int)
    requires forall tx :: !IsFor(ParseForm(cfg.lossy, query), s, tx)
    ensures Called(cfg, records, s, query, d, draw, now) == (FailurePage(400), s)
  {
    var pairs := ParseForm(cfg.lossy, query);
    var state := FirstValue(pairs, "state");
    if state.Some? && |state.value| <= 256 {
      if state.value in s.txs { IsForExact(pairs, s, s.txs[state.value]); }
      assert TakeTransaction(s, state.value) == s;
    }
  }
}
