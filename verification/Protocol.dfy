/** The provider as one step system. Requests are processes that advance from
    await to await over one authorization store and one dynamic registry; any
    number run at once and their steps interleave freely with sweeps and admin
    operations. Each request keeps the time it was started with; nothing
    relates the times of different requests. */
module Protocol {
  import opened Basics
  import opened Form
  import opened Client
  import opened Registry
  import opened Resolver
  import opened Code
  import opened AuthorizationStore
  import opened Authorize
  import opened Callback
  import opened Token

  datatype Process =
    | AuthorizeProcess(authorize: Phase)
    | CallbackProcess(callback: CallbackPhase)
    | TokenProcess(token: TokenPhase)

  /** Everything outside the program that one step may depend on. */
  datatype Input = Input(
    fault: Fault, drawA: Bytes32, drawB: Bytes32,
    discordToken: Option<string>, discordUser: Option<string>, member: MemberReply, signed: bool)

  datatype Action =
    | StartAuthorize(query: string, now: int)
    | StartCallback(query: string, now: int)
    | StartToken(body: string, header: Option<string>, now: int)
    | Advance(pid: nat, input: Input)
    | SweepStore(now: int)
    | Administer(op: AdminOp)

  /** One entry per step. */
  datatype Event =
    | Quiet
    | Proceeded(pid: nat, pairs: Pairs, client: ClientConfig, v: Validated, tx: Transaction, records: Records, now: int)
    | Refused(pid: nat, pairs: Pairs, client: ClientConfig, answer: Response, records: Records, now: int)
    | TxStored(pid: nat, pairs: Pairs, client: ClientConfig, v: Validated, tx: Transaction, now: int)
    | TxTaken(pid: nat, tx: Transaction, now: int)
    | TxExpired(pid: nat, tx: Transaction, now: int)
    | ClientResolved(pid: nat, tx: Transaction, client: ClientConfig, records: Records, now: int)
    | DiscordExchanged(pid: nat, tx: Transaction, client: ClientConfig, reply: Option<string>, now: int)
    | UserFetched(pid: nat, tx: Transaction, client: ClientConfig, token: string, user: string, now: int)
    | MemberConfirmed(pid: nat, tx: Transaction, client: ClientConfig, token: string, user: string, guild: string,
                      now: int)
    | CodeStored(pid: nat, tx: Transaction, client: ClientConfig, token: string, user: string, draw: Bytes32,
                 record: StoredCode, overwrote: bool, now: int)
    | ClientFound(pid: nat, client: ClientConfig, records: Records, now: int)
    | ClientAuthenticated(pid: nat, client: ClientConfig, records: Records, secret: Option<string>, now: int)
    | CodeConsumed(pid: nat, client: ClientConfig, check: ExchangeCheck, record: StoredCode, lost: bool, now: int)
    | CodeExpired(pid: nat, client: ClientConfig, record: StoredCode, now: int)
    | TokenIssued(pid: nat, client: ClientConfig, check: ExchangeCheck, record: StoredCode, resp: TokenResponse,
                  now: int)
    | SigningFailed(pid: nat, client: ClientConfig, check: ExchangeCheck, record: StoredCode, now: int)
    | StoreSwept(codes: map<string, StoredCode>, now: int)
    | RegistryChanged(op: AdminOp)

  /** A browser sent to a client's URI: by the callback request `pid` for
      transaction `tx`, or with an error by the `/authorize` request `pid`. */
  datatype Redirect =
    | FromCallback(pid: nat, tx: Transaction, resp: CallbackResponse, now: int)
    | FromAuthorize(pid: nat, client: ClientConfig, answer: Response, now: int)

  datatype State = State(
    store: Store, records: Records, procs: seq<Process>, log: seq<Event>, redirects: seq<Redirect>)

  const INIT := State(Store.Store(map[], map[]), map[], [], [], [])

  // ---------- Steps ----------

  function FindReplyFor(cfg: Config, records: Records, id: string, fault: Fault): FindReply {
    if fault != Delivered && ReadsRegistry(cfg, id) then RegistryFailure else Resolved(FindClient(cfg, records, id))
  }

  function AdvanceAuthorize(cfg: Config, s: State, pid: nat, p: Phase, i: Input): (Phase, Store, Event) {
    match p
    case Finding(pairs, id, now) =>
      var reply := FindReplyFor(cfg, s.records, id, i.fault);
      var q := AfterFind(pairs, reply, i.drawA, i.drawB, now);
      (q, s.store,
       if q.Storing? then Proceeded(pid, pairs, q.client, q.v, q.tx, s.records, now)
       else if q.Finished? && q.resp.ErrorToClient? && reply.Resolved? && reply.client.Some? then
         Refused(pid, pairs, reply.client.value, q.resp, s.records, now)
       else Quiet)
    case Storing(pairs, client, v, tx, now) =>
      var q := AfterStore(v, tx, i.fault == Delivered);
      if i.fault == LostRequest then (q, s.store, Quiet)
      else (q, PutTransaction(s.store, tx), TxStored(pid, pairs, client, v, tx, now))
    case Finished(_) => (p, s.store, Quiet)
  }

  function AdvanceCallback(cfg: Config, s: State, pid: nat, p: CallbackPhase, i: Input): (CallbackPhase, Store, Event) {
    match p
    case Taking(state, code, error, now) =>
      var reply := if i.fault == Delivered then Some(TakeReply(s.store, state, now)) else None;
      var q := AfterTake(reply, code, error, now);
      (q, if i.fault == LostRequest then s.store else TakeTransaction(s.store, state),
       if q.Resolving? then TxTaken(pid, q.tx, now)
       else if reply.Some? && reply.value.Stale? then TxExpired(pid, reply.value.tx, now)
       else Quiet)
    case Resolving(tx, code, error, now) =>
      var reply := FindReplyFor(cfg, s.records, tx.clientId, i.fault);
      var found := reply.Resolved? && reply.client.Some? && tx.redirectUri in reply.client.value.redirectUris;
      (AfterResolve(tx, reply, code, error, now), s.store,
       if found then ClientResolved(pid, tx, reply.client.value, s.records, now) else Quiet)
    case Exchanging(tx, client, _, now) =>
      (AfterExchange(tx, client, i.discordToken, now), s.store, DiscordExchanged(pid, tx, client, i.discordToken, now))
    case FetchingUser(tx, client, token, now) =>
      var q := AfterUser(tx, client, token, i.discordUser, now);
      (q, s.store, if q.CheckingMember? then UserFetched(pid, tx, client, token, q.user, now) else Quiet)
    case CheckingMember(tx, client, token, user, now) =>
      var q := AfterMember(cfg.sha, tx, client, token, user, i.member, i.drawA, now);
      (q, s.store, if q.StoringCode? then MemberConfirmed(pid, tx, client, token, user, cfg.guild, now) else Quiet)
    case StoringCode(tx, client, token, user, draw, record, now) =>
      var q := AfterPut(tx, draw, i.fault == Delivered);
      if i.fault == LostRequest then (q, s.store, Quiet)
      else (q, PutCode(s.store, record),
            CodeStored(pid, tx, client, token, user, draw, record, record.codeHash in s.store.codes, now))
    case Answered(_) => (p, s.store, Quiet)
  }

  function AuthenticationEvent(pid: nat, q: TokenPhase, records: Records, secret: Option<string>, now: int): Event {
    if q.Consuming? then ClientAuthenticated(pid, q.client, records, secret, now)
    else if q.VerifyingSecret? then ClientFound(pid, q.client, records, now)
    else Quiet
  }

  function AdvanceToken(cfg: Config, s: State, pid: nat, p: TokenPhase, i: Input): (TokenPhase, Store, Event) {
    match p
    case FindingClient(pairs, cred, now) =>
      var q := AfterFindClient(cfg.sha, pairs, cred, FindReplyFor(cfg, s.records, cred.id, i.fault), now);
      (q, s.store, AuthenticationEvent(pid, q, s.records, None, now))
    case VerifyingSecret(pairs, client, id, secret, now) =>
      var reply := if i.fault != Delivered && ReadsRegistry(cfg, id) then None
                   else Some(VerifyClientSecret(cfg, s.records, id, secret, now));
      var q := AfterVerify(cfg.sha, pairs, client, reply, now);
      (q, s.store, AuthenticationEvent(pid, q, s.records, Some(secret), now))
    case Consuming(client, hash, check, now) =>
      var reply := ConsumeReply(cfg.sha, s.store, hash, check, now);
      var q := AfterConsume(client, check, if i.fault == Delivered then Some(reply) else None, now);
      if i.fault == LostRequest then (q, s.store, Quiet)
      else (q, ConsumeCode(cfg.sha, s.store, hash, check, now),
            if reply.Consumed? then CodeConsumed(pid, client, check, reply.record, i.fault == LostReply, now)
            else if reply == Denied(Expired) then CodeExpired(pid, client, s.store.codes[hash], now)
            else Quiet)
    case Signing(client, check, record, now) =>
      var q := AfterSign(cfg, client, record, i.drawA, i.signed, now);
      (q, s.store,
       if q.Responded? && q.resp.TokenOk? then TokenIssued(pid, client, check, record, q.resp, now)
       else SigningFailed(pid, client, check, record, now))
    case Responded(_) => (p, s.store, Quiet)
  }

  function AdvanceProcess(cfg: Config, s: State, pid: nat, i: Input): (Process, Store, Event)
    requires pid < |s.procs|
  {
    match s.procs[pid]
    case AuthorizeProcess(p) =>
      var (q, store, e) := AdvanceAuthorize(cfg, s, pid, p, i);
      (AuthorizeProcess(q), store, e)
    case CallbackProcess(p) =>
      var (q, store, e) := AdvanceCallback(cfg, s, pid, p, i);
      (CallbackProcess(q), store, e)
    case TokenProcess(p) =>
      var (q, store, e) := AdvanceToken(cfg, s, pid, p, i);
      (TokenProcess(q), store, e)
  }

  /** The transaction a callback step acts on: the one its request holds, or
      the expired one it has just taken. */
  function TransactionOf(p: CallbackPhase, e: Event): Option<Transaction> {
    match p
    case Taking(_, _, _, _) => if e.TxExpired? then Some(e.tx) else None
    case Answered(_) => None
    case _ => Some(p.tx)
  }

  /** The redirect to a client, if any, with which a step ends its request. */
  function RedirectOf(pid: nat, before: Process, after: Process, e: Event): seq<Redirect> {
    if e.Refused? then [FromAuthorize(pid, e.client, e.answer, e.now)]
    else if before.CallbackProcess? && after.CallbackProcess? && after.callback.Answered?
            && !after.callback.resp.FailurePage? && TransactionOf(before.callback, e).Some?
    then [FromCallback(pid, TransactionOf(before.callback, e).value, after.callback.resp, before.callback.now)]
    else []
  }

  function Spawn(s: State, p: Process): State { s.(procs := s.procs + [p], log := s.log + [Quiet]) }

  /** One step. An action that cannot happen changes nothing. */
  ghost function Step(cfg: Config, s: State, a: Action): State {
    match a
    case StartAuthorize(query, now) => Spawn(s, AuthorizeProcess(Begin(cfg.lossy, query, now)))
    case StartCallback(query, now) => Spawn(s, CallbackProcess(BeginCallback(cfg.lossy, query, now)))
    case StartToken(body, header, now) => Spawn(s, TokenProcess(BeginToken(cfg.lossy, body, header, now)))
    case Advance(pid, i) =>
      if pid < |s.procs| then
        var (p, store, e) := AdvanceProcess(cfg, s, pid, i);
        State(store, s.records, s.procs[pid := p], s.log + [e], s.redirects + RedirectOf(pid, s.procs[pid], p, e))
      else s.(log := s.log + [Quiet])
    case SweepStore(now) =>
      s.(store := Sweep(s.store, now), log := s.log + [StoreSwept(ExpiredCodes(s.store, now), now)])
    case Administer(op) =>
      if Permitted(cfg, op) then s.(records := Administered(s.records, op), log := s.log + [RegistryChanged(op)])
      else s.(log := s.log + [Quiet])
  }

  predicate IsStart(a: Action) { a.StartAuthorize? || a.StartCallback? || a.StartToken? }

  /** A request that has been answered. */
  predicate IsOver(p: Process) {
    match p
    case AuthorizeProcess(q) => q.Finished?
    case CallbackProcess(q) => q.Answered?
    case TokenProcess(q) => q.Responded?
  }

  /** A request that has not gone beyond its first await. */
  predicate IsFresh(p: Process) {
    match p
    case AuthorizeProcess(q) => q.Finding? || q.Finished?
    case CallbackProcess(q) => q.Taking? || q.Answered?
    case TokenProcess(q) => q.FindingClient? || q.Responded?
  }

  lemma StartStep(cfg: Config, s: State, a: Action) returns (p: Process)
    requires IsStart(a)
    ensures Step(cfg, s, a) == Spawn(s, p) && IsFresh(p)
  {
    match a {
      case StartAuthorize(query, now) => p := AuthorizeProcess(Begin(cfg.lossy, query, now));
      case StartCallback(query, now) => p := CallbackProcess(BeginCallback(cfg.lossy, query, now));
      case StartToken(body, header, now) => p := TokenProcess(BeginToken(cfg.lossy, body, header, now));
    }
  }

  /** Neither the start nor a step of a request. */
  predicate IsSystem(s: State, a: Action) { !IsStart(a) && !(a.Advance? && a.pid < |s.procs|) }

  ghost function SystemEvent(cfg: Config, s: State, a: Action): Event {
    match a
    case SweepStore(now) => StoreSwept(ExpiredCodes(s.store, now), now)
    case Administer(op) => if Permitted(cfg, op) then RegistryChanged(op) else Quiet
    case _ => Quiet
  }

  lemma SystemStep(cfg: Config, s: State, a: Action)
    requires IsSystem(s, a)
    ensures var s' := Step(cfg, s, a);
            && s'.procs == s.procs && s'.redirects == s.redirects && s'.log == s.log + [SystemEvent(cfg, s, a)]
            && s'.store == if a.SweepStore? then Sweep(s.store, a.now) else s.store
  {
  }

  ghost function Run(cfg: Config, s: State, actions: seq<Action>): State
    decreases |actions|
  {
    if actions == [] then s else Run(cfg, Step(cfg, s, actions[0]), actions[1..])
  }

  /** The state after the first `k` actions. */
  ghost function At(cfg: Config, s: State, actions: seq<Action>, k: nat): State
    requires k <= |actions|
  {
    Run(cfg, s, actions[..k])
  }

  lemma {:induction false} RunConcat(cfg: Config, s: State, a: seq<Action>, b: seq<Action>)
    ensures Run(cfg, s, a + b) == Run(cfg, Run(cfg, s, a), b)
    decreases |a|
  {
    if a == [] {
      assert a + b == b;
    } else {
      assert (a + b)[1..] == a[1..] + b;
      RunConcat(cfg, Step(cfg, s, a[0]), a[1..], b);
    }
  }

  lemma RunSnoc(cfg: Config, s: State, actions: seq<Action>, k: nat)
    requires k < |actions|
    ensures At(cfg, s, actions, k + 1) == Step(cfg, At(cfg, s, actions, k), actions[k])
  {
    assert actions[..k + 1] == actions[..k] + [actions[k]];
    RunConcat(cfg, s, actions[..k], [actions[k]]);
    var t := Run(cfg, s, actions[..k]);
    assert [actions[k]][1..] == [];
    assert Run(cfg, t, [actions[k]]) == Run(cfg, Step(cfg, t, actions[k]), []);
  }

  /** A run only adds to the log and starts processes; it removes none. */
  lemma {:induction false} RunGrows(cfg: Config, s: State, actions: seq<Action>)
    ensures |s.log| <= |Run(cfg, s, actions).log| && Run(cfg, s, actions).log[..|s.log|] == s.log
    ensures |s.procs| <= |Run(cfg, s, actions).procs|
    ensures s.redirects <= Run(cfg, s, actions).redirects
    decreases |actions|
  {
    if actions != [] {
      var s1 := Step(cfg, s, actions[0]);
      RunGrows(cfg, s1, actions[1..]);
      assert s1.log[..|s.log|] == s.log;
      assert Run(cfg, s1, actions[1..]).log[..|s.log|] == Run(cfg, s1, actions[1..]).log[..|s1.log|][..|s.log|];
    }
  }

  lemma EntryStays(cfg: Config, s: State, before: seq<Action>, after: seq<Action>, n: nat)
    requires n < |Run(cfg, s, before).log|
    ensures n < |Run(cfg, s, before + after).log| && Run(cfg, s, before + after).log[n] == Run(cfg, s, before).log[n]
  {
    var mid := Run(cfg, s, before);
    RunConcat(cfg, s, before, after);
    RunGrows(cfg, mid, after);
    assert Run(cfg, mid, after).log[..|mid.log|][n] == mid.log[n];
  }

  /** The log has one entry per step, in order: entry `k` is what action `k`
      added in the state the earlier actions led to. */
  lemma EventOfAction(cfg: Config, s: State, actions: seq<Action>, k: nat)
    requires k < |actions|
    ensures |Run(cfg, s, actions).log| == |s.log| + |actions|
    ensures var before := At(cfg, s, actions, k);
            && |before.log| == |s.log| + k
            && Run(cfg, s, actions).log[|s.log| + k] == Step(cfg, before, actions[k]).log[|s.log| + k]
  {
    LogLength(cfg, s, actions);
    LogLength(cfg, s, actions[..k]);
    LogLength(cfg, s, actions[..k + 1]);
    RunSnoc(cfg, s, actions, k);
    EntryStays(cfg, s, actions[..k + 1], actions[k + 1..], |s.log| + k);
    assert actions == actions[..k + 1] + actions[k + 1..];
  }

  lemma {:induction false} LogLength(cfg: Config, s: State, actions: seq<Action>)
    ensures |Run(cfg, s, actions).log| == |s.log| + |actions|
    decreases |actions|
  {
    if actions != [] { LogLength(cfg, Step(cfg, s, actions[0]), actions[1..]); }
  }

  ghost predicate InPhase(s: State, pid: nat, p: Process) { pid < |s.procs| && s.procs[pid] == p }

  // ---------- Runs as the states they pass through ----------

  ghost predicate Follows(cfg: Config, trace: seq<State>, actions: seq<Action>, k: nat)
    requires k < |actions| && |trace| == |actions| + 1
  {
    trace[k + 1] == Step(cfg, trace[k], actions[k])
  }

  /** `trace[k]` is the state before action `k`. */
  ghost predicate IsTrace(cfg: Config, trace: seq<State>, actions: seq<Action>) {
    |trace| == |actions| + 1 && forall k :: 0 <= k < |actions| ==> Follows(cfg, trace, actions, k)
  }

  /** Every run has exactly its trace. */
  lemma {:induction false} TraceOfRun(cfg: Config, trace: seq<State>, actions: seq<Action>, k: nat)
    requires IsTrace(cfg, trace, actions) && k <= |actions|
    ensures trace[k] == At(cfg, trace[0], actions, k)
  {
    if k > 0 {
      TraceOfRun(cfg, trace, actions, k - 1);
      RunSnoc(cfg, trace[0], actions, k - 1);
      assert Follows(cfg, trace, actions, k - 1);
    }
  }

  lemma RunHasTrace(cfg: Config, s: State, actions: seq<Action>) returns (trace: seq<State>)
    ensures IsTrace(cfg, trace, actions) && trace[0] == s && trace[|actions|] == Run(cfg, s, actions)
  {
    trace := seq(|actions| + 1, k requires 0 <= k <= |actions| => At(cfg, s, actions, k));
    forall k | 0 <= k < |actions| ensures Follows(cfg, trace, actions, k) {
      RunSnoc(cfg, s, actions, k);
    }
    assert actions[..0] == [] && actions[..|actions|] == actions;
  }
}
