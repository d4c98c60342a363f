/** Single use over all interleaved runs, by conservation: every stored code is
    accounted for, and so is every consumed one. Nothing is assumed about the
    freshness of the draws; the accounts are kept per hash. */
module SingleUse {
  import opened AuthorizationStore
  import opened Resolver
  import opened Callback
  import opened Authorize
  import opened Token
  import opened Protocol
  import opened Provenance

  function Count<T>(xs: seq<T>, p: T -> bool): nat {
    if xs == [] then 0 else Count(xs[..|xs| - 1], p) + (if p(xs[|xs| - 1]) then 1 else 0)
  }

  lemma CountAppend<T>(xs: seq<T>, x: T, p: T -> bool)
    ensures Count(xs + [x], p) == Count(xs, p) + (if p(x) then 1 else 0)
  {
    assert (xs + [x])[..|xs|] == xs;
  }

  lemma {:induction false} CountUpdate<T>(xs: seq<T>, i: nat, x: T, p: T -> bool)
    requires i < |xs|
    ensures Count(xs[i := x], p) + (if p(xs[i]) then 1 else 0) == Count(xs, p) + (if p(x) then 1 else 0)
  {
    var n := |xs| - 1;
    if i < n {
      CountUpdate(xs[..n], i, x, p);
      assert xs[i := x][..n] == xs[..n][i := x];
    } else {
      assert xs[i := x][..n] == xs[..n];
    }
  }

  lemma {:induction false} CountTwo<T>(xs: seq<T>, i: nat, j: nat, p: T -> bool)
    requires i <= j < |xs| && p(xs[i]) && p(xs[j])
    ensures Count(xs, p) >= if i < j then 2 else 1
  {
    var n := |xs| - 1;
    if j < n {
      CountTwo(xs[..n], i, j, p);
    } else if i < n {
      CountTwo(xs[..n], i, i, p);
    }
  }

  /** A count of two has two places. */
  lemma {:induction false} CountPlaces<T>(xs: seq<T>, p: T -> bool) returns (i: nat, j: nat)
    requires Count(xs, p) >= 1
    ensures i <= j < |xs| && p(xs[i]) && p(xs[j])
    ensures Count(xs, p) >= 2 ==> i < j
  {
    var n := |xs| - 1;
    if !p(xs[n]) {
      i, j := CountPlaces(xs[..n], p);
    } else if Count(xs[..n], p) >= 1 {
      i, j := CountPlaces(xs[..n], p);
      j := n;
    } else {
      i, j := n, n;
    }
  }

  // ---------- Codes ----------

  function Put(h: string): Event -> bool { (e: Event) => e.CodeStored? && e.record.codeHash == h }
  function Overwritten(h: string): Event -> bool {
    (e: Event) => e.CodeStored? && e.record.codeHash == h && e.overwrote
  }
  function Consumption(h: string): Event -> bool { (e: Event) => e.CodeConsumed? && e.record.codeHash == h }
  function ConsumedLost(h: string): Event -> bool { (e: Event) => e.CodeConsumed? && e.record.codeHash == h && e.lost }
  function ExpiredOnUse(h: string): Event -> bool { (e: Event) => e.CodeExpired? && e.record.codeHash == h }
  function Swept(h: string): Event -> bool { (e: Event) => e.StoreSwept? && h in e.codes }
  function Issued(h: string): Event -> bool { (e: Event) => e.TokenIssued? && e.record.codeHash == h }
  function SignerFailed(h: string): Event -> bool { (e: Event) => e.SigningFailed? && e.record.codeHash == h }

  /** Requests that have consumed the code and not signed yet. */
  function AtSigner(h: string): Process -> bool {
    (p: Process) => p.TokenProcess? && p.token.Signing? && p.token.record.codeHash == h
  }

  function LiveCodes(s: Store, h: string): nat { if h in s.codes then 1 else 0 }

  ghost predicate StoredAccount(s: State, h: string) {
    Count(s.log, Put(h))
      == Count(s.log, Consumption(h)) + Count(s.log, ExpiredOnUse(h)) + Count(s.log, Swept(h)) + Count(s.log,
        Overwritten(h))
         + LiveCodes(s.store, h)
  }

  ghost predicate ConsumedAccount(s: State, h: string) {
    Count(s.log, Consumption(h))
      == Count(s.log, Issued(h)) + Count(s.log, SignerFailed(h)) + Count(s.log, ConsumedLost(h)) + Count(s.procs,
        AtSigner(h))
  }

  function One(b: bool): nat { if b then 1 else 0 }

  /** What one event does to each account. */
  ghost predicate StoredDelta(e: Event, before: Store, after: Store, h: string) {
    LiveCodes(before, h) + One(Put(h)(e))
      == LiveCodes(after, h) + One(Consumption(h)(e)) + One(ExpiredOnUse(h)(e)) + One(Swept(h)(e))
         + One(Overwritten(h)(e))
  }

  ghost predicate ConsumedDelta(e: Event, before: Process, after: Process, h: string) {
    One(AtSigner(h)(before)) + One(Consumption(h)(e))
      == One(AtSigner(h)(after)) + One(Issued(h)(e)) + One(SignerFailed(h)(e)) + One(ConsumedLost(h)(e))
  }

  lemma StoredMoves(s: State, s': State, e: Event, h: string)
    requires StoredAccount(s, h) && s'.log == s.log + [e] && StoredDelta(e, s.store, s'.store, h)
    ensures StoredAccount(s', h)
  {
    CountAppend(s.log, e, Put(h));
    CountAppend(s.log, e, Consumption(h));
    CountAppend(s.log, e, ExpiredOnUse(h));
    CountAppend(s.log, e, Swept(h));
    CountAppend(s.log, e, Overwritten(h));
  }

  lemma ConsumedMoves(s: State, s': State, e: Event, pid: nat, h: string)
    requires ConsumedAccount(s, h) && s'.log == s.log + [e] && pid < |s.procs|
    requires |s'.procs| == |s.procs| && s'.procs == s.procs[pid := s'.procs[pid]]
    requires ConsumedDelta(e, s.procs[pid], s'.procs[pid], h)
    ensures ConsumedAccount(s', h)
  {
    CountAppend(s.log, e, Consumption(h));
    CountAppend(s.log, e, Issued(h));
    CountAppend(s.log, e, SignerFailed(h));
    CountAppend(s.log, e, ConsumedLost(h));
    CountUpdate(s.procs, pid, s'.procs[pid], AtSigner(h));
  }

  lemma ConsumingDeltas(cfg: Config, s: State, pid: nat, p: TokenPhase, i: Input, h: string)
    requires StoreOk(s.log, s.store) && p.Consuming?
    ensures var (q, store, e) := AdvanceToken(cfg, s, pid, p, i);
            StoredDelta(e, s.store, store, h) && ConsumedDelta(e, TokenProcess(p), TokenProcess(q), h)
  {
    ConsumeExact(cfg.sha, s.store, p.hash, p.check, p.now);
  }

  lemma SigningDeltas(cfg: Config, s: State, pid: nat, p: TokenPhase, i: Input, h: string)
    requires p.Signing?
    ensures var (q, store, e) := AdvanceToken(cfg, s, pid, p, i);
            StoredDelta(e, s.store, store, h) && ConsumedDelta(e, TokenProcess(p), TokenProcess(q), h)
  {
  }

  lemma LoginDeltas(cfg: Config, s: State, pid: nat, p: TokenPhase, i: Input, h: string)
    requires p.FindingClient? || p.VerifyingSecret? || p.Responded?
    ensures var (q, store, e) := AdvanceToken(cfg, s, pid, p, i);
            StoredDelta(e, s.store, store, h) && ConsumedDelta(e, TokenProcess(p), TokenProcess(q), h)
  {
  }

  lemma AuthorizeDeltas(cfg: Config, s: State, pid: nat, p: Phase, i: Input, h: string)
    ensures var (q, store, e) := AdvanceAuthorize(cfg, s, pid, p, i);
            StoredDelta(e, s.store, store, h) && ConsumedDelta(e, AuthorizeProcess(p), AuthorizeProcess(q), h)
  {
  }

  lemma CallbackDeltas(cfg: Config, s: State, pid: nat, p: CallbackPhase, i: Input, h: string)
    ensures var (q, store, e) := AdvanceCallback(cfg, s, pid, p, i);
            StoredDelta(e, s.store, store, h) && ConsumedDelta(e, CallbackProcess(p), CallbackProcess(q), h)
  {
  }

  lemma AdvanceDeltas(cfg: Config, s: State, pid: nat, i: Input, h: string)
    requires StoreOk(s.log, s.store) && pid < |s.procs|
    ensures var (q, store, e) := AdvanceProcess(cfg, s, pid, i);
            StoredDelta(e, s.store, store, h) && ConsumedDelta(e, s.procs[pid], q, h)
  {
    match s.procs[pid] {
      case AuthorizeProcess(p) => AuthorizeDeltas(cfg, s, pid, p, i, h);
      case CallbackProcess(p) => CallbackDeltas(cfg, s, pid, p, i, h);
      case TokenProcess(p) =>
        if p.Consuming? { ConsumingDeltas(cfg, s, pid, p, i, h); }
        else if p.Signing? { SigningDeltas(cfg, s, pid, p, i, h); }
        else { LoginDeltas(cfg, s, pid, p, i, h); }
    }
  }

  lemma SpawnAccounts(s: State, p: Process, h: string)
    requires StoredAccount(s, h) && ConsumedAccount(s, h) && !AtSigner(h)(p)
    ensures StoredAccount(Spawn(s, p), h) && ConsumedAccount(Spawn(s, p), h)
  {
    StoredMoves(s, Spawn(s, p), Quiet, h);
    LogMoves(s, Spawn(s, p), Quiet, h);
    CountAppend(s.procs, p, AtSigner(h));
  }

  lemma LogMoves(s: State, s': State, e: Event, h: string)
    requires s'.log == s.log + [e] && !e.CodeConsumed? && !e.TokenIssued? && !e.SigningFailed?
    ensures Count(s'.log, Consumption(h)) == Count(s.log, Consumption(h))
    ensures Count(s'.log, Issued(h)) == Count(s.log, Issued(h))
    ensures Count(s'.log, SignerFailed(h)) == Count(s.log, SignerFailed(h))
    ensures Count(s'.log, ConsumedLost(h)) == Count(s.log, ConsumedLost(h))
  {
    CountAppend(s.log, e, Consumption(h));
    CountAppend(s.log, e, Issued(h));
    CountAppend(s.log, e, SignerFailed(h));
    CountAppend(s.log, e, ConsumedLost(h));
  }

  lemma StillAccounts(s: State, s': State, e: Event, h: string)
    requires StoredAccount(s, h) && ConsumedAccount(s, h)
    requires s'.log == s.log + [e] && s'.procs == s.procs && !e.CodeConsumed? && !e.TokenIssued? && !e.SigningFailed?
    requires StoredDelta(e, s.store, s'.store, h)
    ensures StoredAccount(s', h) && ConsumedAccount(s', h)
  {
    StoredMoves(s, s', e, h);
    LogMoves(s, s', e, h);
  }

  lemma StepAccounts(cfg: Config, s: State, a: Action, h: string)
    requires Inv(cfg, s) && StoredAccount(s, h) && ConsumedAccount(s, h)
    ensures StoredAccount(Step(cfg, s, a), h) && ConsumedAccount(Step(cfg, s, a), h)
  {
    if IsStart(a) {
      var p := StartStep(cfg, s, a);
      SpawnAccounts(s, p, h);
    } else if IsSystem(s, a) {
      SystemStep(cfg, s, a);
      StillAccounts(s, Step(cfg, s, a), SystemEvent(cfg, s, a), h);
    } else {
      AdvanceAccounts(cfg, s, a.pid, a.input, h);
    }
  }

  lemma AdvanceAccounts(cfg: Config, s: State, pid: nat, i: Input, h: string)
    requires StoreOk(s.log, s.store) && pid < |s.procs| && StoredAccount(s, h) && ConsumedAccount(s, h)
    ensures StoredAccount(Step(cfg, s, Advance(pid, i)), h) && ConsumedAccount(Step(cfg, s, Advance(pid, i)), h)
  {
    var (q, store, e) := AdvanceProcess(cfg, s, pid, i);
    AdvanceDeltas(cfg, s, pid, i, h);
    StoredMoves(s, Step(cfg, s, Advance(pid, i)), e, h);
    ConsumedMoves(s, Step(cfg, s, Advance(pid, i)), e, pid, h);
  }

  lemma {:induction false} RunAccounts(cfg: Config, s: State, actions: seq<Action>, h: string)
    requires Inv(cfg, s) && StoredAccount(s, h) && ConsumedAccount(s, h)
    ensures StoredAccount(Run(cfg, s, actions), h) && ConsumedAccount(Run(cfg, s, actions), h)
    decreases |actions|
  {
    if actions != [] {
      StepKeepsInv(cfg, s, actions[0]);
      StepAccounts(cfg, s, actions[0], h);
      RunAccounts(cfg, Step(cfg, s, actions[0]), actions[1..], h);
    }
  }

  /** In every interleaved run and for every hash, the puts are exactly the
      tokens issued, the signer failures, the consumptions whose answer was
      lost, the requests still before the signer, the expired and swept
      records, the overwritten ones, and the one still live. */
  lemma CodesAreConserved(cfg: Config, actions: seq<Action>, h: string)
    ensures var s := Run(cfg, INIT, actions);
            Count(s.log, Put(h))
              == Count(s.log, Issued(h)) + Count(s.log, SignerFailed(h)) + Count(s.log,
                ConsumedLost(h)) + Count(s.procs, AtSigner(h))
                 + Count(s.log, ExpiredOnUse(h)) + Count(s.log, Swept(h)) + Count(s.log, Overwritten(h))
                 + (if h in s.store.codes then 1 else 0)
  {
    InvInit(cfg);
    RunAccounts(cfg, INIT, actions, h);
  }

  /** Single use: two tokens for one hash mean that a code with that hash was
      stored twice. */
  lemma TwoTokensTwoCodes(cfg: Config, actions: seq<Action>, a: nat, b: nat) returns (i: nat, j: nat)
    requires var log := Run(cfg, INIT, actions).log;
             a < b < |log| && log[a].TokenIssued? && log[b].TokenIssued?
               && log[a].record.codeHash == log[b].record.codeHash
    ensures var log := Run(cfg, INIT, actions).log;
            && i < j < |log| && log[i].CodeStored? && log[j].CodeStored?
            && log[i].record.codeHash == log[j].record.codeHash == log[a].record.codeHash
  {
    var log, h := Run(cfg, INIT, actions).log, Run(cfg, INIT, actions).log[a].record.codeHash;
    CodesAreConserved(cfg, actions, h);
    CountTwo(log, a, b, Issued(h));
    i, j := CountPlaces(log, Put(h));
  }

  // ---------- Transactions ----------

  function TxPut(d: string): Event -> bool { (e: Event) => e.TxStored? && e.tx.discordState == d }
  function CodeFor(d: string): Event -> bool { (e: Event) => e.CodeStored? && e.tx.discordState == d }

  /** Callbacks that hold the transaction and have not answered. */
  function Holds(d: string): Process -> bool {
    (p: Process) => p.CallbackProcess? && !p.callback.Taking? && !p.callback.Answered?
      && p.callback.tx.discordState == d
  }

  ghost predicate TransactionAccount(s: State, d: string) {
    Count(s.log, CodeFor(d)) + Count(s.procs, Holds(d)) + One(d in s.store.txs) <= Count(s.log, TxPut(d))
  }

  lemma CallbackDelta(cfg: Config, s: State, pid: nat, p: CallbackPhase, i: Input, d: string)
    requires StoreOk(s.log, s.store)
    ensures var (q, store, e) := AdvanceCallback(cfg, s, pid, p, i);
            && !TxPut(d)(e)
            && One(CodeFor(d)(e)) + One(Holds(d)(CallbackProcess(q))) + One(d in store.txs)
                 <= One(Holds(d)(CallbackProcess(p))) + One(d in s.store.txs)
  {
  }

  lemma TransactionDelta(cfg: Config, s: State, pid: nat, i: Input, d: string)
    requires StoreOk(s.log, s.store) && pid < |s.procs|
    ensures var (q, store, e) := AdvanceProcess(cfg, s, pid, i);
            One(CodeFor(d)(e)) + One(Holds(d)(q)) + One(d in store.txs)
              <= One(TxPut(d)(e)) + One(Holds(d)(s.procs[pid])) + One(d in s.store.txs)
  {
    match s.procs[pid] {
      case AuthorizeProcess(p) =>
      case CallbackProcess(p) => CallbackDelta(cfg, s, pid, p, i, d);
      case TokenProcess(p) =>
    }
  }

  lemma TransactionMoves(s: State, s': State, e: Event, d: string)
    requires TransactionAccount(s, d) && s'.log == s.log + [e]
    requires Count(s.log, CodeFor(d)) + One(CodeFor(d)(e)) + Count(s'.procs, Holds(d)) + One(d in s'.store.txs)
          <= Count(s.log, TxPut(d)) + One(TxPut(d)(e))
    ensures TransactionAccount(s', d)
  {
    CountAppend(s.log, e, TxPut(d));
    CountAppend(s.log, e, CodeFor(d));
  }

  lemma AdvanceTransactionAccount(cfg: Config, s: State, pid: nat, i: Input, d: string)
    requires StoreOk(s.log, s.store) && pid < |s.procs| && TransactionAccount(s, d)
    ensures TransactionAccount(Step(cfg, s, Advance(pid, i)), d)
  {
    var (q, store, e) := AdvanceProcess(cfg, s, pid, i);
    TransactionDelta(cfg, s, pid, i, d);
    CountUpdate(s.procs, pid, q, Holds(d));
    TransactionMoves(s, Step(cfg, s, Advance(pid, i)), e, d);
  }

  lemma StepTransactionAccount(cfg: Config, s: State, a: Action, d: string)
    requires Inv(cfg, s) && TransactionAccount(s, d)
    ensures TransactionAccount(Step(cfg, s, a), d)
  {
    if IsStart(a) {
      var p := StartStep(cfg, s, a);
      CountAppend(s.procs, p, Holds(d));
      TransactionMoves(s, Spawn(s, p), Quiet, d);
    } else if IsSystem(s, a) {
      SystemStep(cfg, s, a);
      TransactionMoves(s, Step(cfg, s, a), SystemEvent(cfg, s, a), d);
    } else {
      AdvanceTransactionAccount(cfg, s, a.pid, a.input, d);
    }
  }

  /** One authorization, one code: in every interleaved run, as many codes at
      most are stored for a Discord state as transactions were. */
  lemma {:induction false} CodesPerTransaction(cfg: Config, s: State, actions: seq<Action>, d: string)
    requires Inv(cfg, s) && TransactionAccount(s, d)
    ensures TransactionAccount(Run(cfg, s, actions), d)
    decreases |actions|
  {
    if actions != [] {
      StepKeepsInv(cfg, s, actions[0]);
      StepTransactionAccount(cfg, s, actions[0], d);
      CodesPerTransaction(cfg, Step(cfg, s, actions[0]), actions[1..], d);
    }
  }

  lemma TwoCodesTwoTransactions(cfg: Config, actions: seq<Action>, a: nat, b: nat) returns (i: nat, j: nat)
    requires var log := Run(cfg, INIT, actions).log;
             a < b < |log| && log[a].CodeStored? && log[b].CodeStored?
               && log[a].tx.discordState == log[b].tx.discordState
    ensures var log := Run(cfg, INIT, actions).log;
            && i < j < |log| && log[i].TxStored? && log[j].TxStored?
            && log[i].tx.discordState == log[j].tx.discordState == log[a].tx.discordState
  {
    var log, d := Run(cfg, INIT, actions).log, Run(cfg, INIT, actions).log[a].tx.discordState;
    InvInit(cfg);
    CodesPerTransaction(cfg, INIT, actions, d);
    CountTwo(log, a, b, CodeFor(d));
    i, j := CountPlaces(log, TxPut(d));
  }
}
