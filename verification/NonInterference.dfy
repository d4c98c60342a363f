/** Which steps of the provider can disturb one stored record, exactly, and
    what survives a run without them. */
module NonInterference {
  import opened Basics
  import opened Code
  import opened AuthorizationStore
  import opened Resolver
  import opened Token
  import opened Protocol

  // ---------- Codes ----------

  /** The steps that end code `r`: storing another record under its hash,
      presenting its plaintext with everything matching, and using it or
      sweeping once it has expired. */
  ghost predicate TouchesCode(cfg: Config, s: State, a: Action, r: StoredCode) {
    match a
    case SweepStore(now) => now >= r.expiresAt
    case Advance(pid, i) =>
      pid < |s.procs| && i.fault != LostRequest &&
      (match s.procs[pid]
       case CallbackProcess(StoringCode(_, _, _, _, _, record, _)) => record.codeHash == r.codeHash && record != r
       case TokenProcess(Consuming(_, hash, check, now)) =>
         hash == r.codeHash && (now >= r.expiresAt || FullyMatches(cfg.sha, r, check, now))
       case _ => false)
    case _ => false
  }

  ghost predicate HasCode(s: Store, r: StoredCode) { r.codeHash in s.codes && s.codes[r.codeHash] == r }

  lemma TokenStepKeepsCode(cfg: Config, s: State, pid: nat, p: TokenPhase, i: Input, r: StoredCode)
    requires HasCode(s.store, r) && pid < |s.procs| && s.procs[pid] == TokenProcess(p)
    ensures HasCode(AdvanceToken(cfg, s, pid, p, i).1, r) <==> !TouchesCode(cfg, s, Advance(pid, i), r)
  {
    if p.Consuming? { ConsumeExact(cfg.sha, s.store, p.hash, p.check, p.now); }
  }

  /** One step leaves a stored code as it is exactly when it is none of those. */
  lemma CodeStepExact(cfg: Config, s: State, a: Action, r: StoredCode)
    requires HasCode(s.store, r)
    ensures HasCode(Step(cfg, s, a).store, r) <==> !TouchesCode(cfg, s, a, r)
  {
    if a.Advance? && a.pid < |s.procs| {
      match s.procs[a.pid] {
        case AuthorizeProcess(p) =>
        case CallbackProcess(p) =>
        case TokenProcess(p) => TokenStepKeepsCode(cfg, s, a.pid, p, a.input, r);
      }
    }
  }

  /** No step from `from` up to `to` is one of those. */
  ghost predicate CodeUndisturbed(cfg: Config, trace: seq<State>, actions: seq<Action>, from: nat, to: nat,
                                  r: StoredCode)
    requires |trace| == |actions| + 1 && from <= to <= |actions|
  {
    forall k {:trigger TouchesCode(cfg, trace[k], actions[k], r)} :: from <= k < to ==>
        !TouchesCode(cfg, trace[k], actions[k], r)
  }

  /** Non-interference: however many requests run in between, whatever they
      present, a code is still there, identical, if no step was one of those. */
  lemma {:induction false} CodeSurvives(cfg: Config, trace: seq<State>, actions: seq<Action>, from: nat, to: nat,
                                        r: StoredCode)
    requires IsTrace(cfg, trace, actions) && from <= to <= |actions|
    requires HasCode(trace[from].store, r) && CodeUndisturbed(cfg, trace, actions, from, to, r)
    ensures HasCode(trace[to].store, r)
  {
    if from < to {
      CodeSurvives(cfg, trace, actions, from, to - 1, r);
      assert Follows(cfg, trace, actions, to - 1);
      CodeStepExact(cfg, trace[to - 1], actions[to - 1], r);
    }
  }

  /** That is the exact condition: a code stays in place throughout a run just
      when no step of it is one of those. */
  lemma CodeStaysExactly(cfg: Config, trace: seq<State>, actions: seq<Action>, r: StoredCode)
    requires IsTrace(cfg, trace, actions) && HasCode(trace[0].store, r)
    ensures (forall k :: 0 <= k <= |actions| ==> HasCode(trace[k].store, r))
      <==> CodeUndisturbed(cfg, trace, actions, 0, |actions|, r)
  {
    if CodeUndisturbed(cfg, trace, actions, 0, |actions|, r) {
      forall k | 0 <= k <= |actions| ensures HasCode(trace[k].store, r) {
        CodeSurvives(cfg, trace, actions, 0, k, r);
      }
    }
    if forall k :: 0 <= k <= |actions| ==> HasCode(trace[k].store, r) {
      forall k | 0 <= k < |actions| ensures !TouchesCode(cfg, trace[k], actions[k], r) {
        assert Follows(cfg, trace, actions, k);
        assert HasCode(trace[k].store, r) && HasCode(trace[k + 1].store, r);
        CodeStepExact(cfg, trace[k], actions[k], r);
      }
    }
  }

  /** So the matching exchange that comes after them succeeds. */
  lemma LaterExchangeSucceeds(cfg: Config, trace: seq<State>, actions: seq<Action>, r: StoredCode, pid: nat, i: Input)
    requires IsTrace(cfg, trace, actions) && HasCode(trace[0].store, r)
    requires CodeUndisturbed(cfg, trace, actions, 0, |actions|, r)
    requires var t := trace[|actions|];
             pid < |t.procs| && t.procs[pid].TokenProcess? && t.procs[pid].token.Consuming?
             && t.procs[pid].token.hash == r.codeHash
             && FullyMatches(cfg.sha, r, t.procs[pid].token.check, t.procs[pid].token.now)
    requires i.fault == Delivered
    ensures var t := trace[|actions|];
            var p := t.procs[pid].token;
            Step(cfg, t, Advance(pid, i)).procs[pid] == TokenProcess(Signing(p.client, p.check, r, p.now))
  {
    CodeSurvives(cfg, trace, actions, 0, |actions|, r);
    var t := trace[|actions|];
    ConsumeExact(cfg.sha, t.store, r.codeHash, t.procs[pid].token.check, t.procs[pid].token.now);
  }

  // ---------- Transactions ----------

  /** The steps that end transaction `tx`: storing another under its Discord
      state, any callback presenting that state, and a sweep after its expiry. */
  ghost predicate TouchesTransaction(s: State, a: Action, tx: Transaction) {
    match a
    case SweepStore(now) => now >= tx.expiresAt
    case Advance(pid, i) =>
      pid < |s.procs| && i.fault != LostRequest &&
      (match s.procs[pid]
       case AuthorizeProcess(Storing(_, _, _, other, _)) => other.discordState == tx.discordState && other != tx
       case CallbackProcess(Taking(state, _, _, _)) => state == tx.discordState
       case _ => false)
    case _ => false
  }

  ghost predicate HasTransaction(s: Store, tx: Transaction) { tx.discordState in s.txs && s.txs[tx.discordState] == tx }

  lemma TransactionStepExact(cfg: Config, s: State, a: Action, tx: Transaction)
    requires HasTransaction(s.store, tx)
    ensures HasTransaction(Step(cfg, s, a).store, tx) <==> !TouchesTransaction(s, a, tx)
  {
    if a.Advance? && a.pid < |s.procs| {
      match s.procs[a.pid] {
        case AuthorizeProcess(p) =>
        case CallbackProcess(p) =>
        case TokenProcess(p) =>
      }
    }
  }

  ghost predicate TransactionUndisturbed(trace: seq<State>, actions: seq<Action>, from: nat, to: nat, tx: Transaction)
    requires |trace| == |actions| + 1 && from <= to <= |actions|
  {
    forall k {:trigger TouchesTransaction(trace[k], actions[k], tx)} :: from <= k < to ==>
        !TouchesTransaction(trace[k], actions[k], tx)
  }

  lemma {:induction false} TransactionSurvives(cfg: Config, trace: seq<State>, actions: seq<Action>, from: nat,
                                               to: nat, tx: Transaction)
    requires IsTrace(cfg, trace, actions) && from <= to <= |actions|
    requires HasTransaction(trace[from].store, tx) && TransactionUndisturbed(trace, actions, from, to, tx)
    ensures HasTransaction(trace[to].store, tx)
  {
    if from < to {
      TransactionSurvives(cfg, trace, actions, from, to - 1, tx);
      assert Follows(cfg, trace, actions, to - 1);
      TransactionStepExact(cfg, trace[to - 1], actions[to - 1], tx);
    }
  }
}
