/** What a failed storage or registry call does to a request and to the store. */
module Failures {
  import opened Basics
  import opened OAuth
  import opened Client
  import opened ClientRecords
  import opened Resolver
  import opened Authorize
  import opened Callback
  import opened Token
  import opened Protocol

  /** Finding this client takes a call. */
  predicate MayBeDynamic(cfg: Config, id: string) { Find(cfg.clients, id) == None && IsDynamicClientId(id) }

  /** The step of the request calls a Durable Object. */
  predicate CallsOut(cfg: Config, p: Process) {
    match p
    case AuthorizeProcess(q) => q.Storing? || (q.Finding? && MayBeDynamic(cfg, q.clientId))
    case CallbackProcess(q) => q.Taking? || q.StoringCode? || (q.Resolving? && MayBeDynamic(cfg, q.tx.clientId))
    case TokenProcess(q) =>
      || q.Consuming? || (q.FindingClient? && MayBeDynamic(cfg, q.cred.id))
      || (q.VerifyingSecret? && MayBeDynamic(cfg, q.id))
  }

  /** The answer to a failed call: a server error, sent on to the client only
      where the callback has made sure of it. */
  function FailureAnswer(p: Process): Process {
    match p
    case AuthorizeProcess(_) => AuthorizeProcess(Finished(Page(500)))
    case CallbackProcess(StoringCode(tx, _, _, _, _, _, _)) =>
      CallbackProcess(Answered(FailureToClient(tx.redirectUri, ServerError, tx.rpState)))
    case CallbackProcess(_) => CallbackProcess(Answered(FailurePage(500)))
    case TokenProcess(_) => TokenProcess(Responded(TokenError(500, ServerError)))
  }

  /** A request whose call fails ends in that answer. The store is as if the
      request had not come, or, when only the answer was lost, as if the call
      had worked. */
  lemma FailedCall(cfg: Config, s: State, pid: nat, i: Input)
    requires pid < |s.procs| && CallsOut(cfg, s.procs[pid]) && i.fault != Delivered
    ensures var (p, store, _) := AdvanceProcess(cfg, s, pid, i);
            && p == FailureAnswer(s.procs[pid])
            && store == if i.fault == LostRequest then s.store
                        else AdvanceProcess(cfg, s, pid, i.(fault := Delivered)).1
  {
  }

  /** No other step depends on the calls: among others no request of a static
      client can fail at the registry. */
  lemma NoCallNoFailure(cfg: Config, s: State, pid: nat, i: Input)
    requires pid < |s.procs| && !CallsOut(cfg, s.procs[pid])
    ensures AdvanceProcess(cfg, s, pid, i) == AdvanceProcess(cfg, s, pid, i.(fault := Delivered))
  {
    assert i.(fault := Delivered).drawA == i.drawA;
  }

  /** A signer that fails is answered likewise, and the code is gone. */
  lemma FailedSigner(cfg: Config, s: State, pid: nat, i: Input)
    requires pid < |s.procs| && s.procs[pid].TokenProcess? && s.procs[pid].token.Signing? && !i.signed
    ensures AdvanceProcess(cfg, s, pid, i).0 == FailureAnswer(s.procs[pid])
    ensures AdvanceProcess(cfg, s, pid, i).1 == s.store
  {
  }
}
