/** Disabling a dynamic client cuts off, from that step on, every request for
    it that has not yet passed its last registry check. */
module Cutoff {
  import opened Basics
  import opened Client
  import opened ClientRecords
  import opened Registry
  import opened Resolver
  import opened Authorize
  import opened Callback
  import opened Token
  import opened Protocol
  import opened Provenance

  ghost predicate IsDisabled(records: Records, c: string) { c in records && records[c].status == Disabled }

  predicate Enables(a: Action, c: string) {
    a.Administer? && a.op.Modify? && a.op.id == c && a.op.op.Enable?
  }

  /** A step that acts for client `c`: it resolves or authenticates, starts an
      authorization, contacts Discord, stores or removes a code, gets a token. */
  predicate ActsFor(e: Event, c: string) {
    match e
    case Proceeded(_, _, client, _, _, _, _) => client.clientId == c
    case Refused(_, _, client, _, _, _) => client.clientId == c
    case TxStored(_, _, client, _, _, _) => client.clientId == c
    case ClientResolved(_, tx, _, _, _) => tx.clientId == c
    case DiscordExchanged(_, tx, _, _, _) => tx.clientId == c
    case UserFetched(_, tx, _, _, _, _) => tx.clientId == c
    case MemberConfirmed(_, tx, _, _, _, _, _) => tx.clientId == c
    case CodeStored(_, tx, _, _, _, _, _, _, _) => tx.clientId == c
    case ClientFound(_, client, _, _) => client.clientId == c
    case ClientAuthenticated(_, client, _, _, _) => client.clientId == c
    case CodeConsumed(_, client, _, _, _, _) => client.clientId == c
    case CodeExpired(_, client, _, _) => client.clientId == c
    case TokenIssued(_, client, _, _, _, _) => client.clientId == c
    case SigningFailed(_, client, _, _, _) => client.clientId == c
    case _ => false
  }

  /** The browser is sent on for client `c`. The one exemption: the answer to a
      transaction that had expired when it was taken. */
  predicate RedirectsFor(r: Redirect, c: string) {
    match r
    case FromCallback(_, tx, _, now) => tx.clientId == c && now < tx.expiresAt
    case FromAuthorize(_, client, _, _) => client.clientId == c
  }

  /** The request has had its last look at the registry, for client `c`. A
      token request that still has to verify its secret has not. */
  predicate PastRegistry(p: Process, c: string) {
    match p
    case AuthorizeProcess(q) => q.Storing? && q.client.clientId == c
    case CallbackProcess(q) => !q.Taking? && !q.Resolving? && !q.Answered? && q.tx.clientId == c
    case TokenProcess(q) => (q.Consuming? || q.Signing?) && q.client.clientId == c
  }

  /** Nobody resolves or authenticates as a disabled client. */
  lemma DisabledDoesNotResolve(cfg: Config, records: Records, c: string, presented: string, now: int)
    requires RegistryInv(cfg, records) && IsDisabled(records, c)
    ensures FindClient(cfg, records, c) == None && !VerifyClientSecret(cfg, records, c, presented, now)
  {
  }

  lemma RequestGate(cfg: Config, s: State, pid: nat, p: Phase, i: Input, c: string)
    requires RegistryInv(cfg, s.records) && IsDisabled(s.records, c) && p.Finding?
    ensures var (q, _, e) := AdvanceAuthorize(cfg, s, pid, p, i);
            !PastRegistry(AuthorizeProcess(q), c) && !ActsFor(e, c)
  {
    FindIsFirst(cfg.clients, p.clientId);
    DisabledDoesNotResolve(cfg, s.records, c, "", 0);
  }

  lemma AuthorizeGate(cfg: Config, s: State, pid: nat, p: Phase, i: Input, c: string)
    requires RegistryInv(cfg, s.records) && IsDisabled(s.records, c)
    ensures var (q, _, e) := AdvanceAuthorize(cfg, s, pid, p, i);
            && (PastRegistry(AuthorizeProcess(q), c) ==> PastRegistry(AuthorizeProcess(p), c))
            && (ActsFor(e, c) ==> e.pid == pid && PastRegistry(AuthorizeProcess(p), c))
            && forall r :: r in RedirectOf(pid, AuthorizeProcess(p), AuthorizeProcess(q), e) ==> !RedirectsFor(r, c)
  {
    if p.Finding? { RequestGate(cfg, s, pid, p, i, c); }
  }

  /** What one step of a callback must keep to. */
  ghost predicate CallbackKeeps(pid: nat, p: CallbackPhase, q: CallbackPhase, e: Event, c: string) {
    var past := PastRegistry(CallbackProcess(p), c);
    && (PastRegistry(CallbackProcess(q), c) ==> past)
    && (ActsFor(e, c) ==> e.pid == pid && past)
    && forall r :: r in RedirectOf(pid, CallbackProcess(p), CallbackProcess(q), e) && RedirectsFor(r, c) ==>
         r.FromCallback? && r.pid == pid && past
  }

  lemma ResolvingGate(cfg: Config, s: State, pid: nat, p: CallbackPhase, i: Input, c: string)
    requires RegistryInv(cfg, s.records) && IsDisabled(s.records, c) && p.Resolving?
    ensures var (q, _, e) := AdvanceCallback(cfg, s, pid, p, i); CallbackKeeps(pid, p, q, e, c)
  {
    DisabledDoesNotResolve(cfg, s.records, c, "", 0);
  }

  lemma CallbackGate(cfg: Config, s: State, pid: nat, p: CallbackPhase, i: Input, c: string)
    requires RegistryInv(cfg, s.records) && IsDisabled(s.records, c)
    ensures var (q, _, e) := AdvanceCallback(cfg, s, pid, p, i); CallbackKeeps(pid, p, q, e, c)
  {
    if p.Resolving? { ResolvingGate(cfg, s, pid, p, i, c); } else { OtherCallbackGate(cfg, s, pid, p, i, c); }
  }

  lemma OtherCallbackGate(cfg: Config, s: State, pid: nat, p: CallbackPhase, i: Input, c: string)
    requires !p.Resolving?
    ensures var (q, _, e) := AdvanceCallback(cfg, s, pid, p, i); CallbackKeeps(pid, p, q, e, c)
  {
  }

  ghost predicate TokenKeeps(pid: nat, p: TokenPhase, q: TokenPhase, e: Event, c: string) {
    var past := PastRegistry(TokenProcess(p), c);
    (PastRegistry(TokenProcess(q), c) ==> past) && (ActsFor(e, c) ==> e.pid == pid && past)
  }

  lemma FindingGate(cfg: Config, s: State, pid: nat, p: TokenPhase, i: Input, c: string)
    requires RegistryInv(cfg, s.records) && IsDisabled(s.records, c) && p.FindingClient?
    ensures var (q, _, e) := AdvanceToken(cfg, s, pid, p, i); TokenKeeps(pid, p, q, e, c)
  {
    FindIsFirst(cfg.clients, p.cred.id);
    DisabledDoesNotResolve(cfg, s.records, c, "", 0);
  }

  lemma VerifyingGate(cfg: Config, s: State, pid: nat, p: TokenPhase, i: Input, c: string)
    requires RegistryInv(cfg, s.records) && IsDisabled(s.records, c) && p.VerifyingSecret? && p.client.clientId == p.id
    ensures var (q, _, e) := AdvanceToken(cfg, s, pid, p, i); TokenKeeps(pid, p, q, e, c)
  {
    DisabledDoesNotResolve(cfg, s.records, c, p.secret, p.now);
  }

  lemma TokenGate(cfg: Config, s: State, pid: nat, p: TokenPhase, i: Input, c: string)
    requires RegistryInv(cfg, s.records) && IsDisabled(s.records, c) && Supported(cfg, s.log, pid, TokenProcess(p))
    ensures var (q, _, e) := AdvanceToken(cfg, s, pid, p, i); TokenKeeps(pid, p, q, e, c)
  {
    if p.FindingClient? { FindingGate(cfg, s, pid, p, i, c); }
    else if p.VerifyingSecret? { VerifyingGate(cfg, s, pid, p, i, c); }
  }

  /** Request `pid` was past its registry check for `c` in state `s`. */
  predicate WasPast(s: State, pid: nat, c: string) { pid < |s.procs| && PastRegistry(s.procs[pid], c) }

  ghost predicate NoNewRequests(s: State, s': State, c: string) {
    forall k :: 0 <= k < |s'.procs| && PastRegistry(s'.procs[k], c) ==> WasPast(s, k, c)
  }

  ghost predicate NoNewEntries(s: State, s': State, c: string) {
    && |s.log| <= |s'.log|
    && forall k :: |s.log| <= k < |s'.log| && ActsFor(s'.log[k], c) ==> WasPast(s, s'.log[k].pid, c)
  }

  ghost predicate NoNewRedirects(s: State, s': State, c: string) {
    && |s.redirects| <= |s'.redirects|
    && forall n :: |s.redirects| <= n < |s'.redirects| && RedirectsFor(s'.redirects[n], c) ==>
         s'.redirects[n].FromCallback? && WasPast(s, s'.redirects[n].pid, c)
  }

  /** `s'` adds no request past the registry check for `c`, and whatever it
      adds to the log and to the redirects for `c` comes from one that was past
      it in `s`. */
  ghost predicate NothingNewFor(s: State, s': State, c: string) {
    NoNewRequests(s, s', c) && NoNewEntries(s, s', c) && NoNewRedirects(s, s', c)
  }

  /** One step of one request keeps to this when its new phase, its entry and
      its redirects do. */
  lemma StepOfOne(s: State, s': State, pid: nat, q: Process, e: Event, redirects: seq<Redirect>, c: string)
    requires pid < |s.procs| && s'.procs == s.procs[pid := q] && s'.log == s.log + [e]
    requires s'.redirects == s.redirects + redirects
    requires PastRegistry(q, c) ==> WasPast(s, pid, c)
    requires ActsFor(e, c) ==> WasPast(s, e.pid, c)
    requires forall r :: r in redirects && RedirectsFor(r, c) ==> r.FromCallback? && WasPast(s, r.pid, c)
    ensures NothingNewFor(s, s', c)
  {
    forall n | |s.redirects| <= n < |s'.redirects| && RedirectsFor(s'.redirects[n], c)
      ensures s'.redirects[n].FromCallback? && WasPast(s, s'.redirects[n].pid, c)
    {
      assert s'.redirects[n] in redirects;
    }
  }

  lemma ProcessGate(cfg: Config, s: State, pid: nat, i: Input, c: string)
    requires Inv(cfg, s) && IsDisabled(s.records, c) && pid < |s.procs|
    ensures var (q, _, e) := AdvanceProcess(cfg, s, pid, i);
            && (PastRegistry(q, c) ==> WasPast(s, pid, c))
            && (ActsFor(e, c) ==> WasPast(s, e.pid, c))
            && forall r :: r in RedirectOf(pid, s.procs[pid], q, e) && RedirectsFor(r, c) ==>
                 r.FromCallback? && WasPast(s, r.pid, c)
  {
    match s.procs[pid] {
      case AuthorizeProcess(p) => AuthorizeGate(cfg, s, pid, p, i, c);
      case CallbackProcess(p) => CallbackGate(cfg, s, pid, p, i, c);
      case TokenProcess(p) =>
        assert Supported(cfg, s.log, pid, s.procs[pid]);
        TokenGate(cfg, s, pid, p, i, c);
    }
  }

  lemma AdvanceAddsNothing(cfg: Config, s: State, pid: nat, i: Input, c: string)
    requires Inv(cfg, s) && IsDisabled(s.records, c) && pid < |s.procs|
    ensures NothingNewFor(s, Step(cfg, s, Advance(pid, i)), c)
  {
    var (q, store, e) := AdvanceProcess(cfg, s, pid, i);
    ProcessGate(cfg, s, pid, i, c);
    StepOfOne(s, Step(cfg, s, Advance(pid, i)), pid, q, e, RedirectOf(pid, s.procs[pid], q, e), c);
  }

  lemma StepAddsNothing(cfg: Config, s: State, a: Action, c: string)
    requires Inv(cfg, s) && IsDisabled(s.records, c)
    ensures NothingNewFor(s, Step(cfg, s, a), c)
  {
    if IsStart(a) || IsSystem(s, a) { OtherAddsNothing(cfg, s, a, c); }
    else { AdvanceAddsNothing(cfg, s, a.pid, a.input, c); }
  }

  lemma OtherAddsNothing(cfg: Config, s: State, a: Action, c: string)
    requires IsStart(a) || IsSystem(s, a)
    ensures NothingNewFor(s, Step(cfg, s, a), c)
  {
    if IsStart(a) { var p := StartStep(cfg, s, a); } else { SystemStep(cfg, s, a); }
  }

  lemma StaysDisabled(cfg: Config, s: State, a: Action, c: string)
    requires IsDisabled(s.records, c) && !Enables(a, c)
    ensures IsDisabled(Step(cfg, s, a).records, c)
  {
  }

  /** As long as client `c` is disabled and not enabled again, no request that
      had yet to pass its registry check resolves or authenticates, starts an
      authorization, contacts Discord, stores or removes a code, gets a token
      or sends the browser on for `c`: everything of the kind comes from
      requests that were past it when the run began. Only an expired
      transaction is still answered to its redirect URI. */
  lemma {:induction false} DisableCutsOff(cfg: Config, s: State, actions: seq<Action>, c: string)
    requires Inv(cfg, s) && IsDisabled(s.records, c)
    requires forall a :: a in actions ==> !Enables(a, c)
    ensures NothingNewFor(s, Run(cfg, s, actions), c) && IsDisabled(Run(cfg, s, actions).records, c)
    decreases |actions|
  {
    if actions != [] {
      var s1 := Step(cfg, s, actions[0]);
      StepKeepsInv(cfg, s, actions[0]);
      StepAddsNothing(cfg, s, actions[0], c);
      StaysDisabled(cfg, s, actions[0], c);
      DisableCutsOff(cfg, s1, actions[1..], c);
      RunGrows(cfg, s1, actions[1..]);
      NothingNewChains(s, s1, Run(cfg, s1, actions[1..]), c);
    }
  }

  lemma NothingNewChains(s: State, s1: State, s2: State, c: string)
    requires NothingNewFor(s, s1, c) && NothingNewFor(s1, s2, c)
    requires s2.log[..|s1.log|] == s1.log && s1.redirects <= s2.redirects
    ensures NothingNewFor(s, s2, c)
  {
    forall k | |s.log| <= k < |s2.log| && ActsFor(s2.log[k], c) ensures WasPast(s, s2.log[k].pid, c) {
      if k < |s1.log| { assert s2.log[..|s1.log|][k] == s1.log[k]; }
    }
    forall n | |s.redirects| <= n < |s2.redirects| && RedirectsFor(s2.redirects[n], c)
      ensures s2.redirects[n].FromCallback? && WasPast(s, s2.redirects[n].pid, c)
    {
      if n < |s1.redirects| { assert s2.redirects[n] == s1.redirects[n]; }
    }
  }

  /** In particular, in a run from the beginning in which `c` is disabled after
      `i` steps, a later entry for `c`, such as a token, comes only from a
      request already past its registry check at that moment. */
  lemma NoTokenAfterDisable(cfg: Config, actions: seq<Action>, i: nat, k: nat, c: string)
    requires i <= |actions| && IsDisabled(At(cfg, INIT, actions, i).records, c)
    requires forall a :: a in actions[i..] ==> !Enables(a, c)
    requires i <= k < |Run(cfg, INIT, actions).log| && ActsFor(Run(cfg, INIT, actions).log[k], c)
    ensures WasPast(At(cfg, INIT, actions, i), Run(cfg, INIT, actions).log[k].pid, c)
  {
    SinceDisabled(cfg, actions, i, c);
    LogLength(cfg, INIT, actions[..i]);
  }

  /** `/authorize` sends nobody on for `c` any more, and a callback does so only
      from such a request or for an expired transaction. */
  lemma NoRedirectAfterDisable(cfg: Config, actions: seq<Action>, i: nat, n: nat, c: string)
    requires i <= |actions| && IsDisabled(At(cfg, INIT, actions, i).records, c)
    requires forall a :: a in actions[i..] ==> !Enables(a, c)
    requires |At(cfg, INIT, actions, i).redirects| <= n < |Run(cfg, INIT, actions).redirects|
    ensures var r, s := Run(cfg, INIT, actions).redirects[n], At(cfg, INIT, actions, i);
            match r
            case FromCallback(pid, tx, _, now) => tx.clientId == c ==> tx.expiresAt <= now || WasPast(s, pid, c)
            case FromAuthorize(_, client, _, _) => client.clientId != c
  {
    SinceDisabled(cfg, actions, i, c);
  }

  lemma SinceDisabled(cfg: Config, actions: seq<Action>, i: nat, c: string)
    requires i <= |actions| && IsDisabled(At(cfg, INIT, actions, i).records, c)
    requires forall a :: a in actions[i..] ==> !Enables(a, c)
    ensures NothingNewFor(At(cfg, INIT, actions, i), Run(cfg, INIT, actions), c)
  {
    SinceState(cfg, actions[..i], actions[i..], c);
    assert actions == actions[..i] + actions[i..];
  }

  lemma SinceState(cfg: Config, before: seq<Action>, after: seq<Action>, c: string)
    requires IsDisabled(Run(cfg, INIT, before).records, c)
    requires forall a :: a in after ==> !Enables(a, c)
    ensures NothingNewFor(Run(cfg, INIT, before), Run(cfg, INIT, before + after), c)
  {
    InvInit(cfg);
    RunKeepsInv(cfg, INIT, before);
    DisableCutsOff(cfg, Run(cfg, INIT, before), after, c);
    RunConcat(cfg, INIT, before, after);
  }
}
