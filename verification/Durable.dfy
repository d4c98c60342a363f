/** The `AuthorizationState` Durable Object
    (crates/discord-oidc-worker/src/durable.rs): one prefixed key-value map
    and one alarm. Each method is one serialized event. */
module Durable {
  import opened Basics
  import opened Code
  import opened AuthorizationStore

  const SWEEP_INTERVAL := 120
  const TX_PREFIX := "tx:"
  const CODE_PREFIX := "code:"

  function TxKey(state: string): string { TX_PREFIX + state }

  function CodeKey(hash: string): string { CODE_PREFIX + hash }

  /** The two families of keys are injective and never meet. */
  lemma KeysDistinct(a: string, b: string)
    ensures TxKey(a) == TxKey(b) ==> a == b
    ensures CodeKey(a) == CodeKey(b) ==> a == b
    ensures TxKey(a) != CodeKey(b)
  {
    assert TxKey(a)[3..] == a && TxKey(b)[3..] == b && CodeKey(a)[5..] == a && CodeKey(b)[5..] == b;
    assert TxKey(a)[0] == 't' && CodeKey(b)[0] == 'c';
  }

  datatype Stored = TxRecord(tx: Transaction) | CodeRecord(code: StoredCode)

  type Storage = map<string, Stored>

  function KeyOf(v: Stored): string { if v.TxRecord? then TxKey(v.tx.discordState) else CodeKey(v.code.codeHash) }

  function Expiry(v: Stored): int { if v.TxRecord? then v.tx.expiresAt else v.code.expiresAt }

  ghost predicate StorageOk(storage: Storage) { forall k :: k in storage ==> k == KeyOf(storage[k]) }

  /** Storage and store agree on the two records filed under one id. */
  ghost predicate Agree(storage: Storage, s: Store, x: string) {
    && (x in s.txs <==> TxKey(x) in storage) && (x in s.txs ==> storage[TxKey(x)] == TxRecord(s.txs[x]))
    && (x in s.codes <==> CodeKey(x) in storage) && (x in s.codes ==> storage[CodeKey(x)] == CodeRecord(s.codes[x]))
  }

  /** The prefixed map stands for the two maps of `s`. */
  ghost predicate Represents(storage: Storage, s: Store) {
    StorageOk(storage) && forall x :: Agree(storage, s, x)
  }

  /** A storage stands for at most one store. */
  lemma RepresentsOne(storage: Storage, a: Store, b: Store)
    requires Represents(storage, a) && Represents(storage, b)
    ensures a == b
  {
    forall x ensures (x in a.txs <==> x in b.txs) && (x in a.txs ==> a.txs[x] == b.txs[x])
                  && (x in a.codes <==> x in b.codes) && (x in a.codes ==> a.codes[x] == b.codes[x]) {
      assert Agree(storage, a, x) && Agree(storage, b, x);
    }
    assert a.txs == b.txs && a.codes == b.codes;
  }

  // ---------- Operations ----------

  datatype StoreOp =
    | PutTx(tx: Transaction)
    | PutCodeOp(record: StoredCode)
    | Take(state: string, at: int)
    | Consume(hash: string, check: ExchangeCheck, at: int)
    | SweepOp(at: int)

  datatype StoreReply = Done | Taken(take: TakeResult) | Exchanged(consume: ConsumeResult) | Swept(removed: nat)

  /** The reference: what the operation answers and leaves in an `InMemoryStore`. */
  function Reference(sha: Digest, s: Store, op: StoreOp): (StoreReply, Store) {
    match op
    case PutTx(tx) => (Done, PutTransaction(s, tx))
    case PutCodeOp(r) => (Done, PutCode(s, r))
    case Take(state, now) => (Taken(TakeReply(s, state, now)), TakeTransaction(s, state))
    case Consume(h, check, now) => (Exchanged(ConsumeReply(sha, s, h, check, now)), ConsumeCode(sha, s, h, check, now))
    case SweepOp(now) => (Swept(SweepCount(s, now)), Sweep(s, now))
  }

  function StoredTx(storage: Storage, key: string): Option<Transaction> {
    if key in storage && storage[key].TxRecord? then Some(storage[key].tx) else None
  }

  function StoredCodeAt(storage: Storage, key: string): Option<StoredCode> {
    if key in storage && storage[key].CodeRecord? then Some(storage[key].code) else None
  }

  /** The object's own answer, over the one prefixed map. */
  function Served(sha: Digest, storage: Storage, op: StoreOp): (StoreReply, Storage) {
    match op
    case PutTx(tx) => (Done, storage[TxKey(tx.discordState) := TxRecord(tx)])
    case PutCodeOp(r) => (Done, storage[CodeKey(r.codeHash) := CodeRecord(r)])
    case Take(state, now) =>
      (match StoredTx(storage, TxKey(state))
       case None => (Taken(Missing), storage)
       case Some(tx) =>
         (Taken(if tx.expiresAt <= now then Stale(tx) else Active(tx)), Without(storage, TxKey(state))))
    case Consume(h, check, now) =>
      (match StoredCodeAt(storage, CodeKey(h))
       case None => (Exchanged(Denied(Unknown)), storage)
       case Some(r) =>
         (match EvaluateExchange(sha, r, check, now)
          case None => (Exchanged(Consumed(r)), Without(storage, CodeKey(h)))
          case Some(Expired) => (Exchanged(Denied(Expired)), Without(storage, CodeKey(h)))
          case Some(deny) => (Exchanged(Denied(deny)), storage)))
    case SweepOp(now) => (Swept(|Dead(storage, Expiry, now)|), Live(storage, Expiry, now))
  }

  lemma ServedKeepsOk(sha: Digest, storage: Storage, op: StoreOp)
    requires StorageOk(storage)
    ensures StorageOk(Served(sha, storage, op).1)
  {
  }

  lemma {:induction false} ImageSize(a: set<string>, prefix: string, b: set<string>)
    requires forall k :: k in b <==> |k| >= |prefix| && prefix <= k && k[|prefix|..] in a
    ensures |a| == |b|
  {
    if a == {} {
      assert forall k :: k !in b;
    } else {
      var x :| x in a;
      assert prefix <= prefix + x && (prefix + x)[|prefix|..] == x;
      forall k ensures k in b - {prefix + x} <==> |k| >= |prefix| && prefix <= k && k[|prefix|..] in a - {x} {
        if prefix <= k && k[|prefix|..] == x { assert k == prefix + x; }
      }
      ImageSize(a - {x}, prefix, b - {prefix + x});
    }
  }

  lemma DeadTransactions(storage: Storage, s: Store, now: int, dead: set<string>)
    requires Represents(storage, s)
    requires dead == set k | k in storage && storage[k].TxRecord? && Expiry(storage[k]) <= now
    ensures |dead| == |ExpiredTransactions(s, now)|
  {
    var states := ExpiredTransactions(s, now).Keys;
    forall k ensures k in dead <==> |k| >= |TX_PREFIX| && TX_PREFIX <= k && k[|TX_PREFIX|..] in states {
      if k in dead { assert k == TxKey(storage[k].tx.discordState); }
      if |k| >= 3 && TX_PREFIX <= k { assert k == TxKey(k[3..]); assert Agree(storage, s, k[3..]); }
    }
    ImageSize(states, TX_PREFIX, dead);
  }

  lemma DeadCodes(storage: Storage, s: Store, now: int, dead: set<string>)
    requires Represents(storage, s)
    requires dead == set k | k in storage && storage[k].CodeRecord? && Expiry(storage[k]) <= now
    ensures |dead| == |ExpiredCodes(s, now)|
  {
    var hashes := ExpiredCodes(s, now).Keys;
    forall k ensures k in dead <==> |k| >= |CODE_PREFIX| && CODE_PREFIX <= k && k[|CODE_PREFIX|..] in hashes {
      if k in dead { assert k == CodeKey(storage[k].code.codeHash); }
      if |k| >= 5 && CODE_PREFIX <= k { assert k == CodeKey(k[5..]); assert Agree(storage, s, k[5..]); }
    }
    ImageSize(hashes, CODE_PREFIX, dead);
  }

  lemma DisjointSizes(whole: set<string>, a: set<string>, b: set<string>)
    requires a !! b && forall k :: k in whole <==> k in a || k in b
    ensures |whole| == |a| + |b|
  {
    assert whole == a + b;
  }

  /** The object counts the expired keys; the reference counts expired
      transactions and codes separately. */
  lemma SweepCountsAgree(storage: Storage, s: Store, now: int)
    requires Represents(storage, s)
    ensures |Dead(storage, Expiry, now)| == SweepCount(s, now)
  {
    var deadTx := set k | k in storage && storage[k].TxRecord? && Expiry(storage[k]) <= now;
    var deadCode := set k | k in storage && storage[k].CodeRecord? && Expiry(storage[k]) <= now;
    DeadTransactions(storage, s, now, deadTx);
    DeadCodes(storage, s, now, deadCode);
    DisjointSizes(Dead(storage, Expiry, now).Keys, deadTx, deadCode);
  }

  /** Entries under another id are not touched. */
  lemma AgreeStep(sha: Digest, storage: Storage, s: Store, op: StoreOp, x: string)
    requires StorageOk(storage) && Agree(storage, s, x) && Agree(storage, s, IdOf(op))
    requires CodeKey(IdOf(op)) in storage ==> storage[CodeKey(IdOf(op))].CodeRecord?
    ensures Agree(Served(sha, storage, op).1, Reference(sha, s, op).1, x)
  {
    KeysDistinct(x, IdOf(op));
    KeysDistinct(IdOf(op), x);
  }

  function IdOf(op: StoreOp): string {
    match op
    case PutTx(tx) => tx.discordState
    case PutCodeOp(r) => r.codeHash
    case Take(state, _) => state
    case Consume(h, _, _) => h
    case SweepOp(_) => ""
  }

  /** One event of the object is one operation of the reference store. */
  lemma ServedRefines(sha: Digest, storage: Storage, s: Store, op: StoreOp)
    requires Represents(storage, s)
    ensures Served(sha, storage, op).0 == Reference(sha, s, op).0
    ensures Represents(Served(sha, storage, op).1, Reference(sha, s, op).1)
  {
    var id := IdOf(op);
    assert Agree(storage, s, id);
    ServedKeepsOk(sha, storage, op);
    forall x ensures Agree(Served(sha, storage, op).1, Reference(sha, s, op).1, x) {
      assert Agree(storage, s, x);
      AgreeStep(sha, storage, s, op, x);
    }
    if op.SweepOp? { SweepCountsAgree(storage, s, op.at); }
  }

  function RunObject(sha: Digest, storage: Storage, ops: seq<StoreOp>): (seq<StoreReply>, Storage)
    decreases |ops|
  {
    if ops == [] then ([], storage)
    else
      var (reply, mid) := Served(sha, storage, ops[0]);
      var (rest, end) := RunObject(sha, mid, ops[1..]);
      ([reply] + rest, end)
  }

  function RunReference(sha: Digest, s: Store, ops: seq<StoreOp>): (seq<StoreReply>, Store)
    decreases |ops|
  {
    if ops == [] then ([], s)
    else
      var (reply, mid) := Reference(sha, s, ops[0]);
      var (rest, end) := RunReference(sha, mid, ops[1..]);
      ([reply] + rest, end)
  }

  lemma {:induction false} RunRefines(sha: Digest, storage: Storage, s: Store, ops: seq<StoreOp>)
    requires Represents(storage, s)
    ensures RunObject(sha, storage, ops).0 == RunReference(sha, s, ops).0
    ensures Represents(RunObject(sha, storage, ops).1, RunReference(sha, s, ops).1)
    decreases |ops|
  {
    if ops != [] {
      ServedRefines(sha, storage, s, ops[0]);
      RunRefines(sha, Served(sha, storage, ops[0]).1, Reference(sha, s, ops[0]).1, ops[1..]);
    }
  }

  /** For every sequence of operations the object gives the replies of
      `InMemoryStore`, sweep counts included, and its storage then stands for
      the records of the reference and for no others. */
  lemma StoreRefinement(sha: Digest, storage: Storage, s: Store, ops: seq<StoreOp>)
    requires Represents(storage, s)
    ensures RunObject(sha, storage, ops).0 == RunReference(sha, s, ops).0
    ensures forall end :: Represents(RunObject(sha, storage, ops).1, end) <==> end == RunReference(sha, s, ops).1
  {
    RunRefines(sha, storage, s, ops);
    forall end | Represents(RunObject(sha, storage, ops).1, end) ensures end == RunReference(sha, s, ops).1 {
      RepresentsOne(RunObject(sha, storage, ops).1, end, RunReference(sha, s, ops).1);
    }
  }

  // ---------- The alarm ----------

  /** The storage and the pending alarm of the object. */
  datatype Cell = Cell(storage: Storage, alarm: Option<int>)

  /** A sweep re-arms the alarm when records remain. */
  function SweptCell(cell: Cell, now: int, clock: int): Cell {
    var kept := Live(cell.storage, Expiry, now);
    Cell(kept, if kept != map[] then Some(clock + SWEEP_INTERVAL) else cell.alarm)
  }

  /** One request served at `clock`: a put makes sure an alarm is pending. */
  function ServedCell(sha: Digest, cell: Cell, op: StoreOp, clock: int): Cell {
    if op.SweepOp? then SweptCell(cell, op.at, clock)
    else
      Cell(Served(sha, cell.storage, op).1,
           if (op.PutTx? || op.PutCodeOp?) && cell.alarm == None then Some(clock + SWEEP_INTERVAL) else cell.alarm)
  }

  /** The alarm event: it is no longer pending while it is handled. */
  function FiredCell(cell: Cell, clock: int): Cell { SweptCell(cell.(alarm := None), clock, clock) }

  lemma KeptSize(storage: Storage, now: int)
    ensures |storage| == |Live(storage, Expiry, now)| + |Dead(storage, Expiry, now)|
    ensures Live(storage, Expiry, now) != map[] <==> |Live(storage, Expiry, now)| > 0
  {
    DisjointSizes(storage.Keys, Live(storage, Expiry, now).Keys, Dead(storage, Expiry, now).Keys);
    assert |storage| == |storage.Keys|;
  }

  class AuthorizationState {
    var storage: Storage
    var alarm: Option<int>

    ghost predicate Valid()
      reads this
    {
      StorageOk(storage)
    }

    function State(): Cell
      reads this
    {
      Cell(storage, alarm)
    }

    constructor ()
      ensures Valid() && State() == Cell(map[], None)
    {
      storage, alarm := map[], None;
    }

    /** The loop of `sweep`: collects the expired keys and counts the others. */
    method CollectExpired(now: int) returns (expired: seq<string>, remaining: nat)
      ensures forall k :: k in expired <==> k in storage && Expiry(storage[k]) <= now
      ensures |expired| == |Dead(storage, Expiry, now)|
      ensures remaining == |storage| - |expired|
    {
      expired, remaining := [], 0;
      var todo := storage.Keys;
      while todo != {}
        invariant todo <= storage.Keys && remaining == |storage.Keys| - |todo| - |expired|
        invariant forall k :: k in expired <==> k in storage && k !in todo && Expiry(storage[k]) <= now
        invariant |set k | k in expired| == |expired|
        decreases |todo|
      {
        var k :| k in todo;
        if Expiry(storage[k]) <= now {
          assert (set x | x in expired + [k]) == (set x | x in expired) + {k};
          expired := expired + [k];
        } else {
          remaining := remaining + 1;
        }
        todo := todo - {k};
      }
      assert (set k | k in expired) == Dead(storage, Expiry, now).Keys;
    }

    /** `sweep`: deletes the expired keys and re-arms the alarm when others remain. */
    method RunSweep(now: int, clock: int) returns (removed: nat)
      modifies this
      ensures State() == SweptCell(old(State()), now, clock)
      ensures removed == |Dead(old(storage), Expiry, now)|
    {
      var expired, remaining := CollectExpired(now);
      removed := |expired|;
      var kept := map k | k in storage && k !in expired :: storage[k];
      assert kept == Live(storage, Expiry, now);
      KeptSize(storage, now);
      storage := kept;
      if remaining > 0 { alarm := Some(clock + SWEEP_INTERVAL); }
    }

    method EnsureAlarm(clock: int)
      modifies this`alarm
      ensures alarm == if old(alarm) == None then Some(clock + SWEEP_INTERVAL) else old(alarm)
    {
      if alarm == None { alarm := Some(clock + SWEEP_INTERVAL); }
    }

    /** The consume branch of `fetch`: get, check and delete in one event. */
    method ConsumeAt(sha: Digest, key: string, check: ExchangeCheck, now: int) returns (r: ConsumeResult)
      modifies this`storage
      ensures r == (match StoredCodeAt(old(storage), key)
                    case None => Denied(Unknown)
                    case Some(c) => if EvaluateExchange(sha, c, check, now) == None then Consumed(c)
                                    else Denied(EvaluateExchange(sha, c, check, now).value))
      ensures storage == if r.Consumed? || r == Denied(Expired) then Without(old(storage), key) else old(storage)
    {
      var record := StoredCodeAt(storage, key);
      if record == None { return Denied(Unknown); }
      match EvaluateExchange(sha, record.value, check, now) {
        case None =>
          storage := Without(storage, key);
          r := Consumed(record.value);
        case Some(deny) =>
          if deny == Expired { storage := Without(storage, key); }
          r := Denied(deny);
      }
    }

    /** `fetch`, over a decoded request. */
    method Fetch(sha: Digest, op: StoreOp, clock: int) returns (reply: StoreReply)
      requires Valid()
      modifies this
      ensures Valid() && State() == ServedCell(sha, old(State()), op, clock)
      ensures reply == Served(sha, old(storage), op).0
    {
      ServedKeepsOk(sha, storage, op);
      match op {
        case PutTx(tx) =>
          storage := storage[TxKey(tx.discordState) := TxRecord(tx)];
          EnsureAlarm(clock);
          reply := Done;
        case PutCodeOp(record) =>
          storage := storage[CodeKey(record.codeHash) := CodeRecord(record)];
          EnsureAlarm(clock);
          reply := Done;
        case Take(state, now) =>
          var tx := StoredTx(storage, TxKey(state));
          if tx == None { return Taken(Missing); }
          storage := Without(storage, TxKey(state));
          reply := Taken(if tx.value.expiresAt <= now then Stale(tx.value) else Active(tx.value));
        case Consume(hash, check, now) =>
          var r := ConsumeAt(sha, CodeKey(hash), check, now);
          reply := Exchanged(r);
        case SweepOp(now) =>
          var removed := RunSweep(now, clock);
          reply := Swept(removed);
      }
    }

    /** The alarm event at `clock`. */
    method Alarm(clock: int)
      requires Valid() && alarm == Some(clock)
      modifies this
      ensures Valid() && State() == FiredCell(old(State()), clock)
    {
      alarm := None;
      var _ := RunSweep(clock, clock);
    }
  }

  // ---------- Timed runs ----------

  /** One clock, the object, and when each stored record was put. */
  datatype Timed = Timed(clock: int, cell: Cell, putAt: map<string, int>)

  datatype Event = Serve(op: StoreOp) | Wait(until: int) | Fire

  /** The clock never passes a pending alarm: alarms fire on time. */
  function Step(sha: Digest, t: Timed, e: Event): Timed {
    match e
    case Serve(op) =>
      t.(cell := ServedCell(sha, t.cell, op, t.clock),
         putAt := if op.PutTx? then t.putAt[TxKey(op.tx.discordState) := t.clock]
                  else if op.PutCodeOp? then t.putAt[CodeKey(op.record.codeHash) := t.clock]
                  else t.putAt)
    case Wait(until) =>
      if t.clock <= until && (t.cell.alarm.Some? ==> until <= t.cell.alarm.value) then t.(clock := until) else t
    case Fire =>
      if t.cell.alarm == Some(t.clock) then t.(cell := FiredCell(t.cell, t.clock)) else t
  }

  function Run(sha: Digest, t: Timed, events: seq<Event>): Timed {
    if events == [] then t else Step(sha, Run(sha, t, events[..|events| - 1]), events[|events| - 1])
  }

  /** Every explicit sweep of the run is asked for with a time that is not
      behind the object's clock. */
  ghost predicate Punctual(sha: Digest, t: Timed, events: seq<Event>) {
    forall i :: 0 <= i < |events| && events[i].Serve? && events[i].op.SweepOp? ==>
      events[i].op.at >= Run(sha, t, events[..i]).clock
  }

  /** The last moment by which the alarm in force covers the record under `k`. */
  function Deadline(t: Timed, k: string): int
    requires k in t.cell.storage && k in t.putAt
  {
    Max(t.putAt[k], Expiry(t.cell.storage[k]) - 1) + SWEEP_INTERVAL
  }

  /** A non-empty object has a pending alarm, at most 120 s away and no later
      than any record's deadline. */
  ghost predicate Timely(t: Timed) {
    && (t.cell.storage != map[] ==> t.cell.alarm.Some?)
    && (t.cell.alarm.Some? ==> t.clock <= t.cell.alarm.value <= t.clock + SWEEP_INTERVAL)
    && forall k :: k in t.cell.storage ==>
         k in t.putAt && t.putAt[k] <= t.clock && (t.cell.alarm.Some? ==> t.cell.alarm.value <= Deadline(t, k))
  }

  lemma ServeKeepsTimely(sha: Digest, t: Timed, op: StoreOp)
    requires Timely(t) && (op.SweepOp? ==> op.at >= t.clock)
    ensures Timely(Step(sha, t, Serve(op)))
  {
    var t' := Step(sha, t, Serve(op));
    if op.Take? || op.Consume? {
      assert forall k :: k in t'.cell.storage ==> k in t.cell.storage && t'.cell.storage[k] == t.cell.storage[k];
    }
  }

  /** Every event keeps the alarm timely, given punctual sweeps. */
  lemma StepKeepsTimely(sha: Digest, t: Timed, e: Event)
    requires Timely(t) && (e.Serve? && e.op.SweepOp? ==> e.op.at >= t.clock)
    ensures Timely(Step(sha, t, e))
  {
    if e.Serve? { ServeKeepsTimely(sha, t, e.op); }
  }

  const EMPTY := Cell(map[], None)

  lemma {:induction false} RunIsTimely(sha: Digest, start: int, events: seq<Event>)
    requires Punctual(sha, Timed(start, EMPTY, map[]), events)
    ensures Timely(Run(sha, Timed(start, EMPTY, map[]), events))
  {
    if events != [] {
      var n := |events| - 1;
      assert forall i :: 0 <= i < n ==> events[..n][..i] == events[..i];
      RunIsTimely(sha, start, events[..n]);
      StepKeepsTimely(sha, Run(sha, Timed(start, EMPTY, map[]), events[..n]), events[n]);
    }
  }

  /** No record outlives its expiry by 120 s, unless it was already expired
      when it was put, and then not its put by more. */
  lemma NoOverstay(sha: Digest, start: int, events: seq<Event>, k: string)
    requires Punctual(sha, Timed(start, EMPTY, map[]), events)
    requires k in Run(sha, Timed(start, EMPTY, map[]), events).cell.storage
    ensures var t := Run(sha, Timed(start, EMPTY, map[]), events);
            && k in t.putAt
            && (t.putAt[k] < Expiry(t.cell.storage[k]) ==> t.clock < Expiry(t.cell.storage[k]) + 120)
            && t.clock <= Max(t.putAt[k], Expiry(t.cell.storage[k])) + 120
  {
    RunIsTimely(sha, start, events);
  }

  /** Some record is not expired at `now`. */
  ghost predicate Remains(storage: Storage, now: int) {
    exists k :: k in storage && Expiry(storage[k]) > now
  }

  /** The event sets the alarm: a put when none is pending, a sweep or an alarm
      that leaves a record behind. */
  ghost predicate Arms(t: Timed, e: Event) {
    match e
    case Serve(PutTx(_)) => t.cell.alarm == None
    case Serve(PutCodeOp(_)) => t.cell.alarm == None
    case Serve(SweepOp(now)) => Remains(t.cell.storage, now)
    case Fire => t.cell.alarm == Some(t.clock) && Remains(t.cell.storage, t.clock)
    case _ => false
  }

  lemma AlarmStep(sha: Digest, t: Timed, e: Event)
    ensures Step(sha, t, e).cell.alarm ==
      if Arms(t, e) then Some(t.clock + 120)
      else if e.Fire? && t.cell.alarm == Some(t.clock) then None
      else t.cell.alarm
  {
    var now := if e.Serve? && e.op.SweepOp? then e.op.at else t.clock;
    var kept := Live(t.cell.storage, Expiry, now);
    if Remains(t.cell.storage, now) {
      var k :| k in t.cell.storage && Expiry(t.cell.storage[k]) > now;
      assert k in kept;
    } else {
      assert kept == map[];
    }
  }

  /** Event `i` armed the alarm `at`, and none after it did. */
  ghost predicate ArmedBy(sha: Digest, start: int, events: seq<Event>, i: nat, at: int) {
    && i < |events|
    && Arms(Run(sha, Timed(start, EMPTY, map[]), events[..i]), events[i])
    && Run(sha, Timed(start, EMPTY, map[]), events[..i]).clock == at - 120
    && forall j :: i < j < |events| ==> !Arms(Run(sha, Timed(start, EMPTY, map[]), events[..j]), events[j])
  }

  lemma ArmedByGrows(sha: Digest, start: int, events: seq<Event>, e: Event, i: nat, at: int)
    requires ArmedBy(sha, start, events, i, at) && !Arms(Run(sha, Timed(start, EMPTY, map[]), events), e)
    ensures ArmedBy(sha, start, events + [e], i, at)
  {
    var more := events + [e];
    assert forall j :: 0 <= j <= |events| ==> more[..j] == events[..j];
    assert events[..|events|] == events;
    forall j | i < j < |more| ensures !Arms(Run(sha, Timed(start, EMPTY, map[]), more[..j]), more[j]) {
    }
  }

  /** In every run a pending alarm is due exactly 120 s after the last event
      that had a reason to set it: the object never wakes for nothing it was
      given, and a pending alarm is not put off by further puts. */
  lemma {:induction false} AlarmHasCause(sha: Digest, start: int, events: seq<Event>) returns (i: nat)
    requires Run(sha, Timed(start, EMPTY, map[]), events).cell.alarm.Some?
    ensures ArmedBy(sha, start, events, i, Run(sha, Timed(start, EMPTY, map[]), events).cell.alarm.value)
  {
    var t0, n := Timed(start, EMPTY, map[]), |events| - 1;
    assert events != [];
    var t := Run(sha, t0, events[..n]);
    AlarmStep(sha, t, events[n]);
    if Arms(t, events[n]) {
      i := n;
    } else {
      i := AlarmHasCause(sha, start, events[..n]);
      ArmedByGrows(sha, start, events[..n], events[n], i, t.cell.alarm.value);
      assert events == events[..n] + [events[n]];
    }
  }

  /** An alarm that finds every record expired leaves the object empty and
      asleep. */
  lemma IdleObjectSleeps(sha: Digest, t: Timed)
    requires t.cell.alarm == Some(t.clock) && !Remains(t.cell.storage, t.clock)
    ensures Step(sha, t, Fire).cell == Cell(map[], None)
  {
    AlarmStep(sha, t, Fire);
    assert Live(t.cell.storage, Expiry, t.clock) == map[];
  }

  /** A record that was put before its expiry is still there 120 s after it. */
  ghost predicate Overstays(t: Timed) {
    exists k :: k in t.cell.storage && k in t.putAt && t.putAt[k] < Expiry(t.cell.storage[k])
                && t.clock >= Expiry(t.cell.storage[k]) + SWEEP_INTERVAL
  }

  /** A run from the empty object with a sweep asked for `now` when the clock
      shows `clock`, and otherwise punctual. */
  ghost predicate IsSweptAt(sha: Digest, start: int, before: seq<Event>, after: seq<Event>, clock: int, now: int) {
    var t, sweep := Timed(start, EMPTY, map[]), Serve(SweepOp(now));
    && Punctual(sha, t, before) && Run(sha, t, before).clock == clock
    && forall i :: 0 <= i < |after| && after[i].Serve? && after[i].op.SweepOp? ==>
         after[i].op.at >= Run(sha, t, before + [sweep] + after[..i]).clock
  }

  ghost predicate OverstaysAfter(sha: Digest, start: int, before: seq<Event>, after: seq<Event>, clock: int, now: int) {
    && IsSweptAt(sha, start, before, after, clock, now)
    && Overstays(Run(sha, Timed(start, EMPTY, map[]), before + [Serve(SweepOp(now))] + after))
  }

  lemma SweptAtIsPunctual(sha: Digest, start: int, before: seq<Event>, after: seq<Event>, clock: int, now: int)
    requires IsSweptAt(sha, start, before, after, clock, now) && now >= clock
    ensures Punctual(sha, Timed(start, EMPTY, map[]), before + [Serve(SweepOp(now))] + after)
  {
    var t, events, n := Timed(start, EMPTY, map[]), before + [Serve(SweepOp(now))] + after, |before|;
    forall i | 0 <= i < |events| && events[i].Serve? && events[i].op.SweepOp?
      ensures events[i].op.at >= Run(sha, t, events[..i]).clock
    {
      if i < n {
        assert events[i] == before[i] && events[..i] == before[..i];
      } else if i == n {
        assert events[..n] == before;
      } else {
        assert events[i] == after[i - n - 1] && events[..i] == before + [Serve(SweepOp(now))] + after[..i - n - 1];
      }
    }
  }

  /** A login of the handlers' own lifetimes: a transaction put at
      `clock - 119`, a code put at `clock - 60` that expires at `clock`. */
  function Login(tx: Transaction, code: StoredCode, clock: int): seq<Event> {
    [Serve(PutTx(tx))] + [Wait(clock - 60)] + [Serve(PutCodeOp(code))] + [Wait(clock)]
  }

  lemma RunSnoc(sha: Digest, t: Timed, events: seq<Event>, e: Event)
    ensures Run(sha, t, events + [e]) == Step(sha, Run(sha, t, events), e)
  {
    assert (events + [e])[..|events|] == events;
  }

  lemma AfterLogin(sha: Digest, tx: Transaction, code: StoredCode, clock: int)
    ensures var t := Run(sha, Timed(clock - 119, EMPTY, map[]), Login(tx, code, clock));
            && t.clock == clock && t.cell.alarm == Some(clock + 1)
            && t.cell.storage == map[TxKey(tx.discordState) := TxRecord(tx)][CodeKey(code.codeHash) := CodeRecord(code)]
            && CodeKey(code.codeHash) in t.putAt && t.putAt[CodeKey(code.codeHash)] == clock - 60
  {
    var t0 := Timed(clock - 119, EMPTY, map[]);
    assert Run(sha, t0, []) == t0;
    RunSnoc(sha, t0, [], Serve(PutTx(tx)));
    assert [] + [Serve(PutTx(tx))] == [Serve(PutTx(tx))];
    RunSnoc(sha, t0, [Serve(PutTx(tx))], Wait(clock - 60));
    RunSnoc(sha, t0, [Serve(PutTx(tx))] + [Wait(clock - 60)], Serve(PutCodeOp(code)));
    RunSnoc(sha, t0, [Serve(PutTx(tx))] + [Wait(clock - 60)] + [Serve(PutCodeOp(code))], Wait(clock));
  }

  lemma LoginIsPunctual(sha: Digest, t: Timed, tx: Transaction, code: StoredCode, clock: int)
    ensures Punctual(sha, t, Login(tx, code, clock))
  {
  }

  /** One sweep asked for an earlier time is enough: a code put 60 s before its
      expiry is still stored 120 s after it. */
  lemma StaleSweepBreaks(sha: Digest, tx: Transaction, code: StoredCode, clock: int, now: int)
    requires now < clock && code.expiresAt == clock
    ensures OverstaysAfter(sha, clock - 119, Login(tx, code, clock), [Wait(clock + SWEEP_INTERVAL)], clock, now)
  {
    var t0, before, sweep, wait := Timed(clock - 119, EMPTY, map[]), Login(tx, code, clock), Serve(SweepOp(now)),
        Wait(clock + SWEEP_INTERVAL);
    AfterLogin(sha, tx, code, clock);
    LoginIsPunctual(sha, t0, tx, code, clock);
    KeysDistinct(tx.discordState, code.codeHash);
    RunSnoc(sha, t0, before, sweep);
    RunSnoc(sha, t0, before + [sweep], wait);
    var t, k := Run(sha, t0, before + [sweep]), CodeKey(code.codeHash);
    assert k in t.cell.storage && t.cell.alarm == Some(clock + SWEEP_INTERVAL);
    var end := Run(sha, t0, before + [sweep] + [wait]);
    assert end.clock == clock + SWEEP_INTERVAL && k in end.cell.storage && Expiry(end.cell.storage[k]) == clock;
  }

  /** Punctuality is the exact condition for the bound: a sweep asked for `now`
      at `clock` can never lead to an overstay just when `now` is not behind. */
  lemma SweepBoundExact(sha: Digest, clock: int, now: int)
    ensures (forall start, before, after :: !OverstaysAfter(sha, start, before, after, clock, now)) <==> now >= clock
  {
    if now < clock {
      var tx := Transaction("", "", "", "", None, None, "", "", clock - 119, clock + 481);
      var code := StoredCode("", "", "", "", "", None, "", clock - 60, clock);
      StaleSweepBreaks(sha, tx, code, clock, now);
    } else {
      forall start, before, after ensures !OverstaysAfter(sha, start, before, after, clock, now) {
        if OverstaysAfter(sha, start, before, after, clock, now) {
          var events := before + [Serve(SweepOp(now))] + after;
          SweptAtIsPunctual(sha, start, before, after, clock, now);
          var t := Run(sha, Timed(start, EMPTY, map[]), events);
          var k :| k in t.cell.storage && k in t.putAt && t.putAt[k] < Expiry(t.cell.storage[k])
                   && t.clock >= Expiry(t.cell.storage[k]) + SWEEP_INTERVAL;
          NoOverstay(sha, start, events, k);
          assert false;
        }
      }
    }
  }

  /** A caller whose clock stands still, sweeping just before each alarm, keeps
      an expired record in storage for as long as it likes. */
  function Starving(record: StoredCode, rounds: nat): seq<Event> {
    if rounds == 0 then [Serve(PutCodeOp(record))]
    else Starving(record, rounds - 1) + [Wait(119 * rounds), Serve(SweepOp(record.expiresAt - 1))]
  }

  /** One more round: the sweep finds the record not expired by its stale time
      and puts the alarm off by another 120 s. */
  lemma StarvingRound(sha: Digest, t: Timed, record: StoredCode, clock: int)
    requires t.cell == Cell(map[CodeKey(record.codeHash) := CodeRecord(record)], Some(t.clock + SWEEP_INTERVAL))
    requires t.clock <= clock <= t.clock + SWEEP_INTERVAL
    ensures var t' := Step(sha, Step(sha, t, Wait(clock)), Serve(SweepOp(record.expiresAt - 1)));
            t'.clock == clock && t'.cell == t.cell.(alarm := Some(clock + SWEEP_INTERVAL))
  {
    assert CodeKey(record.codeHash) in t.cell.storage;
    assert Live(t.cell.storage, Expiry, record.expiresAt - 1) == t.cell.storage;
  }

  lemma {:induction false} StarvedRecordStays(sha: Digest, record: StoredCode, rounds: nat)
    ensures var t := Run(sha, Timed(0, EMPTY, map[]), Starving(record, rounds));
            t.clock == 119 * rounds
            && t.cell == Cell(map[CodeKey(record.codeHash) := CodeRecord(record)], Some(119 * rounds + SWEEP_INTERVAL))
  {
    var t0 := Timed(0, EMPTY, map[]);
    if rounds == 0 {
      assert Starving(record, 0)[..0] == [];
    } else {
      var before, wait, sweep := Starving(record, rounds - 1), Wait(119 * rounds), Serve(SweepOp(record.expiresAt - 1));
      StarvedRecordStays(sha, record, rounds - 1);
      assert Starving(record, rounds) == before + [wait] + [sweep];
      RunSnoc(sha, t0, before, wait);
      RunSnoc(sha, t0, before + [wait], sweep);
      StarvingRound(sha, Run(sha, t0, before), record, 119 * rounds);
    }
  }
}
