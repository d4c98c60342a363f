/** The authorization store: its reference semantics on values, and
    `InMemoryStore` (crates/oidc-core/src/store.rs). */
module AuthorizationStore {
  import opened Basics
  import opened Code

  datatype Store = Store(txs: map<string, Transaction>, codes: map<string, StoredCode>)

  datatype TakeResult = Missing | Active(tx: Transaction) | Stale(tx: Transaction)

  datatype ConsumeResult = Consumed(record: StoredCode) | Denied(reason: Deny)

  function PutTransaction(s: Store, tx: Transaction): Store { s.(txs := s.txs[tx.discordState := tx]) }

  function TakeReply(s: Store, state: string, now: int): TakeResult {
    if state !in s.txs then Missing
    else if s.txs[state].expiresAt <= now then Stale(s.txs[state])
    else Active(s.txs[state])
  }

  function TakeTransaction(s: Store, state: string): Store { s.(txs := Without(s.txs, state)) }

  function PutCode(s: Store, record: StoredCode): Store { s.(codes := s.codes[record.codeHash := record]) }

  function ConsumeReply(sha: Digest, s: Store, hash: string, check: ExchangeCheck, now: int): ConsumeResult {
    if hash !in s.codes then Denied(Unknown)
    else
      match EvaluateExchange(sha, s.codes[hash], check, now)
      case None => Consumed(s.codes[hash])
      case Some(deny) => Denied(deny)
  }

  /** Only a full match and an expired record remove the code. */
  function ConsumeCode(sha: Digest, s: Store, hash: string, check: ExchangeCheck, now: int): Store {
    var reply := ConsumeReply(sha, s, hash, check, now);
    if reply.Consumed? || reply == Denied(Expired) then s.(codes := Without(s.codes, hash)) else s
  }

  function TransactionExpiry(tx: Transaction): int { tx.expiresAt }

  function CodeExpiry(record: StoredCode): int { record.expiresAt }

  function Live<T>(m: map<string, T>, expiry: T -> int, now: int): map<string, T> {
    map k | k in m && expiry(m[k]) > now :: m[k]
  }

  function Dead<T>(m: map<string, T>, expiry: T -> int, now: int): map<string, T> {
    map k | k in m && expiry(m[k]) <= now :: m[k]
  }

  function ExpiredTransactions(s: Store, now: int): map<string, Transaction> { Dead(s.txs, TransactionExpiry, now) }

  function ExpiredCodes(s: Store, now: int): map<string, StoredCode> { Dead(s.codes, CodeExpiry, now) }

  function Sweep(s: Store, now: int): Store {
    Store(Live(s.txs, TransactionExpiry, now), Live(s.codes, CodeExpiry, now))
  }

  function SweepCount(s: Store, now: int): nat { |ExpiredTransactions(s, now)| + |ExpiredCodes(s, now)| }

  /** Exactly one outcome removes a live code: every binding matches, in time.
      An expired record is removed whatever is presented, and every other
      mismatch leaves it untouched. */
  lemma ConsumeExact(sha: Digest, s: Store, hash: string, check: ExchangeCheck, now: int)
    ensures ConsumeReply(sha, s, hash, check, now).Consumed?
      <==> hash in s.codes && FullyMatches(sha, s.codes[hash], check, now)
    ensures hash in s.codes && hash !in ConsumeCode(sha, s, hash, check, now).codes
      <==> hash in s.codes && (s.codes[hash].expiresAt <= now || FullyMatches(sha, s.codes[hash], check, now))
    ensures forall h :: h != hash ==> (h in ConsumeCode(sha, s, hash, check, now).codes <==> h in s.codes)
    ensures forall h :: h in ConsumeCode(sha, s, hash, check, now).codes ==>
      ConsumeCode(sha, s, hash, check, now).codes[h] == s.codes[h]
  {
  }

  class InMemoryStore {
    var transactions: map<string, Transaction>
    var codes: map<string, StoredCode>

    function View(): Store
      reads this
    {
      Store(transactions, codes)
    }

    constructor ()
      ensures View() == Store(map[], map[])
    {
      transactions, codes := map[], map[];
    }

    method PutTransactionRecord(tx: Transaction)
      modifies this
      ensures View() == PutTransaction(old(View()), tx)
    {
      transactions := transactions[tx.discordState := tx];
    }

    method Take(state: string, now: int) returns (r: TakeResult)
      modifies this
      ensures r == TakeReply(old(View()), state, now)
      ensures View() == TakeTransaction(old(View()), state)
    {
      if state !in transactions {
        assert Without(transactions, state) == transactions;
        return Missing;
      }
      var tx := transactions[state];
      transactions := Without(transactions, state);
      r := if tx.expiresAt <= now then Stale(tx) else Active(tx);
    }

    method PutCodeRecord(record: StoredCode)
      modifies this
      ensures View() == PutCode(old(View()), record)
    {
      codes := codes[record.codeHash := record];
    }

    method Consume(sha: Digest, hash: string, check: ExchangeCheck, now: int) returns (r: ConsumeResult)
      modifies this
      ensures r == ConsumeReply(sha, old(View()), hash, check, now)
      ensures View() == ConsumeCode(sha, old(View()), hash, check, now)
    {
      if hash !in codes { return Denied(Unknown); }
      var record := codes[hash];
      match EvaluateExchange(sha, record, check, now) {
        case None =>
          codes := Without(codes, hash);
          r := Consumed(record);
        case Some(deny) =>
          if deny == Expired { codes := Without(codes, hash); }
          r := Denied(deny);
      }
    }

    /** Both `retain` passes. */
    method SweepExpired(now: int) returns (removed: nat)
      modifies this
      ensures View() == Sweep(old(View()), now) && removed == SweepCount(old(View()), now)
    {
      var fromTransactions, fromCodes;
      transactions, fromTransactions := Retain(transactions, TransactionExpiry, now);
      codes, fromCodes := Retain(codes, CodeExpiry, now);
      removed := fromTransactions + fromCodes;
    }
  }

  /** `HashMap::retain` with a running counter, in any iteration order. */
  method Retain<T>(m: map<string, T>, expiry: T -> int, now: int) returns (kept: map<string, T>, removed: nat)
    ensures kept == Live(m, expiry, now) && removed == |Dead(m, expiry, now)|
  {
    kept, removed := m, 0;
    var todo := m.Keys;
    ghost var gone: set<string> := {};
    while todo != {}
      invariant todo <= m.Keys && removed == |gone|
      invariant forall k :: k in gone <==> k in m && k !in todo && expiry(m[k]) <= now
      invariant kept == map k | k in m && k !in gone :: m[k]
      decreases |todo|
    {
      var k :| k in todo;
      if expiry(m[k]) <= now {
        kept := Without(kept, k);
        removed := removed + 1;
        gone := gone + {k};
      }
      todo := todo - {k};
    }
    assert gone == Dead(m, expiry, now).Keys;
  }
}
