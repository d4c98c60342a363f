/** Authorization transactions and authorization codes
    (crates/oidc-core/src/transaction.rs and code.rs). */
module Code {
  import opened Basics
  import opened Util
  import Pkce

  const TRANSACTION_TTL_SECS := 600
  const AUTHORIZATION_CODE_TTL_SECS := 60

  datatype Transaction = Transaction(
    id: string, clientId: string, redirectUri: string, scope: string,
    rpState: Option<string>, nonce: Option<string>, challenge: string,
    discordState: string, createdAt: int, expiresAt: int)

  datatype StoredCode = StoredCode(
    codeHash: string, clientId: string, redirectUri: string, subject: string, scope: string,
    nonce: Option<string>, challenge: string, createdAt: int, expiresAt: int)

  /** `AuthorizationTransaction::new` with the two tokens it draws. */
  function NewTransaction(clientId: string, redirectUri: string, scope: string, rpState: Option<string>,
                          nonce: Option<string>, challenge: string, idDraw: Bytes32, stateDraw: Bytes32,
                          now: int): Transaction {
    Transaction(TokenText(idDraw), clientId, redirectUri, scope, rpState, nonce, challenge,
                TokenText(stateDraw), now, now + TRANSACTION_TTL_SECS)
  }

  /** The record of `issue_code`; the plaintext is `TokenText(draw)`. */
  function IssueCode(sha: Digest, tx: Transaction, subject: string, draw: Bytes32, now: int): StoredCode {
    StoredCode(HashText(sha, TokenText(draw)), tx.clientId, tx.redirectUri, subject, tx.scope,
               tx.nonce, tx.challenge, now, now + AUTHORIZATION_CODE_TTL_SECS)
  }

  datatype ExchangeCheck = ExchangeCheck(clientId: string, redirectUri: string, verifier: string)

  datatype Deny = Unknown | Expired | ClientMismatch | RedirectMismatch | PkceMismatch

  /** `evaluate_code_exchange`: `None` accepts. */
  function EvaluateExchange(sha: Digest, record: StoredCode, check: ExchangeCheck, now: int): Option<Deny> {
    if record.expiresAt <= now then Some(Expired)
    else if record.clientId != check.clientId then Some(ClientMismatch)
    else if record.redirectUri != check.redirectUri then Some(RedirectMismatch)
    else if !Pkce.VerifyS256(sha, check.verifier, record.challenge) then Some(PkceMismatch)
    else None
  }

  /** All bindings of a code at once, before its expiry. */
  ghost predicate FullyMatches(sha: Digest, record: StoredCode, check: ExchangeCheck, now: int) {
    && now < record.expiresAt
    && check.clientId == record.clientId && check.redirectUri == record.redirectUri
    && Pkce.VerifyS256(sha, check.verifier, record.challenge)
  }
}
