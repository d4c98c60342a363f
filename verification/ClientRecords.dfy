/** Dynamic client records: validation, fixed policy, status and secret
    transitions (crates/oidc-core/src/registry.rs). */
module ClientRecords {
  import opened Basics
  import opened Client
  import opened Util
  import Text
  import Base64
  import opened Form

  const CLIENT_ID_PREFIX := "oji_"
  const CLIENT_ID_BYTES := 16
  const MAX_DISPLAY_NAME_BYTES := 128
  const MAX_REDIRECT_URIS := 16
  const SECRET_ROTATION_OVERLAP_SECS := 600

  datatype Status = Active | Disabled

  datatype Metadata = Metadata(displayName: string, owner: string, redirectUris: seq<string>)

  datatype ClientRecord = ClientRecord(
    clientId: string, metadata: Metadata, clientType: ClientType, authMethod: AuthMethod,
    allowedScopes: seq<string>, status: Status,
    currentHash: Option<string>, previousHash: Option<string>, previousValidUntil: Option<int>,
    createdAt: int, updatedAt: int, disabledAt: Option<int>)

  // ---------- Validation ----------

  predicate IsSnowflake(s: string) {
    15 <= |s| <= 22 && forall i :: 0 <= i < |s| ==> '0' <= s[i] <= '9'
  }

  ghost predicate MetadataOk(policy: UriPolicy, m: Metadata) {
    && 1 <= |m.displayName| <= 128 && Text.Trim(m.displayName) == m.displayName
    && 15 <= |m.owner| <= 22 && IsDigits(m.owner)
    && 1 <= |m.redirectUris| <= 16
    && (forall u :: u in m.redirectUris ==> policy(u)) && Distinct(m.redirectUris)
  }

  datatype ValidationError = DisplayName | OwnerSnowflake | RedirectCount | RedirectDuplicate | RedirectUri(uri: string)

  datatype MetadataVerdict = Valid(metadata: Metadata) | Invalid(error: ValidationError)

  lemma TrimEndIsTrimmed(s: string)
    ensures Text.TrimEnd(s) == "" || !Text.IsSpace(Text.TrimEnd(s)[|Text.TrimEnd(s)| - 1])
    ensures Text.TrimEnd(s) <= s
  {
  }

  lemma TrimStartIsTrimmed(s: string)
    ensures Text.TrimStart(s) == "" || !Text.IsSpace(Text.TrimStart(s)[0])
  {
  }

  lemma TrimTwice(s: string)
    ensures Text.Trim(Text.Trim(s)) == Text.Trim(s)
  {
    TrimStartIsTrimmed(s);
    TrimEndIsTrimmed(Text.TrimStart(s));
    if Text.Trim(s) != "" { TrimNothing(Text.Trim(s)); }
  }

  /** Everything but the redirect URIs themselves is in order. */
  predicate HeadOk(name: string, owner: string, redirectUris: seq<string>) {
    1 <= |name| <= MAX_DISPLAY_NAME_BYTES && IsSnowflake(owner) && 1 <= |redirectUris| <= MAX_REDIRECT_URIS
  }

  /** The first `k` redirect URIs are valid and distinct, the next is not. */
  ghost predicate FirstBadUri(policy: UriPolicy, uris: seq<string>, k: nat) {
    && k < |uris| && (forall j :: 0 <= j < k ==> policy(uris[j])) && Distinct(uris[..k])
    && (!policy(uris[k]) || uris[k] in uris[..k])
  }

  /** Which fault is reported: the first one met, in this order. */
  ghost predicate IsFirstFault(policy: UriPolicy, name: string, owner: string, uris: seq<string>, e: ValidationError) {
    match e
    case DisplayName => !(1 <= |name| <= MAX_DISPLAY_NAME_BYTES)
    case OwnerSnowflake => 1 <= |name| <= MAX_DISPLAY_NAME_BYTES && !IsSnowflake(owner)
    case RedirectCount =>
      1 <= |name| <= MAX_DISPLAY_NAME_BYTES && IsSnowflake(owner) && !(1 <= |uris| <= MAX_REDIRECT_URIS)
    case RedirectUri(uri) =>
      HeadOk(name, owner, uris) && exists k: nat :: FirstBadUri(policy, uris, k) && uris[k] == uri && !policy(uri)
    case RedirectDuplicate =>
      HeadOk(name, owner, uris) && exists k: nat :: FirstBadUri(policy, uris, k) && policy(uris[k])
  }

  /** `validate_metadata`: accepts exactly the metadata that is in order once
      the name is trimmed, only trims the name, and otherwise reports the first
      fault. */
  method ValidateMetadata(policy: UriPolicy, displayName: string, owner: string, redirectUris: seq<string>)
    returns (r: MetadataVerdict)
    ensures r.Valid? <==> MetadataOk(policy, Metadata(Text.Trim(displayName), owner, redirectUris))
    ensures r.Valid? ==> r.metadata == Metadata(Text.Trim(displayName), owner, redirectUris)
    ensures r.Invalid? ==> IsFirstFault(policy, Text.Trim(displayName), owner, redirectUris, r.error)
  {
    var name := Text.Trim(displayName);
    TrimTwice(displayName);
    if name == "" || |name| > MAX_DISPLAY_NAME_BYTES { return Invalid(DisplayName); }
    if !IsSnowflake(owner) { return Invalid(OwnerSnowflake); }
    if redirectUris == [] || |redirectUris| > MAX_REDIRECT_URIS { return Invalid(RedirectCount); }
    var seen: set<string> := {};
    for i := 0 to |redirectUris|
      invariant forall u :: u in seen <==> u in redirectUris[..i]
      invariant forall j :: 0 <= j < i ==> policy(redirectUris[j])
      invariant Distinct(redirectUris[..i])
    {
      var uri := redirectUris[i];
      assert uri in redirectUris;
      assert !policy(uri) || uri in seen ==> FirstBadUri(policy, redirectUris, i);
      if !policy(uri) { return Invalid(RedirectUri(uri)); }
      if uri in seen {
        var j :| 0 <= j < i && redirectUris[j] == uri;
        return Invalid(RedirectDuplicate);
      }
      seen := seen + {uri};
      assert redirectUris[..i + 1] == redirectUris[..i] + [uri];
    }
    assert redirectUris[..|redirectUris|] == redirectUris;
    r := Valid(Metadata(name, owner, redirectUris));
  }

  // ---------- Identifiers ----------

  /** `is_dynamic_client_id`. */
  predicate IsDynamicClientId(id: string) {
    |id| == 26 && CLIENT_ID_PREFIX <= id
    && forall i :: 4 <= i < |id| ==> IsAlphanumeric(id[i]) || id[i] == '-' || id[i] == '_'
  }

  /** The id `generate_client_id` makes of 16 random bytes. */
  function ClientIdText(bytes: seq<byte>): string { CLIENT_ID_PREFIX + Base64.UrlEncode(bytes) }

  /** Every generated id passes the data plane's format guard, and different
      draws give different ids. */
  lemma GeneratedIdIsDynamic(bytes: seq<byte>)
    requires |bytes| == CLIENT_ID_BYTES
    ensures IsDynamicClientId(ClientIdText(bytes))
    ensures Base64.UrlDecode(ClientIdText(bytes)[4..]) == Some(bytes)
  {
    var e := Base64.UrlEncode(bytes);
    Base64.DecodeEncode(Base64.UrlSafe, bytes);
    assert ClientIdText(bytes)[4..] == e;
    assert forall i :: 4 <= i < 26 ==> ClientIdText(bytes)[i] == e[i - 4];
  }

  /** The guard, exactly: the prefix and 22 URL-safe characters. */
  lemma DynamicIdExact(id: string)
    ensures IsDynamicClientId(id) <==> exists t :: id == "oji_" + t && |t| == 22 && UrlSafeText(t)
  {
    if IsDynamicClientId(id) {
      assert id == "oji_" + id[4..] && UrlSafeText(id[4..]);
    }
    if t :| id == "oji_" + t && |t| == 22 && UrlSafeText(t) {
      assert forall i :: 4 <= i < 26 ==> id[i] == t[i - 4];
    }
  }

  // ---------- Transitions ----------

  function FixedMethod(t: ClientType): AuthMethod {
    if t == Public then NoAuthentication else ClientSecretBasic
  }

  /** `DynamicClientRecord::new`. */
  function NewRecord(id: string, m: Metadata, t: ClientType, secretHash: Option<string>, now: int): ClientRecord {
    ClientRecord(id, m, t, FixedMethod(t), SUPPORTED_SCOPES, Active, secretHash, None, None, now, now, None)
  }

  function ToConfig(r: ClientRecord): ClientConfig {
    ClientConfig(r.clientId, r.metadata.redirectUris, r.allowedScopes, r.clientType, r.authMethod)
  }

  datatype RecordOp =
    | Update(metadata: Metadata, now: int)
    | Disable(now: int)
    | Enable(now: int)
    | Rotate(hash: string, now: int)

  function Apply(r: ClientRecord, op: RecordOp): ClientRecord {
    match op
    case Update(m, now) => r.(metadata := m, updatedAt := now)
    case Disable(now) =>
      if r.status == Active then r.(status := Disabled, disabledAt := Some(now), updatedAt := now) else r
    case Enable(now) =>
      if r.status == Disabled then r.(status := Active, disabledAt := None, updatedAt := now) else r
    case Rotate(hash, now) =>
      if r.clientType != Confidential then r
      else r.(currentHash := Some(hash), previousHash := r.currentHash,
              previousValidUntil := if r.currentHash.Some? then Some(now + SECRET_ROTATION_OVERLAP_SECS) else None,
              updatedAt := now)
  }

  /** `verify_secret`. */
  predicate VerifySecret(sha: Digest, r: ClientRecord, presented: string, now: int) {
    var h := HashText(sha, presented);
    && r.status == Active
    && (r.currentHash == Some(h)
        || (r.previousValidUntil.Some? && r.previousValidUntil.value > now && r.previousHash == Some(h)))
  }

  /** One record as the program holds it while it changes it: the methods
      update the fields in place. */
  class RecordCell {
    var metadata: Metadata
    var status: Status
    var currentHash: Option<string>
    var previousHash: Option<string>
    var previousValidUntil: Option<int>
    var updatedAt: int
    var disabledAt: Option<int>
    const clientId: string
    const clientType: ClientType
    const authMethod: AuthMethod
    const allowedScopes: seq<string>
    const createdAt: int

    /** The stored form of the record (what is read from and written to storage). */
    function Stored(): ClientRecord
      reads this
    {
      ClientRecord(clientId, metadata, clientType, authMethod, allowedScopes, status,
                   currentHash, previousHash, previousValidUntil, createdAt, updatedAt, disabledAt)
    }

    constructor Load(r: ClientRecord)
      ensures Stored() == r
    {
      clientId, metadata, clientType, authMethod := r.clientId, r.metadata, r.clientType, r.authMethod;
      allowedScopes, status := r.allowedScopes, r.status;
      currentHash, previousHash, previousValidUntil := r.currentHash, r.previousHash, r.previousValidUntil;
      createdAt, updatedAt, disabledAt := r.createdAt, r.updatedAt, r.disabledAt;
    }

    method ApplyMetadata(m: Metadata, now: int)
      modifies this
      ensures Stored() == Apply(old(Stored()), Update(m, now))
    {
      metadata := m;
      updatedAt := now;
    }

    method DisableClient(now: int)
      modifies this
      ensures Stored() == Apply(old(Stored()), Disable(now))
    {
      if status == Active {
        status := Disabled;
        disabledAt := Some(now);
        updatedAt := now;
      }
    }

    method EnableClient(now: int)
      modifies this
      ensures Stored() == Apply(old(Stored()), Enable(now))
    {
      if status == Disabled {
        status := Active;
        disabledAt := None;
        updatedAt := now;
      }
    }

    /** `None` when the client has no secret to rotate. */
    method RotateSecret(hash: string, now: int) returns (validUntil: Option<int>)
      modifies this
      ensures Stored() == Apply(old(Stored()), Rotate(hash, now))
      ensures validUntil == if clientType == Confidential then Some(now + 600) else None
    {
      if clientType != Confidential { return None; }
      validUntil := Some(now + SECRET_ROTATION_OVERLAP_SECS);
      previousHash := currentHash;
      currentHash := Some(hash);
      previousValidUntil := if previousHash.Some? then validUntil else None;
      updatedAt := now;
    }
  }

  // ---------- Runs of operations ----------

  function ApplyAll(r: ClientRecord, ops: seq<RecordOp>): ClientRecord {
    if ops == [] then r else Apply(ApplyAll(r, ops[..|ops| - 1]), ops[|ops| - 1])
  }

  datatype Rotation = Rotation(hash: string, at: int)

  /** Every hash the client ever had, oldest first. */
  function RotationLog(first: Rotation, ops: seq<RecordOp>): (log: seq<Rotation>)
    ensures log != []
  {
    if ops == [] then [first]
    else
      var log, op := RotationLog(first, ops[..|ops| - 1]), ops[|ops| - 1];
      if op.Rotate? then log + [Rotation(op.hash, op.now)] else log
  }

  /** Whether the last status change, if any, was an enable. */
  predicate ActiveAfter(ops: seq<RecordOp>) {
    if ops == [] then true
    else
      var op := ops[|ops| - 1];
      if op.Enable? then true else if op.Disable? then false else ActiveAfter(ops[..|ops| - 1])
  }

  /** The rule over the whole log: the newest hash always, the one before it
      for 600 s after the newest was set, nothing older. */
  predicate AcceptedByLog(log: seq<Rotation>, hash: string, now: int)
    requires log != []
  {
    var last := log[|log| - 1];
    || hash == last.hash
    || (|log| >= 2 && hash == log[|log| - 2].hash && now < last.at + 600)
  }

  /** The three secret fields and the status are a lossless summary of the log. */
  ghost predicate Summarizes(r: ClientRecord, log: seq<Rotation>)
    requires log != []
  {
    var last := log[|log| - 1];
    && r.currentHash == Some(last.hash)
    && r.previousHash == (if |log| >= 2 then Some(log[|log| - 2].hash) else None)
    && r.previousValidUntil == (if |log| >= 2 then Some(last.at + SECRET_ROTATION_OVERLAP_SECS) else None)
  }

  lemma {:induction false} RunSummary(id: string, m: Metadata, t: ClientType, first: Rotation, ops: seq<RecordOp>)
    ensures var r := ApplyAll(NewRecord(id, m, t, if t == Confidential then Some(first.hash) else None, first.at), ops);
            && r.clientId == id && r.clientType == t && (r.status == Active <==> ActiveAfter(ops))
            && (t == Confidential ==> Summarizes(r, RotationLog(first, ops)))
            && (t == Public ==> r.currentHash == None && r.previousHash == None && r.previousValidUntil == None)
  {
    if ops != [] { RunSummary(id, m, t, first, ops[..|ops| - 1]); }
  }

  /** After any history of updates, status changes and rotations, a presented
      secret verifies exactly when the client is active, confidential, and the
      full rotation log accepts the hash. */
  lemma SecretHistory(sha: Digest, id: string, m: Metadata, t: ClientType, first: Rotation, ops: seq<RecordOp>,
                      presented: string, now: int)
    ensures var r := ApplyAll(NewRecord(id, m, t, if t == Confidential then Some(first.hash) else None, first.at), ops);
            VerifySecret(sha, r, presented, now)
            <==> t == Confidential && ActiveAfter(ops)
                 && AcceptedByLog(RotationLog(first, ops), HashText(sha, presented), now)
  {
    RunSummary(id, m, t, first, ops);
  }

  /** Operation `k` is the last update. */
  ghost predicate LastUpdate(ops: seq<RecordOp>, k: nat) {
    k < |ops| && ops[k].Update? && forall j :: k < j < |ops| ==> !ops[j].Update?
  }

  /** After any history the metadata is that of the last update, or of the
      creation if there was none: status changes and rotations leave it alone. */
  lemma {:induction false} MetadataOfHistory(r: ClientRecord, ops: seq<RecordOp>)
    ensures forall k: nat :: LastUpdate(ops, k) ==> ApplyAll(r, ops).metadata == ops[k].metadata
    ensures (forall k: nat :: !LastUpdate(ops, k)) ==> ApplyAll(r, ops).metadata == r.metadata
  {
    if ops != [] {
      var n := |ops| - 1;
      MetadataOfHistory(r, ops[..n]);
      if ops[n].Update? {
        assert LastUpdate(ops, n);
      } else {
        assert forall k: nat :: LastUpdate(ops, k) <==> LastUpdate(ops[..n], k);
      }
    }
  }

  /** Operation `k` changes the record: an update always, a rotation if there is
      a secret, a status change if the status is not that already. */
  ghost predicate Effective(t: ClientType, ops: seq<RecordOp>, k: nat)
    requires k < |ops|
  {
    match ops[k]
    case Update(_, _) => true
    case Rotate(_, _) => t == Confidential
    case Disable(_) => ActiveAfter(ops[..k])
    case Enable(_) => !ActiveAfter(ops[..k])
  }

  ghost predicate LastEffective(t: ClientType, ops: seq<RecordOp>, k: nat) {
    k < |ops| && Effective(t, ops, k) && forall j :: k < j < |ops| ==> !Effective(t, ops, j)
  }

  lemma EffectiveBefore(t: ClientType, ops: seq<RecordOp>, k: nat)
    requires k < |ops| - 1
    ensures Effective(t, ops[..|ops| - 1], k) <==> Effective(t, ops, k)
  {
    assert ops[..|ops| - 1][..k] == ops[..k];
  }

  lemma LastEffectiveBefore(t: ClientType, ops: seq<RecordOp>, k: nat)
    requires ops != [] && !Effective(t, ops, |ops| - 1)
    ensures LastEffective(t, ops, k) <==> LastEffective(t, ops[..|ops| - 1], k)
  {
    var front := ops[..|ops| - 1];
    forall j: nat | j < |front| ensures Effective(t, front, j) <==> Effective(t, ops, j) {
      EffectiveBefore(t, ops, j);
    }
    if LastEffective(t, front, k) {
      assert forall j :: k < j < |front| ==> !Effective(t, front, j);
      assert forall j :: k < j < |ops| ==> !Effective(t, ops, j);
    }
  }

  /** The record's `updated_at` is the time of the last operation that changed
      it, or of its creation. */
  lemma {:induction false} UpdatedAtOfHistory(id: string, m: Metadata, t: ClientType, first: Rotation,
                                              ops: seq<RecordOp>)
    ensures var r := ApplyAll(NewRecord(id, m, t, if t == Confidential then Some(first.hash) else None, first.at), ops);
            && (forall k: nat :: LastEffective(t, ops, k) ==> r.updatedAt == ops[k].now)
            && ((forall k: nat :: !LastEffective(t, ops, k)) ==> r.updatedAt == first.at)
  {
    if ops != [] {
      var n := |ops| - 1;
      UpdatedAtOfHistory(id, m, t, first, ops[..n]);
      RunSummary(id, m, t, first, ops[..n]);
      if Effective(t, ops, n) {
        assert LastEffective(t, ops, n);
      } else {
        forall k: nat ensures LastEffective(t, ops, k) <==> LastEffective(t, ops[..n], k) {
          LastEffectiveBefore(t, ops, k);
        }
      }
    }
  }

  /** Operation `k` disabled the client and it has been disabled since. */
  ghost predicate DisabledBy(ops: seq<RecordOp>, k: nat) {
    && k < |ops| && ops[k].Disable? && ActiveAfter(ops[..k])
    && forall j :: k < j < |ops| ==> !ops[j].Enable?
  }

  lemma {:induction false} DisabledByBefore(ops: seq<RecordOp>, k: nat)
    requires ops != [] && !ops[|ops| - 1].Enable? && k < |ops| - 1
    ensures DisabledBy(ops, k) <==> DisabledBy(ops[..|ops| - 1], k)
  {
    assert ops[..|ops| - 1][..k] == ops[..k];
  }

  /** A client is inactive exactly when some operation disabled it, for good
      until now. */
  lemma {:induction false} DisabledBySome(ops: seq<RecordOp>)
    ensures ActiveAfter(ops) <==> forall k: nat :: !DisabledBy(ops, k)
  {
    if ops != [] {
      var n := |ops| - 1;
      DisabledBySome(ops[..n]);
      if ops[n].Disable? && ActiveAfter(ops[..n]) { assert DisabledBy(ops, n); }
      if !ops[n].Enable? {
        forall k: nat | k < n ensures DisabledBy(ops, k) <==> DisabledBy(ops[..n], k) { DisabledByBefore(ops, k); }
      }
    }
  }

  /** And `disabled_at` is the time of that operation. */
  lemma {:induction false} DisabledAtOfHistory(id: string, m: Metadata, t: ClientType, first: Rotation,
                                               ops: seq<RecordOp>)
    ensures var r := ApplyAll(NewRecord(id, m, t, if t == Confidential then Some(first.hash) else None, first.at), ops);
            && (forall k: nat :: DisabledBy(ops, k) ==> r.disabledAt == Some(ops[k].now))
            && ((forall k: nat :: !DisabledBy(ops, k)) ==> r.disabledAt == None)
  {
    if ops != [] {
      var n := |ops| - 1;
      DisabledAtOfHistory(id, m, t, first, ops[..n]);
      RunSummary(id, m, t, first, ops[..n]);
      DisabledBySome(ops);
      DisabledBySome(ops[..n]);
      if !ops[n].Enable? {
        forall k: nat | k < n ensures DisabledBy(ops, k) <==> DisabledBy(ops[..n], k) { DisabledByBefore(ops, k); }
      }
    }
  }

  /** At any moment at most two hashes are accepted, and 600 s after the last
      rotation only one. */
  lemma FewSecrets(log: seq<Rotation>, a: string, b: string, c: string, now: int)
    requires log != [] && AcceptedByLog(log, a, now) && AcceptedByLog(log, b, now) && AcceptedByLog(log, c, now)
    ensures a == b || b == c || a == c
    ensures now >= log[|log| - 1].at + SECRET_ROTATION_OVERLAP_SECS ==> a == b == c
  {
  }

  /** What every record the admin API can produce satisfies. */
  ghost predicate RecordOk(policy: UriPolicy, r: ClientRecord) {
    && MetadataOk(policy, r.metadata)
    && r.authMethod == FixedMethod(r.clientType) && r.allowedScopes == SUPPORTED_SCOPES
    && (r.currentHash.Some? <==> r.clientType == Confidential)
    && (r.previousHash.Some? <==> r.previousValidUntil.Some?) && (r.previousHash.Some? ==> r.currentHash.Some?)
    && (r.status == Disabled <==> r.disabledAt.Some?)
  }

  ghost predicate TimesOk(r: ClientRecord, now: int) {
    && r.createdAt <= r.updatedAt <= now
    && (r.disabledAt.Some? ==> r.createdAt <= r.disabledAt.value <= r.updatedAt)
  }

  lemma NewRecordOk(policy: UriPolicy, id: string, m: Metadata, t: ClientType, hash: Option<string>, now: int)
    requires MetadataOk(policy, m) && (hash.Some? <==> t == Confidential)
    ensures RecordOk(policy, NewRecord(id, m, t, hash, now)) && TimesOk(NewRecord(id, m, t, hash, now), now)
  {
  }

  /** Every transition keeps the record in order and leaves the identity, type,
      method, scopes and creation time alone; under a clock that does not run
      backwards the times stay ordered. */
  lemma ApplyKeepsRecord(policy: UriPolicy, r: ClientRecord, op: RecordOp, before: int)
    requires RecordOk(policy, r) && (op.Update? ==> MetadataOk(policy, op.metadata))
    ensures var r' := Apply(r, op);
            && RecordOk(policy, r') && r'.clientId == r.clientId && r'.clientType == r.clientType
            && r'.authMethod == r.authMethod && r'.allowedScopes == r.allowedScopes && r'.createdAt == r.createdAt
            && (TimesOk(r, before) && before <= op.now ==> TimesOk(r', op.now))
  {
  }
}
