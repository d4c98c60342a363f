/** RSA public keys: the bit length of a base64url integer and the checks on
    operator-supplied keys (crates/oidc-core/src/jwk.rs, config.rs). */
module Jwk {
  import opened Basics
  import opened Form
  import Base64

  const MIN_RSA_MODULUS_BITS: nat := 2048

  function Pow2(n: nat): nat { if n == 0 then 1 else 2 * Pow2(n - 1) }

  lemma {:induction false} Pow2Positive(n: nat)
    ensures Pow2(n) > 0
  {
    if n > 0 { Pow2Positive(n - 1); }
  }

  lemma {:induction false} Pow2Monotone(m: nat, n: nat)
    requires m <= n
    ensures Pow2(m) <= Pow2(n)
  {
    if m < n { Pow2Monotone(m, n - 1); }
  }

  lemma DoubleProduct(a: nat, b: nat)
    ensures 2 * (a * b) == (2 * a) * b
  {
  }

  lemma {:induction false} Pow2Adds(m: nat, n: nat)
    ensures Pow2(m + n) == Pow2(m) * Pow2(n)
  {
    if m > 0 {
      Pow2Adds(m - 1, n);
      DoubleProduct(Pow2(m - 1), Pow2(n));
      assert m + n - 1 == m - 1 + n;
    }
  }

  /** The unsigned big-endian integer. */
  function Value(bytes: seq<byte>): nat {
    if bytes == [] then 0
    else Pow2Positive(8 * (|bytes| - 1)); bytes[0] * Pow2(8 * (|bytes| - 1)) + Value(bytes[1..])
  }

  function SkipZeros(bytes: seq<byte>): (r: seq<byte>)
    ensures r != [] ==> r[0] != 0
  {
    if bytes != [] && bytes[0] == 0 then SkipZeros(bytes[1..]) else bytes
  }

  /** `u8::leading_zeros`. */
  function LeadingZeros(b: byte): (z: int)
    requires b > 0
    ensures 0 <= z < 8
  {
    if b >= 128 then 0 else if b >= 64 then 1 else if b >= 32 then 2 else if b >= 16 then 3
    else if b >= 8 then 4 else if b >= 4 then 5 else if b >= 2 then 6 else 7
  }

  /** `b64url_uint_bits`. */
  function UintBits(s: string): Option<int> {
    match Base64.UrlDecode(s)
    case None => None
    case Some(bytes) =>
      var rest := SkipZeros(bytes);
      if rest == [] then None else Some(8 * |rest| - LeadingZeros(rest[0]))
  }

  lemma {:induction false} SkipZerosKeepsValue(bytes: seq<byte>)
    ensures Value(SkipZeros(bytes)) == Value(bytes)
  {
    if bytes != [] && bytes[0] == 0 { SkipZerosKeepsValue(bytes[1..]); }
  }

  lemma MulMonotone(a: int, b: int, p: nat)
    requires a <= b
    ensures a * p <= b * p
  {
  }

  lemma LeadingDigit(b: int, p: nat, rest: nat, low: nat, high: nat)
    requires low <= b < high && rest < p
    ensures low * p <= b * p + rest < high * p
  {
    MulMonotone(low, b, p);
    MulMonotone(b + 1, high, p);
    assert (b + 1) * p == b * p + p;
  }

  lemma {:induction false} ValueBound(bytes: seq<byte>)
    ensures Value(bytes) < Pow2(8 * |bytes|)
  {
    if bytes == [] {
      assert Pow2(0) == 1;
    } else {
      var m := 8 * (|bytes| - 1);
      ValueBound(bytes[1..]);
      assert Pow2(8 + m) == 256 * Pow2(m) by { Pow2Adds(8, m); assert Pow2(8) == 256; }
      LeadingDigit(bytes[0], Pow2(m), Value(bytes[1..]), 0, 256);
      assert 8 * |bytes| == 8 + m;
    }
  }

  lemma ByteBits(b: byte)
    requires b > 0
    ensures Pow2(7 - LeadingZeros(b)) <= b < Pow2(8 - LeadingZeros(b))
  {
    assert Pow2(0) == 1 && Pow2(1) == 2 && Pow2(2) == 4 && Pow2(3) == 8 && Pow2(4) == 16;
    assert Pow2(5) == 32 && Pow2(6) == 64 && Pow2(7) == 128 && Pow2(8) == 256;
  }

  lemma BitsOfNormal(bytes: seq<byte>)
    requires bytes != [] && bytes[0] != 0
    ensures var k := 8 * |bytes| - LeadingZeros(bytes[0]);
            k > 0 && Pow2(k - 1) <= Value(bytes) < Pow2(k)
  {
    var m := 8 * (|bytes| - 1);
    var z := LeadingZeros(bytes[0]);
    ByteBits(bytes[0]);
    ValueBound(bytes[1..]);
    Pow2Adds(7 - z, m);
    Pow2Adds(8 - z, m);
    LeadingDigit(bytes[0], Pow2(m), Value(bytes[1..]), Pow2(7 - z), Pow2(8 - z));
    assert 8 * |bytes| - z == 8 - z + m;
  }

  /** The reported bit length is the position of the highest set bit of the
      encoded integer, however many zero bytes lead; there is none exactly when
      the text does not decode or the integer is zero. */
  lemma UintBitsExact(s: string, k: int)
    ensures UintBits(s) == Some(k)
      <==> k > 0 && Base64.UrlDecode(s).Some?
           && Pow2(k - 1) <= Value(Base64.UrlDecode(s).value) < Pow2(k)
    ensures UintBits(s) == None
      <==> Base64.UrlDecode(s) == None || Value(Base64.UrlDecode(s).value) == 0
  {
    if Base64.UrlDecode(s).Some? {
      var bytes := Base64.UrlDecode(s).value;
      var rest := SkipZeros(bytes);
      SkipZerosKeepsValue(bytes);
      if rest != [] {
        BitsOfNormal(rest);
        var j := UintBits(s).value;
        Pow2Positive(j - 1);
        if k > 0 && k < j { Pow2Monotone(k, j - 1); }
        if k > j { Pow2Monotone(j, k - 1); }
      } else if k > 0 {
        Pow2Positive(k - 1);
      }
    }
  }

  datatype Json = Text(text: string) | Other

  type JsonObject = map<string, Json>

  function TextField(obj: JsonObject, name: string): Option<string> {
    if name in obj && obj[name].Text? then Some(obj[name].text) else None
  }

  datatype PublicKey = PublicKey(usage: Option<string>, alg: Option<string>, kid: string, n: string, e: string)

  datatype KeyError = PrivateMaterial | NotRsaPublic | InvalidKeyMaterial | WeakKey
                    | UnsupportedAlgOrUse | InvalidKid | DuplicateKeyId(kid: string)

  datatype KeyResult = Accepted(key: PublicKey) | Rejected(error: KeyError)

  predicate IsKidChar(c: char) { IsAlphanumeric(c) || c == '.' || c == '_' || c == '-' }

  predicate IsValidKid(kid: string) {
    kid != "" && |kid| <= 64 && forall i :: 0 <= i < |kid| ==> IsKidChar(kid[i])
  }

  const PRIVATE_FIELDS := {"d", "p", "q", "dp", "dq", "qi", "oth"}

  /** `Jwk::validate_public`. */
  function ValidatePublic(obj: JsonObject): KeyResult {
    var n, e, kid := TextField(obj, "n"), TextField(obj, "e"), TextField(obj, "kid");
    if exists f :: f in PRIVATE_FIELDS && f in obj then Rejected(PrivateMaterial)
    else if TextField(obj, "kty") != Some("RSA") then Rejected(NotRsaPublic)
    else if n == None || e == None then Rejected(NotRsaPublic)
    else if UintBits(n.value) == None then Rejected(InvalidKeyMaterial)
    else if UintBits(n.value).value < MIN_RSA_MODULUS_BITS then Rejected(WeakKey)
    else if UintBits(e.value) == None then Rejected(InvalidKeyMaterial)
    else if TextField(obj, "alg") != None && TextField(obj, "alg") != Some("RS256") then Rejected(UnsupportedAlgOrUse)
    else if TextField(obj, "use") != None && TextField(obj, "use") != Some("sig") then Rejected(UnsupportedAlgOrUse)
    else if kid == None || !IsValidKid(kid.value) then Rejected(InvalidKid)
    else Accepted(PublicKey(TextField(obj, "use"), TextField(obj, "alg"), kid.value, n.value, e.value))
  }

  function Integer(s: string): nat {
    match Base64.UrlDecode(s)
    case None => 0
    case Some(bytes) => Value(bytes)
  }

  /** An accepted key is public, its modulus is at least 2^2047 and its
      exponent is not zero; `bits` keeps the power symbolic. */
  lemma AcceptedKeysAreStrong(obj: JsonObject, bits: nat)
    requires bits == 2048 && ValidatePublic(obj).Accepted?
    ensures Integer(ValidatePublic(obj).key.n) >= Pow2(bits - 1)
    ensures Integer(ValidatePublic(obj).key.e) > 0
    ensures obj.Keys !! {"d", "p", "q", "dp", "dq", "qi", "oth"} && IsValidKid(ValidatePublic(obj).key.kid)
  {
    var key := ValidatePublic(obj).key;
    var k := UintBits(key.n).value;
    UintBitsExact(key.n, k);
    UintBitsExact(key.e, 1);
    Pow2Monotone(bits - 1, k - 1);
  }

  /** What the fields of a usable key say, its numbers apart. */
  ghost predicate FieldsOk(obj: JsonObject, key: PublicKey) {
    && obj.Keys !! {"d", "p", "q", "dp", "dq", "qi", "oth"} && TextField(obj, "kty") == Some("RSA")
    && TextField(obj, "n") == Some(key.n) && TextField(obj, "e") == Some(key.e)
    && TextField(obj, "kid") == Some(key.kid) && 1 <= |key.kid| <= 64
    && (forall c :: c in key.kid ==> Base64.InText(c, "._-"))
    && TextField(obj, "alg") == key.alg && (key.alg.Some? ==> key.alg.value == "RS256")
    && TextField(obj, "use") == key.usage && (key.usage.Some? ==> key.usage.value == "sig")
  }

  /** The modulus has `bits` bits, and the exponent is not zero. */
  ghost predicate IsUsable(obj: JsonObject, key: PublicKey, bits: nat)
    requires bits > 0
  {
    FieldsOk(obj, key) && Integer(key.n) >= Pow2(bits - 1) && Integer(key.e) > 0
  }

  lemma KidExact(kid: string)
    ensures IsValidKid(kid) <==> 1 <= |kid| <= 64 && forall c :: c in kid ==> Base64.InText(c, "._-")
  {
    forall c ensures Base64.InText(c, "._-") <==> IsKidChar(c) {
      Base64.CharacterRanges(c);
    }
    assert forall i :: 0 <= i < |kid| ==> kid[i] in kid;
  }

  lemma ModulusIsLong(n: string, bits: nat)
    requires bits > 0
    ensures Integer(n) >= Pow2(bits - 1) <==> UintBits(n).Some? && UintBits(n).value >= bits
  {
    Pow2Positive(bits - 1);
    UintBitsExact(n, 1);
    if UintBits(n).Some? {
      var k := UintBits(n).value;
      UintBitsExact(n, k);
      if k < bits { Pow2Monotone(k, bits - 1); } else { Pow2Monotone(bits - 1, k - 1); }
    }
  }

  lemma FieldsDecide(obj: JsonObject, key: PublicKey)
    ensures ValidatePublic(obj) == Accepted(key)
      <==> FieldsOk(obj, key) && UintBits(key.n).Some? && UintBits(key.n).value >= 2048 && UintBits(key.e).Some?
  {
    KidExact(key.kid);
  }

  /** A key is accepted exactly if it is usable, and as it says. */
  lemma AcceptedExactly(obj: JsonObject, key: PublicKey, bits: nat)
    requires bits == 2048
    ensures ValidatePublic(obj) == Accepted(key) <==> IsUsable(obj, key, bits)
  {
    FieldsDecide(obj, key);
    ModulusIsLong(key.n, bits);
    UintBitsExact(key.e, 1);
  }

  ghost predicate IsPrivate(obj: JsonObject) { !(obj.Keys !! {"d", "p", "q", "dp", "dq", "qi", "oth"}) }

  ghost predicate HasNumbers(obj: JsonObject) {
    TextField(obj, "kty") == Some("RSA") && TextField(obj, "n").Some? && TextField(obj, "e").Some?
  }

  ghost predicate IsForSigning(obj: JsonObject) {
    && TextField(obj, "alg") in {None, Some("RS256")} && TextField(obj, "use") in {None, Some("sig")}
  }

  ghost predicate KidFits(obj: JsonObject) { TextField(obj, "kid").Some? && IsValidKid(TextField(obj, "kid").value) }

  /** Why a key is refused, given whether its modulus is zero or long enough and
      its exponent zero: each reason under its own condition. */
  ghost predicate IsFaultWith(obj: JsonObject, e: KeyError, zero: bool, long: bool, zeroExponent: bool) {
    var public, strong := !IsPrivate(obj) && HasNumbers(obj), long && !zeroExponent;
    match e
    case PrivateMaterial => IsPrivate(obj)
    case NotRsaPublic => !IsPrivate(obj) && !HasNumbers(obj)
    case InvalidKeyMaterial => public && (zero || (long && zeroExponent))
    case WeakKey => public && !zero && !long
    case UnsupportedAlgOrUse => public && strong && !IsForSigning(obj)
    case InvalidKid => public && strong && IsForSigning(obj) && !KidFits(obj)
    case DuplicateKeyId(_) => false
  }

  ghost predicate IsKeyFault(obj: JsonObject, e: KeyError, bits: nat)
    requires bits > 0
  {
    if !HasNumbers(obj) then IsFaultWith(obj, e, false, false, false)
    else
      var n, exponent := Integer(TextField(obj, "n").value), Integer(TextField(obj, "e").value);
      IsFaultWith(obj, e, n == 0, n >= Pow2(bits - 1), exponent == 0)
  }

  lemma FaultsDecide(obj: JsonObject, e: KeyError, zero: bool, long: bool, zeroExponent: bool)
    requires HasNumbers(obj) ==>
      && (zero <==> UintBits(TextField(obj, "n").value) == None)
      && (long <==> !zero && UintBits(TextField(obj, "n").value).value >= 2048)
      && (zeroExponent <==> UintBits(TextField(obj, "e").value) == None)
    ensures ValidatePublic(obj) == Rejected(e) <==> IsFaultWith(obj, e, zero, long, zeroExponent)
  {
  }

  lemma RejectedExactly(obj: JsonObject, e: KeyError, bits: nat)
    requires bits == 2048
    ensures ValidatePublic(obj) == Rejected(e) <==> IsKeyFault(obj, e, bits)
  {
    if HasNumbers(obj) {
      var n, exponent := TextField(obj, "n").value, TextField(obj, "e").value;
      ModulusIsLong(n, bits);
      UintBitsExact(n, 1);
      UintBitsExact(exponent, 1);
      FaultsDecide(obj, e, Integer(n) == 0, Integer(n) >= Pow2(bits - 1), Integer(exponent) == 0);
    } else {
      FaultsDecide(obj, e, false, false, false);
    }
  }

  /** `alg` and `use` are enforced when they are present as text. A member that
      is present as anything else passes like an absent one. */
  lemma AlgEnforcedExactly(obj: JsonObject, v: Json)
    requires ValidatePublic(obj).Accepted?
    ensures ValidatePublic(obj["alg" := v]).Accepted? <==> v == Text("RS256") || v.Other?
    ensures ValidatePublic(obj["use" := v]).Accepted? <==> v == Text("sig") || v.Other?
  {
    SameOtherFields(obj, "alg", v);
    SameOtherFields(obj, "use", v);
  }

  lemma SameOtherFields(obj: JsonObject, name: string, v: Json)
    requires name !in PRIVATE_FIELDS
    ensures forall other :: other != name ==> TextField(obj[name := v], other) == TextField(obj, other)
    ensures TextField(obj[name := v], name) == if v.Text? then Some(v.text) else None
    ensures forall f :: f in PRIVATE_FIELDS ==> (f in obj[name := v] <==> f in obj)
  {
  }

  /** Conversely only a short modulus is reported as weak. */
  lemma WeakKeysAreShort(obj: JsonObject, bits: nat)
    requires bits == 2048 && ValidatePublic(obj) == Rejected(WeakKey)
    ensures TextField(obj, "n").Some? && 0 < Integer(TextField(obj, "n").value) < Pow2(bits - 1)
  {
    var n := TextField(obj, "n").value;
    var k := UintBits(n).value;
    UintBitsExact(n, k);
    Pow2Positive(k - 1);
    Pow2Monotone(k, bits - 1);
  }

  datatype KeysResult = Keys(keys: seq<PublicKey>) | KeysError(error: KeyError)

  function KidOf(r: KeyResult): string { if r.Accepted? then r.key.kid else "" }

  /** The signing key's kid followed by those of the additional keys. */
  function AllKids(validate: JsonObject -> KeyResult, signingKid: string, raw: seq<JsonObject>): seq<string> {
    if raw == [] then [signingKid]
    else AllKids(validate, signingKid, raw[..|raw| - 1]) + [KidOf(validate(raw[|raw| - 1]))]
  }

  lemma DistinctSnoc(kids: seq<string>, kid: string)
    ensures Distinct(kids + [kid]) <==> Distinct(kids) && kid !in kids
  {
    var more := kids + [kid];
    assert forall i :: 0 <= i < |kids| ==> more[i] == kids[i];
    if kid in kids {
      var i :| 0 <= i < |kids| && kids[i] == kid;
      assert more[i] == more[|kids|];
    }
  }

  lemma KidsOfPrefix(validate: JsonObject -> KeyResult, signingKid: string, raw: seq<JsonObject>, n: nat)
    requires n < |raw|
    ensures AllKids(validate, signingKid, raw[..n + 1])
        == AllKids(validate, signingKid, raw[..n]) + [KidOf(validate(raw[n]))]
  {
    assert raw[..n + 1][..n] == raw[..n];
  }

  lemma {:induction false} DistinctOfPrefix(validate: JsonObject -> KeyResult, signingKid: string,
                                            raw: seq<JsonObject>, n: nat)
    requires n <= |raw| && Distinct(AllKids(validate, signingKid, raw))
    ensures Distinct(AllKids(validate, signingKid, raw[..n]))
  {
    if n < |raw| {
      var m := |raw| - 1;
      DistinctSnoc(AllKids(validate, signingKid, raw[..m]), KidOf(validate(raw[m])));
      DistinctOfPrefix(validate, signingKid, raw[..m], n);
      assert raw[..m][..n] == raw[..n];
    } else {
      assert raw[..n] == raw;
    }
  }

  ghost predicate AllAccepted(validate: JsonObject -> KeyResult, raw: seq<JsonObject>) {
    forall i :: 0 <= i < |raw| ==> validate(raw[i]).Accepted?
  }

  /** The fault reported is that of the first key that does not validate or
      repeats a kid. */
  ghost predicate IsFirstKeyFault(validate: JsonObject -> KeyResult, signingKid: string, raw: seq<JsonObject>,
                                  i: nat, error: KeyError) {
    && i < |raw| && AllAccepted(validate, raw[..i]) && Distinct(AllKids(validate, signingKid, raw[..i]))
    && match validate(raw[i])
       case Rejected(e) => error == e
       case Accepted(key) => key.kid in AllKids(validate, signingKid, raw[..i]) && error == DuplicateKeyId(key.kid)
  }

  /** The additional-key loop of `Config::from_input`: it succeeds exactly when
      every key validates and no kid, the signing key's included, repeats. */
  method LoadKeys(validate: JsonObject -> KeyResult, signingKid: string, raw: seq<JsonObject>) returns (r: KeysResult)
    ensures r.Keys? <==> AllAccepted(validate, raw) && Distinct(AllKids(validate, signingKid, raw))
    ensures r.Keys? ==> |r.keys| == |raw| && forall i :: 0 <= i < |raw| ==> validate(raw[i]) == Accepted(r.keys[i])
    ensures r.KeysError? ==> exists i :: IsFirstKeyFault(validate, signingKid, raw, i, r.error)
  {
    var seenKids := {signingKid};
    var keys: seq<PublicKey> := [];
    for i := 0 to |raw|
      invariant |keys| == i
      invariant forall j :: 0 <= j < i ==> validate(raw[j]) == Accepted(keys[j])
      invariant Distinct(AllKids(validate, signingKid, raw[..i]))
      invariant forall kid :: kid in seenKids <==> kid in AllKids(validate, signingKid, raw[..i])
    {
      var verdict := validate(raw[i]);
      if verdict.Rejected? {
        assert IsFirstKeyFault(validate, signingKid, raw, i, verdict.error);
        return KeysError(verdict.error);
      }
      KidsOfPrefix(validate, signingKid, raw, i);
      DistinctSnoc(AllKids(validate, signingKid, raw[..i]), verdict.key.kid);
      if verdict.key.kid in seenKids {
        if Distinct(AllKids(validate, signingKid, raw)) { DistinctOfPrefix(validate, signingKid, raw, i + 1); }
        assert IsFirstKeyFault(validate, signingKid, raw, i, DuplicateKeyId(verdict.key.kid));
        return KeysError(DuplicateKeyId(verdict.key.kid));
      }
      seenKids := seenKids + {verdict.key.kid};
      keys := keys + [verdict.key];
    }
    assert raw[..|raw|] == raw;
    r := Keys(keys);
  }

  method LoadAdditionalKeys(signingKid: string, raw: seq<JsonObject>) returns (r: KeysResult)
    ensures r.Keys? <==> AllAccepted(ValidatePublic, raw) && Distinct(AllKids(ValidatePublic, signingKid, raw))
    ensures r.Keys? ==> |r.keys| == |raw| && forall i :: 0 <= i < |raw| ==>
        ValidatePublic(raw[i]) == Accepted(r.keys[i])
    ensures r.KeysError? ==> exists i :: IsFirstKeyFault(ValidatePublic, signingKid, raw, i, r.error)
  {
    r := LoadKeys(ValidatePublic, signingKid, raw);
  }
}
