/** application/x-www-form-urlencoded text and the HTTP Basic client
    credential of section 2.3.1 of RFC 6749
    (crates/oidc-core/src/token.rs and the `form_urlencoded` crate). */
module Form {
  import opened Basics
  import opened Text
  import Base64

  function HexDigit(v: int): char
    requires 0 <= v < 16
  {
    if v < 10 then (48 + v) as char else (55 + v) as char
  }

  function HexValue(c: char): Option<int> {
    if '0' <= c <= '9' then Some(c as int - 48)
    else if 'A' <= c <= 'F' then Some(c as int - 55)
    else if 'a' <= c <= 'f' then Some(c as int - 87)
    else None
  }

  predicate IsAlphanumeric(c: char) { 'A' <= c <= 'Z' || 'a' <= c <= 'z' || '0' <= c <= '9' }

  predicate Unescaped(c: char) { IsAlphanumeric(c) || c == '*' || c == '-' || c == '.' || c == '_' }

  /** The characters `FormEncode` writes. */
  predicate FormChar(c: char) { Unescaped(c) || c == '+' || c == '%' }

  function EncodeChar(c: char): (s: string)
    requires c as int < 256
    ensures 1 <= |s| <= 3
    ensures forall i :: 0 <= i < |s| ==> FormChar(s[i])
  {
    if Unescaped(c) then [c]
    else if c == ' ' then "+"
    else ['%', HexDigit(c as int / 16), HexDigit(c as int % 16)]
  }

  /** `form_urlencoded::byte_serialize`. */
  function FormEncode(s: string): (e: string)
    requires IsText(s)
    ensures |e| <= 3 * |s|
    ensures forall i :: 0 <= i < |e| ==> FormChar(e[i])
  {
    if s == "" then "" else EncodeChar(s[0]) + FormEncode(s[1..])
  }

  function PlusToSpace(s: string): (r: string)
    ensures |r| == |s|
    ensures forall i :: 0 <= i < |s| ==> r[i] == (if s[i] == '+' then ' ' else s[i])
  {
    seq(|s|, i requires 0 <= i < |s| => if s[i] == '+' then ' ' else s[i])
  }

  /** `percent_decode`: a `%` not followed by two hex digits stands for itself. */
  function PercentDecode(s: string): string
    decreases |s|
  {
    if s == "" then ""
    else if s[0] == '%' && |s| >= 3 && HexValue(s[1]).Some? && HexValue(s[2]).Some? then
      [(HexValue(s[1]).value * 16 + HexValue(s[2]).value) as char] + PercentDecode(s[3..])
    else [s[0]] + PercentDecode(s[1..])
  }

  lemma DecodeEncodedChar(c: char, rest: string)
    requires c as int < 256
    ensures PercentDecode(PlusToSpace(EncodeChar(c)) + rest) == [c] + PercentDecode(rest)
  {
    var e := PlusToSpace(EncodeChar(c));
    var s := e + rest;
    if Unescaped(c) || c == ' ' {
      assert s[0] == c && s[1..] == rest;
    } else {
      assert e == ['%', HexDigit(c as int / 16), HexDigit(c as int % 16)];
      assert s[0] == '%' && s[1] == HexDigit(c as int / 16) && s[2] == HexDigit(c as int % 16) && s[3..] == rest;
    }
  }

  lemma {:induction false} FormDecodeEncode(s: string)
    requires IsText(s)
    ensures PercentDecode(PlusToSpace(FormEncode(s))) == s
  {
    if s != "" {
      var h, t := EncodeChar(s[0]), FormEncode(s[1..]);
      assert PlusToSpace(h + t) == PlusToSpace(h) + PlusToSpace(t);
      DecodeEncodedChar(s[0], PlusToSpace(t));
      FormDecodeEncode(s[1..]);
    }
  }

  predicate Continuation(c: char) { 0x80 <= c as int < 0xC0 }

  /** Number of bytes of the well-formed UTF-8 scalar at the front of `s`
      (section 4 of RFC 3629), 0 if there is none. */
  function ScalarLength(s: string): (n: nat)
    ensures n <= |s|
  {
    if s == "" then 0
    else
      var b0 := s[0] as int;
      if b0 < 0x80 then 1
      else if 0xC2 <= b0 < 0xE0 then (if |s| >= 2 && Continuation(s[1]) then 2 else 0)
      else if 0xE0 <= b0 < 0xF0 then
        if |s| >= 3 && Continuation(s[1]) && Continuation(s[2])
           && (b0 == 0xE0 ==> s[1] as int >= 0xA0) && (b0 == 0xED ==> (s[1] as int) < 0xA0) then 3 else 0
      else if 0xF0 <= b0 < 0xF5 then
        if |s| >= 4 && Continuation(s[1]) && Continuation(s[2]) && Continuation(s[3])
           && (b0 == 0xF0 ==> s[1] as int >= 0x90) && (b0 == 0xF4 ==> (s[1] as int) < 0x90) then 4 else 0
      else 0
  }

  predicate IsUtf8(s: string)
    decreases |s|
  {
    s == "" || (ScalarLength(s) > 0 && IsUtf8(s[ScalarLength(s)..]))
  }

  lemma {:induction false} AsciiIsUtf8(s: string)
    requires forall i :: 0 <= i < |s| ==> s[i] as int < 0x80
    ensures IsUtf8(s)
  {
    if s != "" { AsciiIsUtf8(s[1..]); }
  }

  /** A Rust `String`: bytes that are valid UTF-8. */
  ghost predicate IsString(s: string) { IsText(s) && IsUtf8(s) }

  /** `form_decode_part`. */
  function DecodePart(s: string): Option<string> {
    var d := PercentDecode(PlusToSpace(s));
    if IsUtf8(d) then Some(d) else None
  }

  function ToBytes(s: string): (b: seq<byte>)
    requires IsText(s)
    ensures |b| == |s|
  {
    seq(|s|, i requires 0 <= i < |s| => s[i] as int)
  }

  function FromBytes(b: seq<byte>): (s: string)
    ensures |s| == |b| && IsText(s)
  {
    seq(|b|, i requires 0 <= i < |b| => b[i] as char)
  }

  lemma BytesRoundTrip(s: string)
    requires IsText(s)
    ensures FromBytes(ToBytes(s)) == s
  {
  }

  /** `decode_basic`. */
  function DecodeBasic(header: string): Option<(string, string)> {
    match StripPrefix(header, "Basic ")
    case None => None
    case Some(encoded) =>
      match Base64.StandardDecode(Trim(encoded))
      case None => None
      case Some(bytes) =>
        var text := FromBytes(bytes);
        if !IsUtf8(text) then None
        else
          match SplitOnce(text, ':')
          case None => None
          case Some((id, secret)) =>
            match (DecodePart(id), DecodePart(secret))
            case (Some(i), Some(s)) => Some((i, s))
            case _ => None
  }

  /** What a conforming client sends: both parts form-encoded, joined by a
      colon, base64-encoded with padding. */
  function CredentialText(id: string, secret: string): (t: string)
    requires IsText(id) && IsText(secret)
    ensures IsText(t)
  {
    FormEncode(id) + ":" + FormEncode(secret)
  }

  function EncodeBasic(id: string, secret: string): string
    requires IsText(id) && IsText(secret)
  {
    "Basic " + Base64.StandardEncode(ToBytes(CredentialText(id, secret)))
  }

  lemma TrimNothing(s: string)
    requires s != "" && !IsSpace(s[0]) && !IsSpace(s[|s| - 1])
    ensures Trim(s) == s
  {
  }

  lemma StandardTrim(data: seq<byte>)
    requires data != []
    ensures Base64.StandardEncode(data) != "" && Trim(Base64.StandardEncode(data)) == Base64.StandardEncode(data)
    ensures !IsSpace(Base64.StandardEncode(data)[|Base64.StandardEncode(data)| - 1])
  {
    var e := Base64.StandardEncode(data);
    Base64.DecodeEncode(Base64.Standard, data);
    Base64.StandardAlphabet(data);
    assert e[0] in e && e[|e| - 1] in e;
    TrimNothing(e);
  }

  lemma CredentialTextParses(id: string, secret: string)
    requires IsString(id) && IsString(secret)
    ensures IsUtf8(CredentialText(id, secret))
    ensures SplitOnce(CredentialText(id, secret), ':') == Some((FormEncode(id), FormEncode(secret)))
    ensures DecodePart(FormEncode(id)) == Some(id) && DecodePart(FormEncode(secret)) == Some(secret)
  {
    AsciiIsUtf8(CredentialText(id, secret));
    SplitOnceAt(FormEncode(id), ':', FormEncode(secret));
    FormDecodeEncode(id);
    FormDecodeEncode(secret);
  }

  lemma HeaderPayload(e: string)
    requires e != "" && !IsSpace(e[|e| - 1])
    ensures Trim("Basic " + e) == "Basic " + e != ""
    ensures StripPrefix("Basic " + e, "Basic ") == Some(e)
  {
    StripPrefixOfConcat("Basic ", e);
    var h := "Basic " + e;
    assert h[0] == 'B' && h[|h| - 1] == e[|e| - 1];
    TrimNothing(h);
  }

  lemma DecodeBasicOf(e: string, bytes: seq<byte>, text: string, id: string, secret: string)
    requires StripPrefix("Basic " + e, "Basic ") == Some(e) && Trim(e) == e
    requires Base64.StandardDecode(e) == Some(bytes) && FromBytes(bytes) == text && IsUtf8(text)
    requires SplitOnce(text, ':').Some?
    requires DecodePart(SplitOnce(text, ':').value.0) == Some(id)
    requires DecodePart(SplitOnce(text, ':').value.1) == Some(secret)
    ensures DecodeBasic("Basic " + e) == Some((id, secret))
  {
  }

  /** `/token` reads back exactly the credential a conforming client sent, for
      every id and secret: colons, plus signs, percent signs, any UTF-8. */
  lemma BasicRoundTrip(id: string, secret: string)
    requires IsString(id) && IsString(secret)
    ensures DecodeBasic(Trim(EncodeBasic(id, secret))) == Some((id, secret))
    ensures Trim(EncodeBasic(id, secret)) != ""
  {
    var t := CredentialText(id, secret);
    var b := ToBytes(t);
    var e := Base64.StandardEncode(b);
    assert b != [];
    assert Base64.StandardDecode(e) == Some(b) by { Base64.StandardRoundTrip(b); }
    assert e != "" && Trim(e) == e && !IsSpace(e[|e| - 1]) by { StandardTrim(b); }
    assert FromBytes(b) == t by { BytesRoundTrip(t); }
    CredentialTextParses(id, secret);
    HeaderPayload(e);
    DecodeBasicOf(e, b, t, id, secret);
  }

  type Pairs = seq<(string, string)>

  /** `decode_utf8_lossy`: the identity on well-formed text; what it writes
      for malformed bytes is left open. */
  type Lossy = string -> string

  ghost predicate LossyOk(lossy: Lossy) { forall s :: IsUtf8(s) ==> lossy(s) == s }

  function DecodeLossy(lossy: Lossy, s: string): string { lossy(PercentDecode(PlusToSpace(s))) }

  function ParsePair(lossy: Lossy, segment: string): (string, string) {
    match SplitOnce(segment, '=')
    case None => (DecodeLossy(lossy, segment), DecodeLossy(lossy, ""))
    case Some((name, value)) => (DecodeLossy(lossy, name), DecodeLossy(lossy, value))
  }

  /** `form_urlencoded::parse`. */
  function ParseForm(lossy: Lossy, body: string): Pairs
    decreases |body|
  {
    if body == "" then []
    else
      match SplitOnce(body, '&')
      case None => [ParsePair(lossy, body)]
      case Some((segment, rest)) =>
        (if segment == "" then [] else [ParsePair(lossy, segment)]) + ParseForm(lossy, rest)
  }

  ghost predicate PairsOk(pairs: Pairs) {
    forall i :: 0 <= i < |pairs| ==> IsString(pairs[i].0) && IsString(pairs[i].1)
  }

  function EncodePair(p: (string, string)): string
    requires IsText(p.0) && IsText(p.1)
  {
    FormEncode(p.0) + "=" + FormEncode(p.1)
  }

  function EncodePairs(pairs: Pairs): string
    requires PairsOk(pairs)
  {
    if |pairs| == 0 then ""
    else if |pairs| == 1 then EncodePair(pairs[0])
    else EncodePair(pairs[0]) + "&" + EncodePairs(pairs[1..])
  }

  lemma PairParses(lossy: Lossy, p: (string, string))
    requires LossyOk(lossy) && IsString(p.0) && IsString(p.1)
    ensures ParsePair(lossy, EncodePair(p)) == p
    ensures EncodePair(p) != "" && forall i :: 0 <= i < |EncodePair(p)| ==> EncodePair(p)[i] != '&'
  {
    SplitOnceAt(FormEncode(p.0), '=', FormEncode(p.1));
    FormDecodeEncode(p.0);
    FormDecodeEncode(p.1);
  }

  lemma FormOfOne(lossy: Lossy, p: (string, string))
    requires LossyOk(lossy) && IsString(p.0) && IsString(p.1)
    ensures ParseForm(lossy, EncodePair(p)) == [p]
  {
    PairParses(lossy, p);
    SplitNone(EncodePair(p), '&');
  }

  lemma FormOfCons(lossy: Lossy, p: (string, string), rest: string)
    requires LossyOk(lossy) && IsString(p.0) && IsString(p.1)
    ensures ParseForm(lossy, EncodePair(p) + "&" + rest) == [p] + ParseForm(lossy, rest)
  {
    PairParses(lossy, p);
    SplitOnceAt(EncodePair(p), '&', rest);
  }

  /** Parsing a form-encoded body gives back the pairs it was built from. */
  lemma {:induction false} FormRoundTrip(lossy: Lossy, pairs: Pairs)
    requires LossyOk(lossy) && PairsOk(pairs)
    ensures ParseForm(lossy, EncodePairs(pairs)) == pairs
  {
    if |pairs| == 1 {
      FormOfOne(lossy, pairs[0]);
    } else if |pairs| > 1 {
      FormOfCons(lossy, pairs[0], EncodePairs(pairs[1..]));
      FormRoundTrip(lossy, pairs[1..]);
      assert pairs == [pairs[0]] + pairs[1..];
    }
  }
}
