/** What the text encodings accept, told from the writing side: UTF-8 by its
    scalar values, form and Basic text by all their spellings, words and
    segments by where they stand, decimal numbers by their digits. */
module Encodings {
  import opened Basics
  import opened Text
  import opened Form
  import Authorize
  import Base64

  // ---------- UTF-8 (RFC 3629) ----------

  /** A Unicode scalar value: no surrogate. */
  type scalar = v: int | 0 <= v < 0xD800 || 0xE000 <= v < 0x11_0000

  function Trailing(v: int): char { (0x80 + v % 64) as char }

  /** The one form of section 3 of RFC 3629. */
  function EncodeScalar(v: scalar): string {
    if v < 0x80 then [v as char]
    else if v < 0x800 then [(0xC0 + v / 64) as char, Trailing(v)]
    else if v < 0x1_0000 then [(0xE0 + v / 4096) as char, Trailing(v / 64), Trailing(v)]
    else [(0xF0 + v / 26_2144) as char, Trailing(v / 4096), Trailing(v / 64), Trailing(v)]
  }

  function EncodeScalars(vs: seq<scalar>): string {
    if vs == [] then "" else EncodeScalar(vs[0]) + EncodeScalars(vs[1..])
  }

  lemma ScalarIsRead(v: scalar, rest: string)
    ensures ScalarLength(EncodeScalar(v) + rest) == |EncodeScalar(v)|
  {
    var s := EncodeScalar(v) + rest;
    assert forall i :: 0 <= i < |EncodeScalar(v)| ==> s[i] == EncodeScalar(v)[i];
  }

  /** Whatever scalar values are written, the text is accepted. */
  lemma {:induction false} EncodedIsUtf8(vs: seq<scalar>)
    ensures IsUtf8(EncodeScalars(vs))
  {
    if vs != [] {
      var e, rest := EncodeScalar(vs[0]), EncodeScalars(vs[1..]);
      ScalarIsRead(vs[0], rest);
      assert (e + rest)[|e|..] == rest;
      EncodedIsUtf8(vs[1..]);
    }
  }

  function Low(c: char): int { c as int % 64 }

  lemma TwoBytes(s: string) returns (v: scalar)
    requires ScalarLength(s) == 2
    ensures s[..2] == EncodeScalar(v)
  {
    v := (s[0] as int - 0xC0) * 64 + Low(s[1]);
    assert s[..2] == [s[0], s[1]];
  }

  lemma ThreeBytes(s: string) returns (v: scalar)
    requires ScalarLength(s) == 3
    ensures s[..3] == EncodeScalar(v)
  {
    v := ((s[0] as int - 0xE0) * 64 + Low(s[1])) * 64 + Low(s[2]);
    assert s[..3] == [s[0], s[1], s[2]];
  }

  lemma DigitsOf(a: int, b: int, c: int, d: int)
    requires 0 <= b < 64 && 0 <= c < 64 && 0 <= d < 64
    ensures var v := ((a * 64 + b) * 64 + c) * 64 + d;
            && v % 64 == d && v / 64 == (a * 64 + b) * 64 + c && v / 64 % 64 == c
            && v / 4096 == a * 64 + b && v / 4096 % 64 == b && v / 26_2144 == a
  {
  }

  lemma FourInRange(s: string)
    requires ScalarLength(s) == 4
    ensures var v := (((s[0] as int - 0xF0) * 64 + Low(s[1])) * 64 + Low(s[2])) * 64 + Low(s[3]);
            0x1_0000 <= v < 0x11_0000
  {
    assert Low(s[1]) == s[1] as int - 0x80;
  }

  lemma FourBytes(s: string) returns (v: scalar)
    requires ScalarLength(s) == 4
    ensures s[..4] == EncodeScalar(v)
  {
    FourInRange(s);
    v := (((s[0] as int - 0xF0) * 64 + Low(s[1])) * 64 + Low(s[2])) * 64 + Low(s[3]);
    DigitsOf(s[0] as int - 0xF0, Low(s[1]), Low(s[2]), Low(s[3]));
    assert s[..4] == [s[0], s[1], s[2], s[3]];
  }

  lemma FrontIsScalar(s: string) returns (v: scalar)
    requires ScalarLength(s) > 0
    ensures s[..ScalarLength(s)] == EncodeScalar(v)
  {
    if ScalarLength(s) == 2 { v := TwoBytes(s); }
    else if ScalarLength(s) == 3 { v := ThreeBytes(s); }
    else if ScalarLength(s) == 4 { v := FourBytes(s); }
    else { v := s[0] as int; }
  }

  /** And nothing else is: no overlong form, surrogate or truncated sequence. */
  lemma {:induction false} Utf8IsEncoded(s: string) returns (vs: seq<scalar>)
    requires IsUtf8(s)
    ensures EncodeScalars(vs) == s
    decreases |s|
  {
    vs := [];
    if s != "" {
      var v := FrontIsScalar(s);
      var rest := Utf8IsEncoded(s[ScalarLength(s)..]);
      vs := [v] + rest;
      assert vs[1..] == rest && s == s[..ScalarLength(s)] + s[ScalarLength(s)..];
    }
  }

  // ---------- Form text ----------

  /** `u` is a way to write the character `c`: as itself, as a plus sign for a
      space, or escaped, with hex digits of either case. */
  predicate Spells(u: string, c: char) {
    || (u == [c] && c != '%' && c != '+')
    || (u == "+" && c == ' ')
    || (|u| == 3 && u[0] == '%' && HexValue(u[1]).Some? && HexValue(u[2]).Some?
        && c as int == HexValue(u[1]).value * 16 + HexValue(u[2]).value)
  }

  function Concat(units: seq<string>): string { if units == [] then "" else units[0] + Concat(units[1..]) }

  lemma UnitDecodes(u: string, c: char, rest: string)
    requires Spells(u, c)
    ensures PercentDecode(PlusToSpace(u + rest)) == [c] + PercentDecode(PlusToSpace(rest))
  {
    var s := PlusToSpace(u + rest);
    assert s[|u|..] == PlusToSpace(rest);
    if |u| == 3 { assert s[..3] == u; }
  }

  /** Whichever spelling is chosen for each character, the text is read as meant. */
  lemma {:induction false} AnySpellingDecodes(units: seq<string>, s: string)
    requires |units| == |s| && forall i :: 0 <= i < |s| ==> Spells(units[i], s[i])
    ensures PercentDecode(PlusToSpace(Concat(units))) == s
  {
    if s == "" {
      assert PlusToSpace("") == "";
    } else {
      UnitDecodes(units[0], s[0], Concat(units[1..]));
      AnySpellingDecodes(units[1..], s[1..]);
    }
  }

  /** A percent sign that no two hex digits follow stands for itself. */
  lemma StrayPercent(rest: string)
    requires |rest| < 2 || HexValue(rest[0]) == None || HexValue(rest[1]) == None
    requires rest != "" ==> rest[0] != '+'
    ensures PercentDecode(PlusToSpace("%" + rest)) == "%" + PercentDecode(PlusToSpace(rest))
  {
    var s := PlusToSpace("%" + rest);
    assert s[1..] == PlusToSpace(rest);
  }

  const UPPER_HEX := "0123456789ABCDEF"

  const LOWER_HEX := "0123456789abcdef"

  lemma HexDigits(v: nat)
    requires v < 16
    ensures UPPER_HEX[v] as int == (if v < 10 then 48 + v else 55 + v)
    ensures LOWER_HEX[v] as int == (if v < 10 then 48 + v else 87 + v)
  {
  }

  /** The hex digits in order, of either case, and no other character. */
  lemma HexExact(c: char, v: nat)
    ensures HexValue(c) == Some(v) <==> v < 16 && (c == UPPER_HEX[v] || c == LOWER_HEX[v])
  {
    if v < 16 { HexDigits(v); }
  }

  /** A segment is split at its first equals sign, or has the empty value. */
  lemma PairExact(lossy: Lossy, name: string, value: string)
    requires Lacks(name, '=')
    ensures ParsePair(lossy, name + "=" + value) == (DecodeLossy(lossy, name), DecodeLossy(lossy, value))
    ensures ParsePair(lossy, name) == (DecodeLossy(lossy, name), DecodeLossy(lossy, ""))
  {
    SplitOnceAt(name, '=', value);
    SplitNone(name, '=');
  }

  /** The characters that count as space, and those that count as digits. */
  lemma CharactersExact(c: char)
    ensures IsSpace(c) <==> c in [' ', '\t', '\n', '\r'] || c as int == 11 || c as int == 12
    ensures IsDigits([c]) <==> c in Base64.DIGITS
  {
    Base64.CharacterRanges(c);
    assert [c][0] == c;
  }

  function Given(segments: seq<string>): seq<string> {
    if segments == [] then []
    else (if segments[0] == "" then [] else [segments[0]]) + Given(segments[1..])
  }

  /** The pairs are the segments, each read as one pair. */
  ghost predicate AreRead(lossy: Lossy, pairs: Pairs, segments: seq<string>) {
    |pairs| == |segments| && forall i :: 0 <= i < |pairs| ==> pairs[i] == ParsePair(lossy, segments[i])
  }

  lemma GivenOne(segment: string)
    ensures Given([segment]) == if segment == "" then [] else [segment]
  {
    assert [segment][1..] == [];
  }

  lemma GivenMore(segment: string, rest: seq<string>)
    ensures Given([segment] + rest) == (if segment == "" then [] else [segment]) + Given(rest)
  {
    assert ([segment] + rest)[1..] == rest;
  }

  /** A form is its segments between ampersands, empty ones left out, each read
      as one pair. */
  lemma {:induction false} FormSegments(lossy: Lossy, body: string)
    ensures AreRead(lossy, ParseForm(lossy, body), Given(Split(body, '&')))
    decreases |body|
  {
    match SplitOnce(body, '&') {
      case None =>
        assert Split(body, '&') == [body];
        GivenOne(body);
      case Some((segment, rest)) =>
        FormSegments(lossy, rest);
        GivenMore(segment, Split(rest, '&'));
    }
  }

  // ---------- HTTP Basic ----------

  /** The two raw parts that a header holds. */
  ghost predicate Holds(header: string, rawId: string, rawSecret: string) {
    var text := rawId + ":" + rawSecret;
    && IsString(text) && Lacks(rawId, ':')
    && exists e :: header == "Basic " + e && Trim(e) == Base64.StandardEncode(ToBytes(text))
  }

  /** A header is read as this id and secret exactly if it is the scheme name
      and the base64 text of two parts, the first up to the first colon, that
      decode to them. */
  lemma BasicExact(header: string, id: string, secret: string)
    ensures DecodeBasic(header) == Some((id, secret))
      <==> exists rawId, rawSecret ::
             Holds(header, rawId, rawSecret) && DecodePart(rawId) == Some(id) && DecodePart(rawSecret) == Some(secret)
  {
    if DecodeBasic(header) == Some((id, secret)) {
      var e, text, rawId, rawSecret := DecodedSplits(header);
      SplitIsHeld(header, e, text, rawId, rawSecret);
    }
    forall rawId, rawSecret | Holds(header, rawId, rawSecret)
      ensures DecodeBasic(header) == match (DecodePart(rawId), DecodePart(rawSecret))
                                     case (Some(i), Some(s)) => Some((i, s))
                                     case _ => None
    {
      HeldIsRead(header, rawId, rawSecret);
    }
  }

  lemma DecodedBytes(e: string)
    requires Base64.StandardDecode(Trim(e)).Some?
    ensures Trim(e) == Base64.StandardEncode(ToBytes(FromBytes(Base64.StandardDecode(Trim(e)).value)))
  {
    var bytes := Base64.StandardDecode(Trim(e)).value;
    Base64.StandardDecodeExact(Trim(e));
    assert ToBytes(FromBytes(bytes)) == bytes;
  }

  /** What the decoder has split a header into. */
  predicate Splits(header: string, e: string, text: string, rawId: string, rawSecret: string) {
    && StripPrefix(header, "Basic ") == Some(e) && Base64.StandardDecode(Trim(e)).Some?
    && text == FromBytes(Base64.StandardDecode(Trim(e)).value) && IsUtf8(text)
    && SplitOnce(text, ':') == Some((rawId, rawSecret))
  }

  lemma SplitIsHeld(header: string, e: string, text: string, rawId: string, rawSecret: string)
    requires Splits(header, e, text, rawId, rawSecret)
    ensures Holds(header, rawId, rawSecret)
  {
    DecodedBytes(e);
    PartsOf(text, ':', rawId, rawSecret);
    PrefixOf(header, "Basic ", e);
    Held(header, e, text, rawId, rawSecret);
  }

  lemma Held(header: string, e: string, text: string, rawId: string, rawSecret: string)
    requires header == "Basic " + e && text == rawId + ":" + rawSecret && IsString(text) && Lacks(rawId, ':')
    requires Trim(e) == Base64.StandardEncode(ToBytes(text))
    ensures Holds(header, rawId, rawSecret)
  {
  }

  lemma PartsOf(text: string, c: char, a: string, b: string)
    requires SplitOnce(text, c) == Some((a, b))
    ensures text == a + [c] + b && Lacks(a, c)
  {
  }

  lemma PrefixOf(s: string, prefix: string, rest: string)
    requires StripPrefix(s, prefix) == Some(rest)
    ensures s == prefix + rest
  {
  }

  lemma DecodedSplits(header: string) returns (e: string, text: string, rawId: string, rawSecret: string)
    requires DecodeBasic(header).Some?
    ensures Splits(header, e, text, rawId, rawSecret)
    ensures DecodePart(rawId) == Some(DecodeBasic(header).value.0)
    ensures DecodePart(rawSecret) == Some(DecodeBasic(header).value.1)
  {
    e := StripPrefix(header, "Basic ").value;
    text := FromBytes(Base64.StandardDecode(Trim(e)).value);
    rawId, rawSecret := SplitOnce(text, ':').value.0, SplitOnce(text, ':').value.1;
  }

  lemma HeldIsRead(header: string, rawId: string, rawSecret: string)
    requires Holds(header, rawId, rawSecret)
    ensures DecodeBasic(header) == match (DecodePart(rawId), DecodePart(rawSecret))
                                   case (Some(i), Some(s)) => Some((i, s))
                                   case _ => None
  {
    var text := rawId + ":" + rawSecret;
    var e :| header == "Basic " + e && Trim(e) == Base64.StandardEncode(ToBytes(text));
    StripPrefixOfConcat("Basic ", e);
    Base64.StandardRoundTrip(ToBytes(text));
    BytesRoundTrip(text);
    SplitOnceAt(rawId, ':', rawSecret);
  }

  // ---------- Words ----------

  lemma {:induction false} TrimStartExact(s: string) returns (i: nat)
    ensures i <= |s| && TrimStart(s) == s[i..] && forall k :: 0 <= k < i ==> IsSpace(s[k])
    ensures TrimStart(s) != "" ==> !IsSpace(TrimStart(s)[0])
  {
    i := 0;
    if s != "" && IsSpace(s[0]) {
      var n := TrimStartExact(s[1..]);
      i := n + 1;
      assert forall k :: 0 < k < i ==> s[k] == s[1..][k - 1];
    }
  }

  lemma {:induction false} TrimEndExact(s: string) returns (j: nat)
    ensures j <= |s| && TrimEnd(s) == s[..j] && forall k :: j <= k < |s| ==> IsSpace(s[k])
    ensures TrimEnd(s) != "" ==> !IsSpace(TrimEnd(s)[|TrimEnd(s)| - 1])
  {
    j := |s|;
    if s != "" && IsSpace(s[|s| - 1]) { j := TrimEndExact(s[..|s| - 1]); }
  }

  /** Trimming cuts off all the space around a text and nothing else. */
  lemma TrimExact(s: string) returns (i: nat, j: nat)
    ensures i <= j <= |s| && Trim(s) == s[i..j]
    ensures forall k :: 0 <= k < i || j <= k < |s| ==> IsSpace(s[k])
    ensures Trim(s) != "" ==> !IsSpace(Trim(s)[0]) && !IsSpace(Trim(s)[|Trim(s)| - 1])
  {
    i := TrimStartExact(s);
    var n := TrimEndExact(TrimStart(s));
    j := i + n;
    assert forall k :: j <= k < |s| ==> s[k] == s[i..][k - i];
    if Trim(s) != "" { assert Trim(s)[0] == TrimStart(s)[0]; }
  }

  /** `s[i..j]` is a run of non-space characters that cannot be made longer. */
  ghost predicate IsRun(s: string, i: nat, j: nat) {
    && i < j <= |s| && IsWord(s[i..j])
    && (i == 0 || IsSpace(s[i - 1])) && (j == |s| || IsSpace(s[j]))
  }

  ghost predicate IsWordOf(s: string, w: string) { exists i: nat, j: nat :: IsRun(s, i, j) && s[i..j] == w }

  lemma SliceOfRest(s: string, n: nat, i: nat, j: nat)
    requires n <= i <= j <= |s|
    ensures s[n..][i - n..j - n] == s[i..j]
  {
    var rest := s[n..];
    forall k | 0 <= k < j - i ensures rest[i - n..j - n][k] == s[i..j][k] { assert rest[i - n + k] == s[i + k]; }
  }

  lemma RunAfterSpace(s: string, i: nat, j: nat)
    requires s != "" && IsSpace(s[0]) && i > 0
    ensures IsRun(s, i, j) <==> j > 0 && IsRun(s[1..], i - 1, j - 1)
    ensures i < j <= |s| ==> s[i..j] == s[1..][i - 1..j - 1]
  {
    if i < j <= |s| {
      SliceOfRest(s, 1, i, j);
      assert i > 1 ==> s[1..][i - 2] == s[i - 1];
      assert j < |s| ==> s[1..][j - 1] == s[j];
    }
  }

  lemma RunStarts(s: string, i: nat, j: nat)
    requires IsRun(s, i, j)
    ensures !IsSpace(s[i])
  {
    assert s[i..j][0] == s[i];
  }

  lemma WordsAfterSpace(s: string, w: string)
    requires s != "" && IsSpace(s[0])
    ensures IsWordOf(s, w) <==> IsWordOf(s[1..], w)
  {
    if IsWordOf(s[1..], w) {
      var i: nat, j: nat :| IsRun(s[1..], i, j) && s[1..][i..j] == w;
      RunAfterSpace(s, i + 1, j + 1);
      assert IsRun(s, i + 1, j + 1);
    }
    if IsWordOf(s, w) {
      var i: nat, j: nat :| IsRun(s, i, j) && s[i..j] == w;
      RunStarts(s, i, j);
      RunAfterSpace(s, i, j);
      assert IsRun(s[1..], i - 1, j - 1);
    }
  }

  lemma RunAfterWord(s: string, n: nat, i: nat, j: nat)
    requires n <= i && n < |s| && IsSpace(s[n])
    ensures IsRun(s, i, j) <==> j >= n && IsRun(s[n..], i - n, j - n)
    ensures i < j <= |s| ==> s[i..j] == s[n..][i - n..j - n]
  {
    if i < j <= |s| {
      SliceOfRest(s, n, i, j);
      if i == n { assert s[i..j][0] == s[n]; }
    }
  }

  lemma RunInWord(s: string, n: nat, i: nat, j: nat)
    requires IsRun(s, 0, n) && IsRun(s, i, j)
    ensures (i == 0 && j == n) || n < i
  {
    assert forall k :: 0 <= k < n ==> s[0..n][k] == s[k];
    assert forall k :: i <= k < j ==> s[i..j][k - i] == s[k];
  }

  lemma WordsAfterWord(s: string, n: nat, w: string)
    requires IsRun(s, 0, n)
    ensures IsWordOf(s, w) <==> w == s[..n] || IsWordOf(s[n..], w)
  {
    if IsWordOf(s[n..], w) {
      var i: nat, j: nat :| IsRun(s[n..], i, j) && s[n..][i..j] == w;
      RunAfterWord(s, n, i + n, j + n);
      assert IsRun(s, i + n, j + n);
    }
    if IsWordOf(s, w) {
      var i: nat, j: nat :| IsRun(s, i, j) && s[i..j] == w;
      RunInWord(s, n, i, j);
      if n < i {
        RunAfterWord(s, n, i, j);
        assert IsRun(s[n..], i - n, j - n);
      }
    }
  }

  /** The words of a text are its longest runs, whatever space lies between. */
  lemma {:induction false} WordsExact(s: string, w: string)
    ensures w in Words(s) <==> IsWordOf(s, w)
    decreases |s|
  {
    if s != "" {
      if IsSpace(s[0]) {
        WordsAfterSpace(s, w);
        WordsExact(s[1..], w);
      } else {
        var n := WordLength(s);
        assert s[0..n] == s[..n];
        WordsAfterWord(s, n, w);
        WordsExact(s[n..], w);
      }
    }
  }

  // ---------- Decimal numbers ----------

  function Decimal(n: nat): string {
    if n < 10 then [(48 + n) as char] else Decimal(n / 10) + [(48 + n % 10) as char]
  }

  lemma {:induction false} DecimalRoundTrip(n: nat)
    ensures IsDigits(Decimal(n)) && Authorize.DecimalValue(Decimal(n)) == n
  {
    if n >= 10 {
      DecimalRoundTrip(n / 10);
      var s := Decimal(n);
      assert s[..|s| - 1] == Decimal(n / 10);
    } else {
      assert Decimal(n)[..0] == "";
    }
  }

  /** `max_age` is a number exactly up to 2^64. */
  lemma NumbersParse(n: nat)
    ensures Authorize.ParsesU64(Decimal(n)) <==> n < 0x1_0000_0000_0000_0000
  {
    DecimalRoundTrip(n);
    assert Decimal(n)[0] != '+';
  }
}
