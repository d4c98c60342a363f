/** base64 of sections 4 and 5 of RFC 4648, as the `base64` crate's STANDARD
    (padded) and URL_SAFE_NO_PAD engines read and write it: both refuse
    non-zero trailing bits, STANDARD insists on canonical padding. */
module Base64 {
  import opened Basics

  datatype Alphabet = UrlSafe | Standard

  type sextet = v: int | 0 <= v < 64

  function SextetChar(a: Alphabet, v: sextet): char {
    if v < 26 then (65 + v) as char
    else if v < 52 then (71 + v) as char
    else if v < 62 then (v - 4) as char
    else if v == 62 then (if a == UrlSafe then '-' else '+')
    else (if a == UrlSafe then '_' else '/')
  }

  predicate InAlphabet(a: Alphabet, c: char) {
    'A' <= c <= 'Z' || 'a' <= c <= 'z' || '0' <= c <= '9'
    || c == (if a == UrlSafe then '-' else '+') || c == (if a == UrlSafe then '_' else '/')
  }

  function CharSextet(a: Alphabet, c: char): (v: sextet)
    requires InAlphabet(a, c)
    ensures SextetChar(a, v) == c
  {
    if 'A' <= c <= 'Z' then c as int - 65
    else if 'a' <= c <= 'z' then c as int - 71
    else if '0' <= c <= '9' then c as int + 4
    else if c == '-' || c == '+' then 62
    else 63
  }

  lemma SextetRoundTrip(a: Alphabet, v: sextet)
    ensures InAlphabet(a, SextetChar(a, v)) && CharSextet(a, SextetChar(a, v)) == v
  {
  }

  const UPPER := "ABCDEFGHIJKLMNOPQRSTUVWXYZ"

  const LOWER := "abcdefghijklmnopqrstuvwxyz"

  const DIGITS := "0123456789"

  lemma UpperInOrder(i: nat)
    requires i < 26
    ensures UPPER[i] as int == 65 + i
  {
  }

  lemma LowerInOrder(i: nat)
    requires i < 26
    ensures LOWER[i] as int == 97 + i
  {
  }

  /** The alphabets are those of tables 1 and 2 of RFC 4648, in their order. */
  lemma AlphabetOrder(v: sextet)
    ensures SextetChar(Standard, v) == (UPPER + LOWER + DIGITS + "+/")[v]
    ensures SextetChar(UrlSafe, v) == (UPPER + LOWER + DIGITS + "-_")[v]
  {
    if v < 26 { UpperInOrder(v); } else if v < 52 { LowerInOrder(v - 26); }
  }

  /** The character is a letter, a digit or one of `extra`. */
  ghost predicate InText(c: char, extra: string) { c in UPPER || c in LOWER || c in DIGITS || c in extra }

  lemma UpperRange(c: char)
    ensures c in UPPER <==> 'A' <= c <= 'Z'
  {
    forall i | 0 <= i < 26 ensures UPPER[i] as int == 65 + i { UpperInOrder(i); }
    if 'A' <= c <= 'Z' { assert UPPER[c as int - 65] == c; }
  }

  lemma LowerRange(c: char)
    ensures c in LOWER <==> 'a' <= c <= 'z'
  {
    forall i | 0 <= i < 26 ensures LOWER[i] as int == 97 + i { LowerInOrder(i); }
    if 'a' <= c <= 'z' { assert LOWER[c as int - 97] == c; }
  }

  lemma DigitRange(c: char)
    ensures c in DIGITS <==> '0' <= c <= '9'
  {
    if '0' <= c <= '9' { assert DIGITS[c as int - 48] == c; }
  }

  lemma CharacterRanges(c: char)
    ensures c in UPPER <==> 'A' <= c <= 'Z'
    ensures c in LOWER <==> 'a' <= c <= 'z'
    ensures c in DIGITS <==> '0' <= c <= '9'
  {
    UpperRange(c);
    LowerRange(c);
    DigitRange(c);
  }

  function Write(a: Alphabet, vs: seq<sextet>): (s: string)
    ensures |s| == |vs| && forall i :: 0 <= i < |s| ==> s[i] == SextetChar(a, vs[i])
  {
    seq(|vs|, i requires 0 <= i < |vs| => SextetChar(a, vs[i]))
  }

  predicate AllIn(a: Alphabet, s: string) {
    forall i :: 0 <= i < |s| ==> InAlphabet(a, s[i])
  }

  function Read(a: Alphabet, s: string): (vs: seq<sextet>)
    requires AllIn(a, s)
    ensures |vs| == |s| && forall i :: 0 <= i < |s| ==> vs[i] == CharSextet(a, s[i])
  {
    seq(|s|, i requires 0 <= i < |s| => CharSextet(a, s[i]))
  }

  lemma ReadWrite(a: Alphabet, vs: seq<sextet>)
    ensures AllIn(a, Write(a, vs)) && Read(a, Write(a, vs)) == vs
  {
    forall i | 0 <= i < |vs|
      ensures InAlphabet(a, SextetChar(a, vs[i])) && CharSextet(a, SextetChar(a, vs[i])) == vs[i]
    {
      SextetRoundTrip(a, vs[i]);
    }
  }

  /** Regroups bytes as six-bit values, zero bits filling the last one. */
  function Pack(data: seq<byte>): (vs: seq<sextet>)
    ensures |vs| == (4 * |data| + 2) / 3
  {
    if |data| == 0 then []
    else if |data| == 1 then [data[0] / 4, data[0] % 4 * 16]
    else if |data| == 2 then [data[0] / 4, data[0] % 4 * 16 + data[1] / 16, data[1] % 16 * 4]
    else [data[0] / 4, data[0] % 4 * 16 + data[1] / 16, data[1] % 16 * 4 + data[2] / 64, data[2] % 64]
         + Pack(data[3..])
  }

  function InBase(base: int, high: int, low: int): int { high * base + low }

  /** Each group of three bytes is the same 24-bit number as its four six-bit
      values, most significant first. */
  lemma {:induction false} GroupBits(data: seq<byte>, k: nat)
    requires 3 * k + 2 < |data|
    ensures 4 * k + 3 < |Pack(data)|
    ensures var vs := Pack(data);
            InBase(64, InBase(64, InBase(64, vs[4 * k], vs[4 * k + 1]), vs[4 * k + 2]), vs[4 * k + 3])
            == InBase(256, InBase(256, data[3 * k], data[3 * k + 1]), data[3 * k + 2])
  {
    if k > 0 {
      GroupBits(data[3..], k - 1);
      assert Pack(data)[4..] == Pack(data[3..]);
    }
  }

  /** And the last one or two bytes are theirs, followed by zero bits. */
  lemma {:induction false} TailBits(data: seq<byte>)
    ensures var vs, n := Pack(data), |data| / 3;
            && (|data| % 3 == 0 ==> |vs| == 4 * n)
            && (|data| % 3 == 1 ==> |vs| == 4 * n + 2
                                    && InBase(64, vs[4 * n], vs[4 * n + 1]) == InBase(16, data[3 * n], 0))
            && (|data| % 3 == 2 ==> |vs| == 4 * n + 3
                                    && InBase(64, InBase(64, vs[4 * n], vs[4 * n + 1]), vs[4 * n + 2])
                                       == InBase(4, InBase(256, data[3 * n], data[3 * n + 1]), 0))
  {
    if |data| >= 3 {
      TailBits(data[3..]);
      assert Pack(data)[4..] == Pack(data[3..]);
    }
  }

  function Byte0(v: sextet, w: sextet): byte { v as int * 4 + w / 16 }

  function Byte1(v: sextet, w: sextet): byte { v as int % 16 * 16 + w / 4 }

  function Byte2(v: sextet, w: sextet): byte { v as int % 4 * 64 + w }

  /** The bytes of a six-bit sequence; `None` on a dangling single value or
      non-zero trailing bits. */
  function Unpack(vs: seq<sextet>): Option<seq<byte>> {
    if |vs| == 0 then Some([])
    else if |vs| == 1 then None
    else if |vs| == 2 then
      if vs[1] % 16 != 0 then None else Some([Byte0(vs[0], vs[1])])
    else if |vs| == 3 then
      if vs[2] % 4 != 0 then None else Some([Byte0(vs[0], vs[1]), Byte1(vs[1], vs[2])])
    else
      match Unpack(vs[4..])
      case None => None
      case Some(rest) =>
        Some([Byte0(vs[0], vs[1]), Byte1(vs[1], vs[2]), Byte2(vs[2], vs[3])] + rest)
  }

  lemma GroupOfBytes(a: byte, b: byte, c: byte)
    ensures Byte0(a / 4, a % 4 * 16 + b / 16) == a && Byte0(a / 4, a % 4 * 16) == a
    ensures Byte1(a % 4 * 16 + b / 16, b % 16 * 4 + c / 64) == b && Byte1(a % 4 * 16 + b / 16, b % 16 * 4) == b
    ensures Byte2(b % 16 * 4 + c / 64, c % 64) == c
    ensures a % 4 * 16 % 16 == 0 && b % 16 * 4 % 4 == 0
  {
  }

  lemma UnpackGroup(a: sextet, b: sextet, c: sextet, d: sextet, rest: seq<sextet>, bytes: seq<byte>)
    requires Unpack(rest) == Some(bytes)
    ensures Unpack([a, b, c, d] + rest) == Some([Byte0(a, b), Byte1(b, c), Byte2(c, d)] + bytes)
  {
    assert ([a, b, c, d] + rest)[4..] == rest;
  }

  lemma ShortUnpack(a: sextet, b: sextet, c: sextet)
    ensures b % 16 == 0 ==> Unpack([a, b]) == Some([Byte0(a, b)])
    ensures c % 4 == 0 ==> Unpack([a, b, c]) == Some([Byte0(a, b), Byte1(b, c)])
  {
  }

  lemma UnpackOne(a: byte)
    ensures Unpack(Pack([a])) == Some([a])
  {
    GroupOfBytes(a, 0, 0);
    ShortUnpack(a / 4, a % 4 * 16, 0);
  }

  lemma UnpackTwo(a: byte, b: byte)
    ensures Unpack(Pack([a, b])) == Some([a, b])
  {
    GroupOfBytes(a, b, 0);
    ShortUnpack(a / 4, a % 4 * 16 + b / 16, b % 16 * 4);
  }

  lemma AsDisplay(data: seq<byte>)
    ensures |data| == 0 ==> data == []
    ensures |data| == 1 ==> data == [data[0]]
    ensures |data| == 2 ==> data == [data[0], data[1]]
  {
  }

  lemma UnpackTail(data: seq<byte>)
    requires |data| < 3
    ensures Unpack(Pack(data)) == Some(data)
  {
    AsDisplay(data);
    if |data| == 2 { UnpackTwo(data[0], data[1]); } else if |data| == 1 { UnpackOne(data[0]); }
  }

  lemma UnpackFront(a: byte, b: byte, c: byte, rest: seq<byte>)
    requires Unpack(Pack(rest)) == Some(rest)
    ensures Unpack(Pack([a, b, c] + rest)) == Some([a, b, c] + rest)
  {
    GroupOfBytes(a, b, c);
    assert ([a, b, c] + rest)[3..] == rest;
    UnpackGroup(a / 4, a % 4 * 16 + b / 16, b % 16 * 4 + c / 64, c % 64, Pack(rest), rest);
  }

  lemma {:induction false} UnpackPack(data: seq<byte>)
    ensures Unpack(Pack(data)) == Some(data)
  {
    if |data| >= 3 {
      UnpackPack(data[3..]);
      UnpackFront(data[0], data[1], data[2], data[3..]);
      assert data == [data[0], data[1], data[2]] + data[3..];
    } else {
      UnpackTail(data);
    }
  }

  lemma GroupOfSextets(a: sextet, b: sextet, c: sextet, d: sextet)
    ensures Byte0(a, b) / 4 == a && Byte0(a, b) % 4 * 16 + Byte1(b, c) / 16 == b
    ensures Byte1(b, c) % 16 * 4 + Byte2(c, d) / 64 == c && Byte2(c, d) % 64 == d
    ensures b % 16 == 0 ==> Byte0(a, b) % 4 * 16 == b
    ensures c % 4 == 0 ==> Byte1(b, c) % 16 * 4 == c
  {
  }

  lemma PackGroup(vs: seq<sextet>, rest: seq<byte>)
    requires |vs| >= 4
    ensures Pack([Byte0(vs[0], vs[1]), Byte1(vs[1], vs[2]), Byte2(vs[2], vs[3])] + rest) == vs[..4] + Pack(rest)
  {
    GroupOfSextets(vs[0], vs[1], vs[2], vs[3]);
    var data := [Byte0(vs[0], vs[1]), Byte1(vs[1], vs[2]), Byte2(vs[2], vs[3])] + rest;
    assert data[3..] == rest;
    assert vs[..4] == [vs[0], vs[1], vs[2], vs[3]];
  }

  lemma PackTail(vs: seq<sextet>)
    requires Unpack(vs).Some? && |vs| < 4
    ensures Pack(Unpack(vs).value) == vs
  {
    if |vs| == 3 {
      GroupOfSextets(vs[0], vs[1], vs[2], 0);
      assert vs == [vs[0], vs[1], vs[2]];
    } else if |vs| == 2 {
      GroupOfSextets(vs[0], vs[1], 0, 0);
      assert vs == [vs[0], vs[1]];
    }
  }

  lemma {:induction false} PackUnpack(vs: seq<sextet>)
    requires Unpack(vs).Some?
    ensures Pack(Unpack(vs).value) == vs
  {
    if |vs| >= 4 {
      PackUnpack(vs[4..]);
      PackGroup(vs, Unpack(vs[4..]).value);
      assert vs == vs[..4] + vs[4..];
    } else {
      PackTail(vs);
    }
  }

  function Encode(a: Alphabet, data: seq<byte>): string { Write(a, Pack(data)) }

  function Decode(a: Alphabet, s: string): Option<seq<byte>> {
    if AllIn(a, s) then Unpack(Read(a, s)) else None
  }

  /** Encoding is total and undone by decoding; decoding accepts only what
      encoding writes. Together: the two are exact inverses. */
  lemma DecodeEncode(a: Alphabet, data: seq<byte>)
    ensures Decode(a, Encode(a, data)) == Some(data)
    ensures |Encode(a, data)| == (4 * |data| + 2) / 3
    ensures AllIn(a, Encode(a, data))
  {
    ReadWrite(a, Pack(data));
    UnpackPack(data);
  }

  lemma EncodeDecode(a: Alphabet, s: string)
    requires Decode(a, s).Some?
    ensures Encode(a, Decode(a, s).value) == s
  {
    PackUnpack(Read(a, s));
  }

  /** `util::b64url_encode` and `util::b64url_decode`. */
  function UrlEncode(data: seq<byte>): string { Encode(UrlSafe, data) }

  function UrlDecode(s: string): Option<seq<byte>> { Decode(UrlSafe, s) }

  function Padding(n: nat): string {
    if n % 4 == 2 then "==" else if n % 4 == 3 then "=" else ""
  }

  /** The STANDARD engine: padded to a multiple of four. */
  function StandardEncode(data: seq<byte>): string {
    var s := Encode(Standard, data);
    s + Padding(|s|)
  }

  function StripPadding(s: string): string {
    if |s| >= 2 && s[|s| - 1] == '=' && s[|s| - 2] == '=' then s[..|s| - 2]
    else if |s| >= 1 && s[|s| - 1] == '=' then s[..|s| - 1]
    else s
  }

  function StandardDecode(s: string): Option<seq<byte>> {
    if |s| % 4 != 0 then None else Decode(Standard, StripPadding(s))
  }

  lemma StripPadded(s: string, pad: string)
    requires AllIn(Standard, s)
    requires pad in ["", "=", "=="]
    ensures StripPadding(s + pad) == s
  {
    assert forall i :: 0 <= i < |s| ==> s[i] != '=';
  }

  lemma PackLength(n: nat)
    ensures (4 * n + 2) / 3 % 4 == (if n % 3 == 0 then 0 else n % 3 + 1)
  {
    var k := n / 3;
    assert n == 3 * k + n % 3;
    assert (4 * n + 2) / 3 == 4 * k + (4 * (n % 3) + 2) / 3;
  }

  lemma PaddedLength(n: nat)
    requires n % 4 != 1
    ensures (n + |Padding(n)|) % 4 == 0
  {
    var k := n / 4;
    assert n == 4 * k + n % 4;
  }

  lemma StandardDecodePadded(s: string, pad: string)
    requires AllIn(Standard, s) && |s| % 4 != 1 && pad == Padding(|s|)
    ensures StandardDecode(s + pad) == Decode(Standard, s)
  {
    StripPadded(s, pad);
    PaddedLength(|s|);
    assert |s + pad| == |s| + |pad|;
  }

  lemma StandardRoundTrip(data: seq<byte>)
    ensures StandardDecode(StandardEncode(data)) == Some(data)
  {
    DecodeEncode(Standard, data);
    PackLength(|data|);
    assert |Encode(Standard, data)| % 4 != 1;
    StandardDecodePadded(Encode(Standard, data), Padding(|Encode(Standard, data)|));
  }

  lemma UnpaddedLength(a: Alphabet, t: string)
    requires Decode(a, t).Some?
    ensures |t| % 4 != 1
  {
    var data := Decode(a, t).value;
    EncodeDecode(a, t);
    DecodeEncode(a, data);
    PackLength(|data|);
  }

  lemma StrippedIsPadding(s: string)
    requires |s| % 4 == 0 && |StripPadding(s)| % 4 != 1
    ensures s == StripPadding(s) + Padding(|StripPadding(s)|)
  {
    var t, n := StripPadding(s), |s|;
    if |t| == n - 2 { assert s == t + [s[n - 2], s[n - 1]]; } else if |t| == n - 1 { assert s == t + [s[n - 1]]; }
  }

  /** And nothing else decodes: the padding must be there and fit. */
  lemma StandardDecodeExact(s: string)
    requires StandardDecode(s).Some?
    ensures StandardEncode(StandardDecode(s).value) == s
  {
    var t := StripPadding(s);
    EncodeDecode(Standard, t);
    UnpaddedLength(Standard, t);
    StrippedIsPadding(s);
  }

  lemma StandardAlphabet(data: seq<byte>)
    ensures forall c :: c in StandardEncode(data) ==> InAlphabet(Standard, c) || c == '='
  {
    var s := Encode(Standard, data);
    DecodeEncode(Standard, data);
    var p := Padding(|s|);
    assert forall c :: c in p ==> c == '=';
    assert forall c :: c in s ==> InAlphabet(Standard, c);
  }
}
