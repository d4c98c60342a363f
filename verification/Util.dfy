/** Random tokens and the S256 text form of a digest (crates/oidc-core/src/util.rs). */
module Util {
  import opened Basics
  import Base64

  const TOKEN_BYTES := 32

  /** `sha256_b64url`. */
  function HashText(sha: Digest, text: string): string { Base64.UrlEncode(sha(text)) }

  /** The text of a token drawn as `draw`. */
  function TokenText(draw: Bytes32): string { Base64.UrlEncode(draw) }

  predicate UrlSafeText(s: string) { Base64.AllIn(Base64.UrlSafe, s) }

  /** Every token and every hash is 43 URL-safe characters, and the text
      determines the 32 bytes behind it. */
  lemma TokenShape(draw: Bytes32)
    ensures |TokenText(draw)| == 43 && UrlSafeText(TokenText(draw))
    ensures Base64.UrlDecode(TokenText(draw)) == Some(draw)
  {
    Base64.DecodeEncode(Base64.UrlSafe, draw);
  }

  /** A hash stands for exactly the digest behind it. */
  lemma HashExact(sha: Digest, a: string, b: string)
    ensures Base64.UrlDecode(HashText(sha, a)) == Some(sha(a))
    ensures HashText(sha, a) == HashText(sha, b) <==> sha(a) == sha(b)
  {
    TokenShape(sha(a));
    TokenShape(sha(b));
  }

  /** A seeded source of random bytes: a fixed endless stream and how much of
      it has been used. */
  class EntropySource {
    const stream: nat -> byte
    var used: nat

    constructor (stream: nat -> byte)
      ensures this.stream == stream && used == 0
    {
      this.stream := stream;
      used := 0;
    }

    ghost function Upcoming(n: nat): (draw: seq<byte>)
      reads this`used
      ensures |draw| == n
    {
      var start := used;
      seq(n, i requires 0 <= i < n => stream(start + i))
    }

    method FillBytes(dest: array<byte>)
      modifies this`used, dest
      ensures used == old(used) + dest.Length
      ensures dest[..] == old(Upcoming(dest.Length))
    {
      var i := 0;
      while i < dest.Length
        invariant 0 <= i <= dest.Length
        invariant used == old(used)
        invariant forall j :: 0 <= j < i ==> dest[j] == stream(old(used) + j)
      {
        dest[i] := stream(used + i);
        i := i + 1;
      }
      used := used + dest.Length;
    }
  }

  /** `random_token`: fills a 32-byte buffer and encodes it. */
  method RandomToken(entropy: EntropySource) returns (token: string, draw: Bytes32)
    modifies entropy`used
    ensures entropy.used == old(entropy.used) + TOKEN_BYTES
    ensures draw == old(entropy.Upcoming(TOKEN_BYTES))
    ensures token == TokenText(draw) && |token| == 43 && UrlSafeText(token)
  {
    var buf := new byte[TOKEN_BYTES](i => 0);
    entropy.FillBytes(buf);
    draw := buf[..];
    token := TokenText(draw);
    TokenShape(draw);
  }
}
