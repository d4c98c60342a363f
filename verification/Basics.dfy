/** Types shared by every module.

    Text is a Dafny `string` in which each char stands for one byte of the
    UTF-8 text the Rust program holds, so `|s|` is the program's `s.len()`.
    `IsText` says that every char is a byte value. */
module Basics {
  datatype Option<+T> = None | Some(value: T)

  type byte = b: int | 0 <= b < 256

  /** A 256-bit value: a SHA-256 digest or the random bytes behind a token. */
  type Bytes32 = d: seq<byte> | |d| == 32 witness seq(32, i => 0)

  /** SHA-256 over the bytes of a text. Every result holds for every such function. */
  type Digest = string -> Bytes32

  ghost predicate IsText(s: string) {
    forall i :: 0 <= i < |s| ==> s[i] as int < 256
  }

  function Max(a: int, b: int): int { if a < b then b else a }

  ghost predicate Distinct(xs: seq<string>) {
    forall i, j :: 0 <= i < j < |xs| ==> xs[i] != xs[j]
  }

  function Without<T>(m: map<string, T>, key: string): (rest: map<string, T>)
    ensures forall k :: k in rest <==> k in m && k != key
    ensures forall k :: k in rest ==> rest[k] == m[k]
    ensures key !in m ==> rest == m
  {
    map k | k in m && k != key :: m[k]
  }

  /** A non-empty run of decimal digits. */
  predicate IsDigits(s: string) { s != "" && forall i :: 0 <= i < |s| ==> '0' <= s[i] <= '9' }

  /** What happens to one call to a Durable Object: it works; it never arrives;
      or it takes effect and only the answer is lost. */
  datatype Fault = Delivered | LostRequest | LostReply
}
