/** PKCE with S256 only: sections 4.1, 4.2 and 4.6 of RFC 7636
    (crates/oidc-core/src/pkce.rs). */
module Pkce {
  import opened Basics
  import Base64
  import opened Form
  import opened Util

  const REQUIRED_CHALLENGE_METHOD := "S256"

  predicate Unreserved(c: char) { IsAlphanumeric(c) || c == '-' || c == '.' || c == '_' || c == '~' }

  predicate IsValidVerifier(v: string) {
    43 <= |v| <= 128 && forall i :: 0 <= i < |v| ==> Unreserved(v[i])
  }

  predicate IsValidChallenge(c: string) {
    43 <= |c| <= 128 && forall i :: 0 <= i < |c| ==> IsAlphanumeric(c[i]) || c[i] == '-' || c[i] == '_'
  }

  /** Verifiers are those of section 4.1 of RFC 7636; challenges have the same
      length and the characters of URL-safe base64. */
  lemma FormsExact(s: string)
    ensures IsValidVerifier(s) <==> 43 <= |s| <= 128 && forall c :: c in s ==> Base64.InText(c, "-._~")
    ensures IsValidChallenge(s) <==> 43 <= |s| <= 128 && forall c :: c in s ==> Base64.InText(c, "-_")
  {
    forall c ensures Base64.InText(c, "-._~") <==> Unreserved(c) {
      Base64.CharacterRanges(c);
    }
    forall c ensures Base64.InText(c, "-_") <==> IsAlphanumeric(c) || c == '-' || c == '_' {
      Base64.CharacterRanges(c);
    }
    assert forall i :: 0 <= i < |s| ==> s[i] in s;
  }

  predicate VerifyS256(sha: Digest, verifier: string, challenge: string) {
    IsValidVerifier(verifier) && IsValidChallenge(challenge) && HashText(sha, verifier) == challenge
  }

  /** Verification accepts exactly the pairs in which the challenge decodes to
      the digest of a well-formed verifier: the text comparison loses nothing. */
  lemma VerifyIsDecodeEquality(sha: Digest, verifier: string, challenge: string)
    ensures VerifyS256(sha, verifier, challenge)
      <==> IsValidVerifier(verifier) && Base64.UrlDecode(challenge) == Some(sha(verifier))
  {
    TokenShape(sha(verifier));
    if Base64.UrlDecode(challenge) == Some(sha(verifier)) {
      Base64.EncodeDecode(Base64.UrlSafe, challenge);
    }
  }

  /** Every well-formed verifier has a challenge that `/authorize` accepts and
      `/token` verifies. */
  lemma ChallengeOfVerifier(sha: Digest, verifier: string)
    requires IsValidVerifier(verifier)
    ensures |HashText(sha, verifier)| == 43 && IsValidChallenge(HashText(sha, verifier))
    ensures VerifyS256(sha, verifier, HashText(sha, verifier))
  {
    TokenShape(sha(verifier));
  }

  /** `/authorize` accepts challenges that can never be redeemed: for any hash
      function, a challenge is redeemable by some verifier only if it is 43
      characters that decode to 32 bytes. */
  lemma UnredeemableChallenge(sha: Digest, verifier: string, challenge: string)
    requires |challenge| != 43 || Base64.UrlDecode(challenge) == None
    ensures !VerifyS256(sha, verifier, challenge)
  {
    VerifyIsDecodeEquality(sha, verifier, challenge);
    TokenShape(sha(verifier));
  }

  /** And that is the exact condition: any such challenge is redeemable under
      some hash function. */
  lemma RedeemableChallenge(challenge: string, verifier: string) returns (sha: Digest)
    requires |challenge| == 43 && Base64.UrlDecode(challenge).Some? && IsValidVerifier(verifier)
    ensures VerifyS256(sha, verifier, challenge)
  {
    var d := Base64.UrlDecode(challenge).value;
    Base64.EncodeDecode(Base64.UrlSafe, challenge);
    Base64.DecodeEncode(Base64.UrlSafe, d);
    assert |d| == 32;
    var digest: Bytes32 := d;
    sha := s => digest;
    VerifyIsDecodeEquality(sha, verifier, challenge);
  }

  /** `/authorize` accepts a challenge; can some client of some provider redeem
      it? Exactly when it is 43 characters that decode. */
  lemma RedeemableExactly(challenge: string)
    ensures (exists sha: Digest, verifier: string :: VerifyS256(sha, verifier, challenge))
      <==> |challenge| == 43 && Base64.UrlDecode(challenge).Some?
  {
    if |challenge| == 43 && Base64.UrlDecode(challenge).Some? {
      var verifier := seq(43, i => 'a');
      var sha := RedeemableChallenge(challenge, verifier);
      assert VerifyS256(sha, verifier, challenge);
    }
    forall sha: Digest, verifier: string | VerifyS256(sha, verifier, challenge)
      ensures |challenge| == 43 && Base64.UrlDecode(challenge).Some?
    {
      if |challenge| != 43 || Base64.UrlDecode(challenge) == None { UnredeemableChallenge(sha, verifier, challenge); }
    }
  }

  /** So not every accepted challenge is: 44 times `A` is accepted and never
      verifies. */
  lemma AcceptedButUnredeemable(sha: Digest, verifier: string) returns (challenge: string)
    ensures challenge == seq(44, i => 'A')
    ensures IsValidChallenge(challenge) && !VerifyS256(sha, verifier, challenge)
  {
    challenge := seq(44, i => 'A');
    UnredeemableChallenge(sha, verifier, challenge);
  }
}
