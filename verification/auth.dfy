/** The message authentication code shared by the controller and both agents:
    the first eight hex digits of SHA-256 over the nonce followed directly by
    the shared secret. SHA-256 itself is not modelled; it is a parameter
    `hash` standing for `hashlib.sha256(m.encode()).hexdigest()`, of which the
    model assumes only that it yields 64 lowercase hex digits. */
module Auth {

  import opened Text

  predicate IsLowerHexDigit(c: char) {
    '0' <= c <= '9' || 'a' <= c <= 'f'
  }

  /** `s` is exactly `n` lowercase hex digits. */
  predicate IsLowerHex(s: string, n: nat) {
    |s| == n && forall i :: 0 <= i < |s| ==> IsLowerHexDigit(s[i])
  }

  /** What the model assumes of the digest: 64 lowercase hex digits for every message. */
  ghost predicate IsHexDigest(hash: string -> string) {
    forall m :: IsLowerHex(hash(m), 64)
  }

  const MacLength: nat := 8

  /** `hexdigest()[:8]` of `f"{nonce}{secret}"`: a prefix of the digest, eight
      characters long unless the digest itself is shorter. */
  function Mac(hash: string -> string, nonce: string, secret: string): (mac: string)
    ensures StartsWith(hash(nonce + secret), mac)
    ensures |mac| == if |hash(nonce + secret)| < MacLength then |hash(nonce + secret)| else MacLength
  {
    var digest := hash(nonce + secret);
    if |digest| <= MacLength then digest else digest[..MacLength]
  }

  /** With a real hex digest the MAC is always eight lowercase hex digits, so it
      is a single whitespace-free token on the wire. */
  lemma MacIsEightHexDigits(hash: string -> string, nonce: string, secret: string)
    requires IsHexDigest(hash)
    ensures IsLowerHex(Mac(hash, nonce, secret), 8)
    ensures IsWord(Mac(hash, nonce, secret))
  {
    var digest := hash(nonce + secret);
    assert IsLowerHex(digest, 64);
    var mac := Mac(hash, nonce, secret);
    assert mac == digest[..8];
    assert forall i :: 0 <= i < |mac| ==> mac[i] == digest[i] && IsLowerHexDigit(digest[i]);
  }
}
