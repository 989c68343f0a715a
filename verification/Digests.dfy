/** The two message digests, abstract, and the key derivation of ICAO Doc 9303 part 11 section 9.7.1. */
module Digests {
  import opened Bytes
  import opened SecureMessaging

  /** SHA-1 and SHA-256, as functions of the whole message. */
  datatype Hashes = Hashes(sha1: Bytes -> Bytes, sha256: Bytes -> Bytes)

  ghost predicate LawfulHashes(h: Hashes) {
    && (forall m: Bytes :: |h.sha1(m)| == 20)
    && (forall m: Bytes :: |h.sha256(m)| == 32)
  }

  lemma DigestLengths(h: Hashes, m: Bytes)
    requires LawfulHashes(h)
    ensures |h.sha1(m)| == 20 && |h.sha256(m)| == 32
  {
  }

  const COUNTER_ENC := 1
  const COUNTER_MAC := 2
  const COUNTER_PACE := 3

  /** How many one bits there are in a number. */
  function Ones(n: nat): nat {
    if n == 0 then 0 else n % 2 + Ones(n / 2)
  }

  /** A DES key byte: seven bits of key, and the lowest bit completes an odd number of ones. */
  function AdjustParity(b: byte): byte {
    b - b % 2 + if Ones(b / 2) % 2 == 0 then 1 else 0
  }

  lemma AdjustedIsOdd(b: byte)
    ensures Ones(AdjustParity(b)) % 2 == 1 && AdjustParity(b) / 2 == b / 2
  {
    var half: nat, low: nat := b / 2, if Ones(b / 2) % 2 == 0 then 1 else 0;
    assert AdjustParity(b) == 2 * half + low;
    assert (2 * half + low) / 2 == half && (2 * half + low) % 2 == low;
    hide AdjustParity;
    assert half == 0 ==> low == 1;
    assert Ones(2 * half + low) == low + Ones(half);
  }

  /** The key of a suite that a shared secret and a counter give. */
  function Derive(h: Hashes, suite: Suite, secret: Bytes, counter: byte): (key: Bytes)
    requires LawfulHashes(h)
    ensures |key| == KeySize(suite)
  {
    var message := secret + [0, 0, 0, counter];
    DigestLengths(h, message);
    var digest := if suite == TripleDes || suite == Aes128 then h.sha1(message) else h.sha256(message);
    var key := digest[..KeySize(suite)];
    if suite == TripleDes then seq(16, i requires 0 <= i < 16 => AdjustParity(key[i])) else key
  }

  /**
   * A key of this suite, byte by byte the head of a digest over this message: 16 bytes of SHA-1 for triple
   * DES, its lowest bits set for odd parity, and for AES-128; 24 or 32 bytes of SHA-256 for the longer ones.
   */
  ghost predicate IsHead(h: Hashes, suite: Suite, message: Bytes, key: Bytes) {
    && |h.sha1(message)| == 20 && |h.sha256(message)| == 32
    && match suite
       case TripleDes =>
         |key| == 16 && forall i :: 0 <= i < 16 ==> key[i] / 2 == h.sha1(message)[i] / 2 && Ones(key[i]) % 2 == 1
       case Aes128 => key == h.sha1(message)[..16]
       case Aes192 => key == h.sha256(message)[..24]
       case Aes256 => key == h.sha256(message)
  }

  /** What a derived key is: the head of the digest over secret and counter, in four bytes. */
  lemma DerivedKey(h: Hashes, suite: Suite, secret: Bytes, counter: byte)
    requires LawfulHashes(h)
    ensures IsHead(h, suite, secret + [0, 0, 0, counter], Derive(h, suite, secret, counter))
  {
    hide Ones, AdjustParity;
    var key, message := Derive(h, suite, secret, counter), secret + [0, 0, 0, counter];
    DigestLengths(h, message);
    if suite == TripleDes {
      forall i | 0 <= i < 16 ensures key[i] / 2 == h.sha1(message)[i] / 2 && Ones(key[i]) % 2 == 1 {
        AdjustedIsOdd(h.sha1(message)[i]);
      }
    }
  }

  /** The session two sides open who share a secret. */
  function SessionOf(h: Hashes, suite: Suite, secret: Bytes, ssc: Bytes): (s: Session)
    requires LawfulHashes(h) && |ssc| == BlockSize(suite)
    ensures Keyed(s) && s.established && s.suite == suite
  {
    Session(suite, Derive(h, suite, secret, COUNTER_ENC), Derive(h, suite, secret, COUNTER_MAC), ssc, true)
  }

  /** The keys of a session: counter 1 for encryption and counter 2 for checksums. */
  lemma SessionKeysAre(h: Hashes, suite: Suite, secret: Bytes, ssc: Bytes)
    requires LawfulHashes(h) && |ssc| == BlockSize(suite)
    ensures
      var s := SessionOf(h, suite, secret, ssc);
      && s.ssc == ssc && IsHead(h, suite, secret + [0, 0, 0, 1], s.ksEnc) && IsHead(h, suite, secret + [0, 0, 0, 2], s.ksMac)
  {
    hide IsHead, Derive;
    DerivedKey(h, suite, secret, 1);
    DerivedKey(h, suite, secret, 2);
  }
}
