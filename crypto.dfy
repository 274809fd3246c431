/** Bytes and the cryptographic primitives the core calls into. The
    primitives themselves (PBKDF2, AES-GCM) run in the platform's crypto
    library; the model receives them as values of function type, so every
    call with the same inputs gives the same output, and states what it
    needs of them as predicates that lemmas take as hypotheses. */
module Crypto {
  import opened Base

  type Byte = bv8

  type Bytes = seq<Byte>

  /** PBKDF2 with HMAC-SHA-256 (section 5.2 of RFC 8018), 200000
      iterations, a 32-byte output, applied to a PIN and a salt. */
  datatype Kdf = Kdf(derive: (string, Bytes) -> Bytes)

  const PBKDF2_ITERATIONS := 200000
  const SALT_LENGTH := 16
  const KEY_LENGTH := 32

  /** No two distinct PINs derive the same hash under the same salt. */
  ghost predicate CollisionFree(kdf: Kdf, salt: Bytes) {
    forall p, q {:trigger kdf.derive(p, salt), kdf.derive(q, salt)} ::
      p != q ==> kdf.derive(p, salt) != kdf.derive(q, salt)
  }

  /** An opaque handle to a non-extractable `CryptoKey`. */
  type KeyHandle = nat

  /** AES-GCM with a 256-bit key and a 12-byte IV: encryption of a UTF-8
      string and decryption back to one; `None` is a rejected promise. */
  datatype Aead = Aead(
    encrypt: (KeyHandle, string, Bytes) -> Option<Bytes>,
    decrypt: (KeyHandle, Bytes, Bytes) -> Option<string>)

  /** Authenticated encryption as the model needs it: what is encrypted
      decrypts back under the same key and IV, and a ciphertext decrypts
      only if it is the encryption of what it decrypts to. */
  ghost predicate AeadSound(c: Aead) {
    && (forall k, p, iv :: c.encrypt(k, p, iv).Some? ==>
          c.decrypt(k, c.encrypt(k, p, iv).value, iv) == Some(p))
    && (forall k, ct, iv :: c.decrypt(k, ct, iv).Some? ==>
          c.encrypt(k, c.decrypt(k, ct, iv).value, iv) == Some(ct))
  }

  /** Constant-time comparison of a stored and a candidate hash: unequal
      lengths are refused at once; otherwise every byte pair is visited and
      their differences are or-ed together. */
  method TimingSafeEqual(a: Bytes, b: Bytes) returns (equal: bool, ghost visited: nat)
    ensures equal <==> a == b
    ensures |a| == |b| ==> visited == |a|
    ensures |a| != |b| ==> visited == 0
  {
    if |a| != |b| {
      return false, 0;
    }
    var diff: bv8 := 0;
    visited := 0;
    for i := 0 to |a|
      invariant visited == i
      invariant diff == 0 <==> forall j :: 0 <= j < i ==> a[j] == b[j]
    {
      diff := diff | (a[i] ^ b[i]);
      visited := visited + 1;
    }
    equal := diff == 0;
  }
}
