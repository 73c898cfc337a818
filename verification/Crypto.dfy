/** The cryptographic primitives, as parameters: only the stated laws are ever used. */
module Crypto {
  import opened Prelude

  /** HKDF as the ratchet uses it: the first chain key, a message key and the next chain key. */
  datatype Kdf = Kdf(initial: Key -> Key, message: (Key, u64) -> Key, next: (Key, u64) -> Key)

  const NONCE_LEN: nat := 12

  /** ChaCha20-Poly1305: `seal(key, nonce, plaintext, aad)` and `open(key, nonce, body, aad)`. */
  datatype Aead = Aead(
    seal: (Key, Bytes, Bytes, Bytes) -> Bytes,
    open: (Key, Bytes, Bytes, Bytes) -> Option<Bytes>)

  /** Section 2.8 of RFC 8439: opening a sealed text under the same inputs gives the text back. */
  ghost predicate OpensWhatItSeals(aead: Aead) {
    forall key, nonce, text, aad {:trigger aead.seal(key, nonce, text, aad)} ::
      aead.open(key, nonce, aead.seal(key, nonce, text, aad), aad) == Some(text)
  }
}
