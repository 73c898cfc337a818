/** The symmetric chain of the sender and the receiver (core/ratchet/src/lib.rs). */
module Ratchet {
  import opened Prelude
  import opened Crypto

  datatype RatchetError = KdfError | Encryption | Decryption | InvalidNonce

  datatype Chain = Chain(key: Key, counter: u64)

  /** One step of the chain; the chain key moves on even when the counter cannot. */
  function Stepped(kdf: Kdf, c: Chain): (Chain, Result<Key, RatchetError>) {
    var next := kdf.next(c.key, c.counter);
    if c.counter == U64_MAX then (Chain(next, c.counter), Err(KdfError))
    else (Chain(next, c.counter + 1), Ok(kdf.message(c.key, c.counter)))
  }

  function Encrypted(kdf: Kdf, aead: Aead, c: Chain, nonce: Bytes, text: Bytes, aad: Bytes)
    : (Chain, Result<Bytes, RatchetError>)
  {
    var (next, key) := Stepped(kdf, c);
    match key
    case Err(e) => (next, Err(e))
    case Ok(k) => (next, Ok(nonce + aead.seal(k, nonce, text, aad)))
  }

  function DecryptOnce(aead: Aead, key: Key, packet: Bytes, aad: Bytes): Result<Bytes, RatchetError> {
    if |packet| < NONCE_LEN then Err(InvalidNonce)
    else
      match aead.open(key, packet[..NONCE_LEN], packet[NONCE_LEN..], aad)
      case Some(text) => Ok(text)
      case None => Err(Decryption)
  }

  /** The chain key after `n` steps from a root. */
  function ChainAt(kdf: Kdf, root: Key, n: u64): Key {
    if n == 0 then kdf.initial(root) else kdf.next(ChainAt(kdf, root, n - 1), n - 1)
  }

  /** The one key that encrypts, and decrypts, message number `n`. */
  function MessageKeyAt(kdf: Kdf, root: Key, n: u64): Key {
    kdf.message(ChainAt(kdf, root, n), n)
  }

  function SealedPacket(kdf: Kdf, aead: Aead, root: Key, n: u64, nonce: Bytes, text: Bytes, aad: Bytes): Bytes {
    nonce + aead.seal(MessageKeyAt(kdf, root, n), nonce, text, aad)
  }

  /** Message `n` opens under key `n`. */
  lemma SealedPacketOpens(kdf: Kdf, aead: Aead, root: Key, n: u64, nonce: Bytes, text: Bytes, aad: Bytes)
    requires OpensWhatItSeals(aead) && |nonce| == NONCE_LEN
    ensures DecryptOnce(aead, MessageKeyAt(kdf, root, n), SealedPacket(kdf, aead, root, n, nonce, text, aad), aad)
            == Ok(text)
  {
    var key := MessageKeyAt(kdf, root, n);
    var packet := SealedPacket(kdf, aead, root, n, nonce, text, aad);
    assert packet[..NONCE_LEN] == nonce && packet[NONCE_LEN..] == aead.seal(key, nonce, text, aad);
  }

  /** The three derivations keep apart what goes into them (HKDF as a collision-free function). */
  ghost predicate CollisionFree(kdf: Kdf) {
    && (forall a, b {:trigger kdf.initial(a), kdf.initial(b)} :: kdf.initial(a) == kdf.initial(b) ==> a == b)
    && (forall a, m, b, n {:trigger kdf.message(a, m), kdf.message(b, n)} ::
          kdf.message(a, m) == kdf.message(b, n) ==> a == b && m == n)
    && (forall a, m, b, n {:trigger kdf.next(a, m), kdf.next(b, n)} ::
          kdf.next(a, m) == kdf.next(b, n) ==> a == b && m == n)
    && (forall a, b, n {:trigger kdf.initial(a), kdf.next(b, n)} :: kdf.initial(a) != kdf.next(b, n))
  }

  /** No chain key comes back: each position of each chain has its own. */
  lemma {:induction false} ChainKeysDiffer(kdf: Kdf, r: Key, m: u64, s: Key, n: u64)
    requires CollisionFree(kdf)
    ensures ChainAt(kdf, r, m) == ChainAt(kdf, s, n) <==> r == s && m == n
    decreases m
  {
    if m > 0 && n > 0 {
      ChainKeysDiffer(kdf, r, m - 1, s, n - 1);
    }
  }

  /** No message key is used twice: not for two messages of one session, and not in two sessions. */
  lemma MessageKeysDiffer(kdf: Kdf, r: Key, m: u64, s: Key, n: u64)
    requires CollisionFree(kdf)
    ensures MessageKeyAt(kdf, r, m) == MessageKeyAt(kdf, s, n) <==> r == s && m == n
  {
    ChainKeysDiffer(kdf, r, m, s, n);
  }

  /** After 2^64 - 1 messages a sender only fails. Its chain key still moves on, to one that no chain has at any
      position. */
  lemma ExhaustedSenderMovesOn(kdf: Kdf, aead: Aead, root: Key, nonce: Bytes, text: Bytes, aad: Bytes)
    requires CollisionFree(kdf)
    ensures var (c, r) := Encrypted(kdf, aead, Chain(ChainAt(kdf, root, U64_MAX), U64_MAX), nonce, text, aad);
            && r == Err(KdfError) && c.counter == U64_MAX
            && forall s: Key, n: u64 :: c.key != ChainAt(kdf, s, n)
  {
    var next := kdf.next(ChainAt(kdf, root, U64_MAX), U64_MAX);
    forall s: Key, n: u64 ensures next != ChainAt(kdf, s, n) {
      if n > 0 {
        assert ChainAt(kdf, s, n) == kdf.next(ChainAt(kdf, s, n - 1), n - 1);
      }
    }
  }

  class RatchetState {
    const kdf: Kdf
    var chainKey: Key
    var nextCounter: u64

    function Value(): Chain
      reads this
    {
      Chain(chainKey, nextCounter)
    }

    constructor FromRoot(kdf: Kdf, root: Key)
      ensures this.kdf == kdf && Value() == Chain(ChainAt(kdf, root, 0), 0)
    {
      this.kdf, chainKey, nextCounter := kdf, kdf.initial(root), 0;
    }

    constructor Clone(other: RatchetState)
      ensures kdf == other.kdf && Value() == other.Value()
    {
      kdf, chainKey, nextCounter := other.kdf, other.chainKey, other.nextCounter;
    }

    constructor FromParts(kdf: Kdf, chainKey: Key, counter: u64)
      ensures this.kdf == kdf && Value() == Chain(chainKey, counter)
    {
      this.kdf, this.chainKey, nextCounter := kdf, chainKey, counter;
    }

    method NextMessageKey() returns (r: Result<Key, RatchetError>)
      modifies this
      ensures (Value(), r) == Stepped(kdf, old(Value()))
    {
      var current := chainKey;
      var message := kdf.message(current, nextCounter);
      chainKey := kdf.next(current, nextCounter);
      if nextCounter == U64_MAX { return Err(KdfError); }
      nextCounter := nextCounter + 1;
      r := Ok(message);
    }

    method Encrypt(aead: Aead, nonce: Bytes, text: Bytes, aad: Bytes) returns (r: Result<Bytes, RatchetError>)
      modifies this
      ensures (Value(), r) == Encrypted(kdf, aead, old(Value()), nonce, text, aad)
    {
      var key := NextMessageKey();
      if key.Err? { return Err(key.error); }
      var out := nonce;
      out := out + aead.seal(key.value, nonce, text, aad);
      r := Ok(out);
    }
  }
}
