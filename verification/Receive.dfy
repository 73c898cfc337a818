/** The receive ratchet: skipped keys and transactional decryption (core/ratchet/src/receive.rs). */
module Receive {
  import opened Prelude
  import opened Crypto
  import opened Protocol
  import opened Ratchet

  const MAX_SKIP: u64 := 256

  datatype ReceiveError = TooFarAhead | Replay | DecryptionFailed | InvalidHeader(error: RatchetHeaderError)

  datatype Receiver = Receiver(chain: Chain, skipped: map<u64, Key>)

  function Fresh(kdf: Kdf, root: Key): Receiver {
    Receiver(Chain(ChainAt(kdf, root, 0), 0), map[])
  }

  /** Steps the chain up to `target`, keeping the key of every counter passed over. */
  function Advance(kdf: Kdf, s: Receiver, target: u64): (Receiver, Result<Key, ReceiveError>)
    requires s.chain.counter <= target
    decreases target - s.chain.counter
  {
    var (chain, key) := Stepped(kdf, s.chain);
    if key.Err? then (Receiver(chain, s.skipped), Err(DecryptionFailed))
    else if s.chain.counter == target then (Receiver(chain, s.skipped), Ok(key.value))
    else Advance(kdf, Receiver(chain, s.skipped[s.chain.counter := key.value]), target)
  }

  function TakenKey(kdf: Kdf, s: Receiver, target: u64): (Receiver, Result<Key, ReceiveError>) {
    if target < s.chain.counter then
      if target in s.skipped then (Receiver(s.chain, s.skipped - {target}), Ok(s.skipped[target]))
      else (s, Err(Replay))
    else if target - s.chain.counter > MAX_SKIP then (s, Err(TooFarAhead))
    else Advance(kdf, s, target)
  }

  function Decrypted(kdf: Kdf, aead: Aead, s: Receiver, counter: u64, packet: Bytes, aad: Bytes)
    : (Receiver, Result<Bytes, ReceiveError>)
  {
    var (candidate, key) := TakenKey(kdf, s, counter);
    if key.Err? then (s, Err(key.error))
    else
      match DecryptOnce(aead, key.value, packet, aad)
      case Ok(text) => (candidate, Ok(text))
      case Err(_) => (s, Err(DecryptionFailed))
  }

  class ReceiveRatchet {
    var state: RatchetState
    var skipped: map<u64, Key>

    function Value(): Receiver
      reads this, state
    {
      Receiver(state.Value(), skipped)
    }

    constructor FromRoot(kdf: Kdf, root: Key)
      ensures fresh(state) && state.kdf == kdf && Value() == Fresh(kdf, root)
    {
      state := new RatchetState.FromRoot(kdf, root);
      skipped := map[];
    }

    constructor FromParts(kdf: Kdf, chainKey: Key, counter: u64, skipped: map<u64, Key>)
      ensures fresh(state) && state.kdf == kdf && Value() == Receiver(Chain(chainKey, counter), skipped)
    {
      state := new RatchetState.FromParts(kdf, chainKey, counter);
      this.skipped := skipped;
    }

    constructor Clone(other: ReceiveRatchet)
      ensures fresh(state) && state.kdf == other.state.kdf && Value() == other.Value()
    {
      state := new RatchetState.Clone(other.state);
      skipped := other.skipped;
    }

    /** Ends within 257 chain steps for every target. */
    method KeyFor(target: u64) returns (r: Result<Key, ReceiveError>, ghost steps: nat)
      modifies this, state
      ensures state == old(state)
      ensures (Value(), r) == TakenKey(state.kdf, old(Value()), target)
      ensures steps <= 257
    {
      steps := 0;
      var expected := state.nextCounter;
      if target < expected {
        if target !in skipped { return Err(Replay), steps; }
        var key := skipped[target];
        skipped := skipped - {target};
        return Ok(key), steps;
      }
      if target - expected > MAX_SKIP { return Err(TooFarAhead), steps; }
      var targetKey: Option<Key> := None;
      ghost var start := Value();
      while state.nextCounter <= target
        invariant state == old(state)
        invariant steps <= state.nextCounter - expected <= target - expected + 1
        invariant targetKey.None? ==> state.nextCounter <= target
        invariant targetKey.None? ==>
          Advance(state.kdf, start, target) == Advance(state.kdf, Value(), target)
        invariant targetKey.Some? ==>
          state.nextCounter == target + 1 && Advance(state.kdf, start, target) == (Value(), Ok(targetKey.value))
        decreases target + 1 - state.nextCounter
      {
        var counter := state.nextCounter;
        var key := state.NextMessageKey();
        steps := steps + 1;
        if key.Err? { return Err(DecryptionFailed), steps; }
        if counter == target { targetKey := Some(key.value); } else { skipped := skipped[counter := key.value]; }
      }
      r := Ok(targetKey.value);
    }

    /** Works on a copy, so a failed attempt leaves the ratchet as it was. */
    method Decrypt(aead: Aead, counter: u64, packet: Bytes, aad: Bytes) returns (r: Result<Bytes, ReceiveError>)
      modifies this
      ensures state.kdf == old(state.kdf)
      ensures (Value(), r) == Decrypted(state.kdf, aead, old(Value()), counter, packet, aad)
      ensures r.Err? ==> Value() == old(Value())
    {
      var candidate := new ReceiveRatchet.Clone(this);
      var key, _ := candidate.KeyFor(counter);
      if key.Err? { return Err(key.error); }
      var text := DecryptOnce(aead, key.value, packet, aad);
      if text.Err? { return Err(DecryptionFailed); }
      state, skipped := candidate.state, candidate.skipped;
      r := Ok(text.value);
    }

    method DecryptWithHeader(aead: Aead, header: Bytes, packet: Bytes, aad: Bytes)
      returns (r: Result<Bytes, ReceiveError>)
      modifies this
      ensures state.kdf == old(state.kdf)
      ensures match DecodeHeader(header)
              case Err(e) => r == Err(InvalidHeader(e)) && Value() == old(Value())
              case Ok(h) => (Value(), r) == Decrypted(state.kdf, aead, old(Value()), h.messageCounter, packet, aad)
    {
      var h := DecodeHeader(header);
      if h.Err? { return Err(InvalidHeader(h.error)); }
      r := Decrypt(aead, h.value.messageCounter, packet, aad);
    }
  }
}
