/** Properties that span components: relay to wire, and ratchet to disk. */
module EndToEnd {
  import opened Prelude
  import Protocol
  import Transport
  import Relay
  import opened Crypto
  import opened Receive
  import Snapshot
  import opened Journal
  import opened JournalRuns

  const WS_MAX_MESSAGE: nat := Transport.MAX_FRAME + 8

  /** Every message the relay accepts is written to a socket in one frame within the socket's limit, and the
      peer decodes exactly that message from it; the relay charged exactly the size of its encoding. */
  lemma RelayedMessagesReachTheWire(m: Protocol.EncryptedMessage)
    requires Relay.ValidMessage(m)
    ensures Protocol.Encodable(m)
    ensures var payload := Protocol.Wire(m);
            && |payload| == Relay.MessageSize(m) == 82 + |m.ratchetHeader| + |m.ciphertext|
            && Transport.NewFrame(Transport.EncryptedMessageFrame, 0, payload).Ok?
            && var f := Transport.NewFrame(Transport.EncryptedMessageFrame, 0, payload).value;
               var sent := Transport.FrameWire(f);
               && |sent| <= WS_MAX_MESSAGE && Transport.Validate(f).Ok?
               && Transport.FromBytes(sent) == Ok(f)
               && Transport.KindOf(f.header.kind) == Ok(Transport.EncryptedMessageFrame)
               && Protocol.Decoded(f.payload) == Ok(m)
  {
    var payload := Protocol.Wire(m);
    Protocol.WireFields(m, []);
    Protocol.MessageCodecIsExact(payload, m);
    assert payload + [] == payload;
    hide Protocol.Wire, Protocol.Decoded;
    Transport.NewFramesRoundTrip(Transport.EncryptedMessageFrame, 0, payload);
    Transport.FrameWireFields(Transport.NewFrame(Transport.EncryptedMessageFrame, 0, payload).value);
  }

  /** A receive ratchet saved through the journal: wherever the save stops, the next start loads either what was
      loaded before, or this very receiver. */
  lemma RatchetSurvivesACrash(j: Journal, dir: Dir, next: Option<u64>, nonce: Bytes, s: Receiver, stop: Stop,
                              before: Result<(u64, Bytes), StorageError>)
    requires Lawful(j) && |nonce| == NONCE_LEN && IsNext(j.prefix, dir, next) && LoadsTo(j, dir, before)
    requires |s.skipped| <= Snapshot.MAX_SNAPSHOT_SKIPPED && s.chain.counter < U64_MAX
    ensures Snapshot.Saved(s).Ok?
    ensures var text := Snapshot.Saved(s).value;
            var (dir', r) := AfterSave(j, dir, next, nonce, text, stop);
            if Committed(stop, r)
            then next.Some? && LoadsTo(j, dir', Ok((next.value, text))) && Snapshot.Restored(text) == Ok(s)
            else LoadsTo(j, dir', before)
  {
    hide LoadsTo, AfterSave, Snapshot.Restored, IsNext;
    Snapshot.RestoreInvertsSave(s);
    SaveIsCrashSafe(j, dir, next, nonce, Snapshot.Saved(s).value, stop, before);
  }
}
