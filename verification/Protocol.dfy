/** Server-facing message types and their binary codec (core/protocol/src/lib.rs). */
module Protocol {
  import opened Prelude
  import opened BigEndian

  const PROTOCOL_VERSION: u16 := 1
  const RATCHET_HEADER_VERSION: u16 := 1
  const RATCHET_HEADER_LEN: nat := 10

  // ----- Encrypted messages -----

  datatype EncryptedMessage = EncryptedMessage(
    version: u16,
    messageId: Id,
    conversationId: Id,
    senderDeviceId: Id,
    recipientDeviceId: Id,
    ratchetHeader: Bytes,
    ciphertext: Bytes,
    sentAtMs: u64)

  datatype MessageCodecError = Truncated | InvalidVersion | LengthOverflow | LengthMismatch | TrailingBytes

  /** Both variable parts have a length that fits the 32-bit length fields. */
  predicate Encodable(m: EncryptedMessage) {
    |m.ratchetHeader| <= U32_MAX && |m.ciphertext| <= U32_MAX
  }

  function Prefix(m: EncryptedMessage): Bytes {
    ToBE(m.version, 2) + ToBE(m.messageId, 16) + ToBE(m.conversationId, 16)
    + ToBE(m.senderDeviceId, 16) + ToBE(m.recipientDeviceId, 16)
  }

  function Suffix(m: EncryptedMessage): Bytes {
    ToBE(|m.ciphertext|, 4) + m.ciphertext + ToBE(m.sentAtMs, 8)
  }

  /** The wire image of a message. */
  function Wire(m: EncryptedMessage): Bytes {
    Prefix(m) + (ToBE(|m.ratchetHeader|, 4) + m.ratchetHeader) + Suffix(m)
  }

  method Encode(m: EncryptedMessage) returns (r: Result<Bytes, MessageCodecError>)
    ensures r == if Encodable(m) then Ok(Wire(m)) else Err(LengthOverflow)
    ensures r.Ok? ==> |r.value| == 82 + |m.ratchetHeader| + |m.ciphertext|
  {
    if |m.ratchetHeader| > U32_MAX { return Err(LengthOverflow); }
    if |m.ciphertext| > U32_MAX { return Err(LengthOverflow); }
    var total := 2 + 16 * 4 + 4 + |m.ratchetHeader| + 4 + |m.ciphertext| + 8;
    if total > U64_MAX { return Err(LengthOverflow); }
    var out: Bytes := ToBE(m.version, 2);
    out := out + ToBE(m.messageId, 16);
    out := out + ToBE(m.conversationId, 16);
    out := out + ToBE(m.senderDeviceId, 16);
    out := out + ToBE(m.recipientDeviceId, 16);
    assert out == Prefix(m);
    out := out + ToBE(|m.ratchetHeader|, 4);
    out := out + m.ratchetHeader;
    out := out + ToBE(|m.ciphertext|, 4);
    out := out + m.ciphertext;
    out := out + ToBE(m.sentAtMs, 8);
    assert out == Wire(m);
    r := Ok(out);
  }

  /** What `DecodeMessage` computes, by offsets instead of a moving cursor. */
  function Decoded(bytes: Bytes): Result<EncryptedMessage, MessageCodecError> {
    if |bytes| < 2 then Err(Truncated)
    else if ReadU16(bytes[..2]) != PROTOCOL_VERSION then Err(InvalidVersion)
    else if |bytes| < 70 then Err(Truncated)
    else
      var h := ReadU32(bytes[66..70]);
      if |bytes| < 74 + h then Err(Truncated)
      else
        var c := ReadU32(bytes[70 + h..74 + h]);
        var end := 82 + h + c;
        if |bytes| < end then Err(Truncated)
        else if |bytes| > end then Err(TrailingBytes)
        else
          Ok(EncryptedMessage(PROTOCOL_VERSION, ReadId(bytes[2..18]), ReadId(bytes[18..34]),
                              ReadId(bytes[34..50]), ReadId(bytes[50..66]),
                              bytes[70..70 + h], bytes[74 + h..74 + h + c], ReadU64(bytes[74 + h + c..])))
  }

  method TakeBytes(bytes: Bytes, cursor: nat, n: nat) returns (r: Result<Bytes, MessageCodecError>, next: nat)
    requires cursor <= |bytes|
    ensures cursor <= next <= |bytes|
    ensures |bytes| < cursor + n <==> r == Err(Truncated)
    ensures r.Ok? ==> next == cursor + n && r.value == bytes[cursor..next]
    ensures r.Err? ==> r == Err(Truncated) && next == cursor
  {
    if |bytes| - cursor < n { return Err(Truncated), cursor; }
    next := cursor + n;
    r := Ok(bytes[cursor..next]);
  }

  method DecodeIds(bytes: Bytes, start: nat) returns (r: Result<(Id, Id, Id, Id), MessageCodecError>, next: nat)
    requires start <= |bytes|
    ensures start <= next <= |bytes|
    ensures |bytes| < start + 64 <==> r == Err(Truncated)
    ensures r.Err? ==> r == Err(Truncated)
    ensures r.Ok? ==>
              && next == start + 64
              && r.value.0 == ReadId(bytes[start..start + 16]) && r.value.1 == ReadId(bytes[start + 16..start + 32])
              && r.value.2 == ReadId(bytes[start + 32..start + 48]) && r.value.3 == ReadId(bytes[start + 48..next])
  {
    var messageId, conversationId, sender, recipient;
    messageId, next := TakeBytes(bytes, start, 16);
    if messageId.Err? { return Err(messageId.error), next; }
    conversationId, next := TakeBytes(bytes, next, 16);
    if conversationId.Err? { return Err(conversationId.error), next; }
    sender, next := TakeBytes(bytes, next, 16);
    if sender.Err? { return Err(sender.error), next; }
    recipient, next := TakeBytes(bytes, next, 16);
    if recipient.Err? { return Err(recipient.error), next; }
    r := Ok((ReadId(messageId.value), ReadId(conversationId.value), ReadId(sender.value), ReadId(recipient.value)));
  }

  method TakeBlock(bytes: Bytes, start: nat) returns (r: Result<Bytes, MessageCodecError>, next: nat)
    requires start <= |bytes|
    ensures start <= next <= |bytes|
    ensures r.Err? ==> r == Err(Truncated)
    ensures r.Err? <==> |bytes| < start + 4 || |bytes| < start + 4 + ReadU32(bytes[start..start + 4])
    ensures r.Ok? ==> next == start + 4 + ReadU32(bytes[start..start + 4]) && r.value == bytes[start + 4..next]
  {
    var len, cursor := TakeBytes(bytes, start, 4);
    if len.Err? { return Err(len.error), start; }
    r, next := TakeBytes(bytes, cursor, ReadU32(len.value));
  }

  method DecodeMessage(bytes: Bytes) returns (r: Result<EncryptedMessage, MessageCodecError>)
    ensures r == Decoded(bytes)
  {
    var version, cursor := TakeBytes(bytes, 0, 2);
    if version.Err? { return Err(version.error); }
    assert version.value == bytes[..2];
    if ReadU16(version.value) != PROTOCOL_VERSION { return Err(InvalidVersion); }
    var ids, header, ciphertext, sentAt;
    ids, cursor := DecodeIds(bytes, cursor);
    if ids.Err? { return Err(ids.error); }
    header, cursor := TakeBlock(bytes, cursor);
    if header.Err? { return Err(header.error); }
    ciphertext, cursor := TakeBlock(bytes, cursor);
    if ciphertext.Err? { return Err(ciphertext.error); }
    sentAt, cursor := TakeBytes(bytes, cursor, 8);
    if sentAt.Err? { return Err(sentAt.error); }
    if cursor != |bytes| { return Err(TrailingBytes); }
    assert sentAt.value == bytes[cursor - 8..];
    var (messageId, conversationId, sender, recipient) := ids.value;
    r := Ok(EncryptedMessage(PROTOCOL_VERSION, messageId, conversationId, sender, recipient,
                             header.value, ciphertext.value, ReadU64(sentAt.value)));
  }

  /** Where the fields of a message lie in its wire image, whatever follows it. */
  lemma WireFields(m: EncryptedMessage, tail: Bytes)
    requires Encodable(m)
    ensures var b := Wire(m) + tail; var h := |m.ratchetHeader|; var c := |m.ciphertext|;
            && |b| == 82 + h + c + |tail|
            && b[..2] == ToBE(m.version, 2)
            && b[2..18] == ToBE(m.messageId, 16) && b[18..34] == ToBE(m.conversationId, 16)
            && b[34..50] == ToBE(m.senderDeviceId, 16) && b[50..66] == ToBE(m.recipientDeviceId, 16)
            && b[66..70] == ToBE(h, 4) && b[70..70 + h] == m.ratchetHeader
            && b[70 + h..74 + h] == ToBE(c, 4) && b[74 + h..74 + h + c] == m.ciphertext
            && b[74 + h + c..82 + h + c] == ToBE(m.sentAtMs, 8)
  {
    var h, c := |m.ratchetHeader|, |m.ciphertext|;
    var b := Wire(m) + tail;
    assert b[..66] == Prefix(m);
    assert b[66..70 + h] == ToBE(h, 4) + m.ratchetHeader;
    assert b[70 + h..82 + h + c] == Suffix(m);
    assert b[66..70] == b[66..70 + h][..4];
    assert b[70..70 + h] == b[66..70 + h][4..];
    var s := b[70 + h..82 + h + c];
    assert b[70 + h..74 + h] == s[..4];
    assert b[74 + h..74 + h + c] == s[4..4 + c];
    assert b[74 + h + c..82 + h + c] == s[4 + c..];
    assert forall i, j | 0 <= i <= j <= 66 :: b[i..j] == b[..66][i..j];
  }

  /** Decoding inverts encoding, and any byte after a complete message is reported as trailing. */
  lemma DecodeInvertsWire(m: EncryptedMessage, tail: Bytes)
    requires Encodable(m) && m.version == PROTOCOL_VERSION
    ensures Decoded(Wire(m) + tail) == if tail == [] then Ok(m) else Err(TrailingBytes)
  {
    WireFields(m, tail);
    RoundTripU16(m.version);
    RoundTripU32(|m.ratchetHeader|);
    RoundTripU32(|m.ciphertext|);
    RoundTripU64(m.sentAtMs);
    RoundTripId(m.messageId);
    RoundTripId(m.conversationId);
    RoundTripId(m.senderDeviceId);
    RoundTripId(m.recipientDeviceId);
    var b := Wire(m) + tail;
    var h, c := |m.ratchetHeader|, |m.ciphertext|;
    if tail == [] {
      assert b[74 + h + c..] == b[74 + h + c..82 + h + c];
    }
  }

  lemma PrefixInverts(bytes: Bytes, m: EncryptedMessage)
    requires |bytes| >= 66 && m.version == ReadU16(bytes[..2])
    requires m.messageId == ReadId(bytes[2..18]) && m.conversationId == ReadId(bytes[18..34])
    requires m.senderDeviceId == ReadId(bytes[34..50]) && m.recipientDeviceId == ReadId(bytes[50..66])
    ensures Prefix(m) == bytes[..66]
  {
    ToFromBE(bytes[..2]);
    ToFromBE(bytes[2..18]);
    ToFromBE(bytes[18..34]);
    ToFromBE(bytes[34..50]);
    ToFromBE(bytes[50..66]);
  }

  lemma SuffixInverts(bytes: Bytes, at: nat, m: EncryptedMessage)
    requires |bytes| == at + 12 + |m.ciphertext| && Encodable(m)
    requires |m.ciphertext| == ReadU32(bytes[at..at + 4]) && m.ciphertext == bytes[at + 4..at + 4 + |m.ciphertext|]
    requires m.sentAtMs == ReadU64(bytes[at + 4 + |m.ciphertext|..])
    ensures Suffix(m) == bytes[at..]
  {
    ToFromBE(bytes[at..at + 4]);
    ToFromBE(bytes[at + 4 + |m.ciphertext|..]);
  }

  lemma HeaderBlockInverts(bytes: Bytes, h: nat)
    requires |bytes| >= 70 + h && h == ReadU32(bytes[66..70])
    ensures ToBE(h, 4) + bytes[70..70 + h] == bytes[66..70 + h]
  {
    ToFromBE(bytes[66..70]);
  }

  lemma DecodedFields(bytes: Bytes, m: EncryptedMessage)
    requires Decoded(bytes) == Ok(m)
    ensures Encodable(m) && m.version == PROTOCOL_VERSION
    ensures var h, c := |m.ratchetHeader|, |m.ciphertext|;
            && |bytes| == 82 + h + c
            && m.version == ReadU16(bytes[..2])
            && m.messageId == ReadId(bytes[2..18]) && m.conversationId == ReadId(bytes[18..34])
            && m.senderDeviceId == ReadId(bytes[34..50]) && m.recipientDeviceId == ReadId(bytes[50..66])
            && h == ReadU32(bytes[66..70]) && m.ratchetHeader == bytes[70..70 + h]
            && c == ReadU32(bytes[70 + h..74 + h]) && m.ciphertext == bytes[74 + h..74 + h + c]
            && m.sentAtMs == ReadU64(bytes[74 + h + c..])
  {
  }

  /** Encoding inverts decoding: an accepted byte string is the wire image of the decoded message. */
  lemma WireInvertsDecode(bytes: Bytes, m: EncryptedMessage)
    requires Decoded(bytes) == Ok(m)
    ensures Encodable(m) && m.version == PROTOCOL_VERSION && Wire(m) == bytes
  {
    assert Wire(m) == Prefix(m) + (ToBE(|m.ratchetHeader|, 4) + m.ratchetHeader) + Suffix(m);
    hide *;
    DecodedFields(bytes, m);
    var h := |m.ratchetHeader|;
    PrefixInverts(bytes, m);
    HeaderBlockInverts(bytes, h);
    SuffixInverts(bytes, 70 + h, m);
    SplitTwice(bytes, 66, 70 + h);
  }

  lemma SplitTwice(bytes: Bytes, i: nat, j: nat)
    requires i <= j <= |bytes|
    ensures bytes == bytes[..i] + bytes[i..j] + bytes[j..]
  {
  }

  /** A byte string is accepted, as `m`, exactly when it is the wire image of the version-1 message `m`. */
  lemma MessageCodecIsExact(bytes: Bytes, m: EncryptedMessage)
    ensures Decoded(bytes) == Ok(m) <==> Encodable(m) && m.version == PROTOCOL_VERSION && Wire(m) == bytes
  {
    if Decoded(bytes) == Ok(m) {
      WireInvertsDecode(bytes, m);
    }
    if Encodable(m) && m.version == PROTOCOL_VERSION && Wire(m) == bytes {
      DecodeInvertsWire(m, []);
      assert Wire(m) + [] == bytes;
    }
  }

  // ----- Ratchet headers -----

  datatype RatchetHeader = RatchetHeader(version: u16, messageCounter: u64)

  datatype RatchetHeaderError = HeaderTruncated | HeaderInvalidVersion | HeaderTrailingBytes

  function EncodeHeader(h: RatchetHeader): Bytes {
    ToBE(h.version, 2) + ToBE(h.messageCounter, 8)
  }

  function DecodeHeader(bytes: Bytes): Result<RatchetHeader, RatchetHeaderError> {
    if |bytes| < RATCHET_HEADER_LEN then Err(HeaderTruncated)
    else if |bytes| > RATCHET_HEADER_LEN then Err(HeaderTrailingBytes)
    else if ReadU16(bytes[..2]) != RATCHET_HEADER_VERSION then Err(HeaderInvalidVersion)
    else Ok(RatchetHeader(ReadU16(bytes[..2]), ReadU64(bytes[2..])))
  }

  /** A counter has exactly one accepted header. */
  lemma HeaderCodecIsExact(bytes: Bytes, counter: u64)
    ensures DecodeHeader(bytes) == Ok(RatchetHeader(RATCHET_HEADER_VERSION, counter)) <==>
            bytes == EncodeHeader(RatchetHeader(RATCHET_HEADER_VERSION, counter))
  {
    var e := EncodeHeader(RatchetHeader(RATCHET_HEADER_VERSION, counter));
    RoundTripU16(RATCHET_HEADER_VERSION);
    RoundTripU64(counter);
    assert e[..2] == ToBE(RATCHET_HEADER_VERSION, 2) && e[2..] == ToBE(counter, 8);
    if DecodeHeader(bytes) == Ok(RatchetHeader(RATCHET_HEADER_VERSION, counter)) {
      ToFromBE(bytes[..2]);
      ToFromBE(bytes[2..]);
      assert bytes == bytes[..2] + bytes[2..];
    }
  }
}
