/** Wire frames (core/transport/src/lib.rs). */
module Transport {
  import opened Prelude
  import opened BigEndian

  const FRAME_VERSION: u16 := 1
  const HEADER_LEN: nat := 8
  const MAX_FRAME: nat := 16 * 1024 * 1024

  datatype FrameKind =
    | ClientHello | EncryptedMessageFrame | MessageAck | MessageBatch
    | PreKeyBundleFrame | PreKeyRequest | Ping | Pong

  datatype FrameError = InvalidVersion | UnknownKind | EmptyPayload | PayloadTooLarge | LengthMismatch | Truncated

  function KindCode(kind: FrameKind): byte {
    match kind
    case ClientHello => 1
    case EncryptedMessageFrame => 2
    case MessageAck => 3
    case MessageBatch => 4
    case PreKeyBundleFrame => 5
    case PreKeyRequest => 6
    case Ping => 7
    case Pong => 8
  }

  function KindOf(code: byte): (r: Result<FrameKind, FrameError>)
    ensures forall k :: KindCode(k) == code <==> r == Ok(k)
    ensures r.Err? ==> r.error == UnknownKind
  {
    match code
    case 1 => Ok(ClientHello)
    case 2 => Ok(EncryptedMessageFrame)
    case 3 => Ok(MessageAck)
    case 4 => Ok(MessageBatch)
    case 5 => Ok(PreKeyBundleFrame)
    case 6 => Ok(PreKeyRequest)
    case 7 => Ok(Ping)
    case 8 => Ok(Pong)
    case _ => Err(UnknownKind)
  }

  datatype FrameHeader = FrameHeader(version: u16, kind: byte, flags: byte, payloadLen: u32)

  datatype Frame = Frame(header: FrameHeader, payload: Bytes)

  function NewFrame(kind: FrameKind, flags: byte, payload: Bytes): Result<Frame, FrameError> {
    if payload == [] then Err(EmptyPayload)
    else if |payload| > MAX_FRAME then Err(PayloadTooLarge)
    else Ok(Frame(FrameHeader(FRAME_VERSION, KindCode(kind), flags, |payload|), payload))
  }

  function Validate(f: Frame): Result<(), FrameError> {
    if f.header.version != FRAME_VERSION then Err(InvalidVersion)
    else if KindOf(f.header.kind).Err? then Err(UnknownKind)
    else if f.payload == [] then Err(EmptyPayload)
    else if |f.payload| > MAX_FRAME then Err(PayloadTooLarge)
    else if f.header.payloadLen != |f.payload| then Err(LengthMismatch)
    else Ok(())
  }

  function FrameWire(f: Frame): Bytes {
    ToBE(f.header.version, 2) + [f.header.kind, f.header.flags] + ToBE(f.header.payloadLen, 4) + f.payload
  }

  method ToBytes(f: Frame) returns (r: Result<Bytes, FrameError>)
    ensures r == if Validate(f).Ok? then Ok(FrameWire(f)) else Err(Validate(f).error)
    ensures r.Ok? ==> |r.value| == HEADER_LEN + |f.payload|
  {
    var check := Validate(f);
    if check.Err? { return Err(check.error); }
    var out: Bytes := ToBE(f.header.version, 2);
    out := out + [f.header.kind];
    out := out + [f.header.flags];
    out := out + ToBE(f.header.payloadLen, 4);
    out := out + f.payload;
    assert out == FrameWire(f);
    r := Ok(out);
  }

  function FromBytes(bytes: Bytes): Result<Frame, FrameError> {
    if |bytes| < HEADER_LEN then Err(Truncated)
    else
      var payloadLen := ReadU32(bytes[4..8]);
      if payloadLen == 0 then Err(EmptyPayload)
      else if payloadLen > MAX_FRAME then Err(PayloadTooLarge)
      else if |bytes| != HEADER_LEN + payloadLen then Err(LengthMismatch)
      else
        var f := Frame(FrameHeader(ReadU16(bytes[..2]), bytes[2], bytes[3], payloadLen), bytes[HEADER_LEN..]);
        if Validate(f).Err? then Err(Validate(f).error) else Ok(f)
  }

  lemma FrameWireFields(f: Frame)
    ensures var b := FrameWire(f);
            && |b| == HEADER_LEN + |f.payload|
            && b[..2] == ToBE(f.header.version, 2) && b[2] == f.header.kind && b[3] == f.header.flags
            && b[4..8] == ToBE(f.header.payloadLen, 4) && b[8..] == f.payload
  {
  }

  /** Decoding accepts exactly the wire images of valid frames, and returns the frame encoded. */
  lemma FrameCodecIsExact(bytes: Bytes, f: Frame)
    ensures FromBytes(bytes) == Ok(f) <==> Validate(f).Ok? && FrameWire(f) == bytes
  {
    if FromBytes(bytes) == Ok(f) {
      ToFromBE(bytes[..2]);
      ToFromBE(bytes[4..8]);
      assert FrameWire(f) == bytes[..2] + bytes[2..4] + bytes[4..8] + bytes[8..];
      assert FrameWire(f) == bytes;
    }
    if Validate(f).Ok? && FrameWire(f) == bytes {
      FrameWireFields(f);
      RoundTripU16(f.header.version);
      RoundTripU32(f.header.payloadLen);
    }
  }

  /** A byte string is accepted exactly when it starts with version 1 and one of the eight kinds, and announces, in
      four bytes, the length of what follows: 1 byte to 16 MiB. */
  lemma AcceptedExactlyWhen(bytes: Bytes)
    ensures FromBytes(bytes).Ok? <==>
            && |bytes| > 8 && bytes[..2] == [0, 1] && 1 <= bytes[2] <= 8
            && ReadU32(bytes[4..8]) == |bytes| - 8 <= 16_777_216
    ensures FromBytes(bytes).Ok? ==>
              var f := FromBytes(bytes).value;
              f.payload == bytes[8..] && KindCode(KindOf(f.header.kind).value) == bytes[2] && f.header.flags == bytes[3]
  {
    if |bytes| >= 8 {
      OneIsOne(bytes[..2]);
    }
  }

  /** A frame is built exactly from 1 byte to 16 MiB of payload, and carries what it was given. */
  lemma BuildsExactlyWhen(kind: FrameKind, flags: byte, payload: Bytes)
    ensures NewFrame(kind, flags, payload).Ok? <==> 1 <= |payload| <= 16_777_216
    ensures NewFrame(kind, flags, payload).Ok? ==>
              var f := NewFrame(kind, flags, payload).value;
              f.payload == payload && f.header.flags == flags && KindOf(f.header.kind) == Ok(kind) && Validate(f).Ok?
  {
  }

  /** Every frame built by `NewFrame` survives the trip over the wire. */
  lemma NewFramesRoundTrip(kind: FrameKind, flags: byte, payload: Bytes)
    requires NewFrame(kind, flags, payload).Ok?
    ensures var f := NewFrame(kind, flags, payload).value;
            FromBytes(FrameWire(f)) == Ok(f) && KindOf(f.header.kind) == Ok(kind)
  {
    var f := NewFrame(kind, flags, payload).value;
    FrameCodecIsExact(FrameWire(f), f);
  }
}
