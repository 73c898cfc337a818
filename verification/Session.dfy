/** Session agreement and one-time prekeys (core/session/src/lib.rs, core/identity/src/prekeys.rs). */
module Session {
  import opened Prelude
  import opened BigEndian
  import opened Protocol
  import opened Bundle

  /** X25519, HKDF-SHA256 and Ed25519, as parameters. */
  datatype Suite = Suite(
    publicOf: Key -> Key,
    shared: (Key, Key) -> Key,
    hkdf: (Bytes, Bytes) -> Key,
    identityOk: Key -> bool,
    recordOk: (Key, SignedPrekeyRecord) -> bool)

  datatype SignedPrekeyRecord = SignedPrekeyRecord(
    keyId: u32, publicKey: Key, agreementPublicKey: Key, signature: Bytes)

  /** Section 6.1 of RFC 7748: both sides of an exchange compute the same secret. */
  ghost predicate Commutes(suite: Suite) {
    forall a, b {:trigger suite.shared(a, suite.publicOf(b))} ::
      suite.shared(a, suite.publicOf(b)) == suite.shared(b, suite.publicOf(a))
  }

  datatype PreKeyStoreError = DuplicateKeyId | NotFound | PublicKeyMismatch

  datatype SessionError =
    | WrongProtocolVersion | InvalidBundle(fault: BundleError) | InvalidSignedPrekey | InvalidPeerIdentity
    | InvalidOneTimePrekey | InvalidSharedSecret | KeyDerivation | PreKeyStore(error: PreKeyStoreError)

  datatype Session = Session(root: Key, peerDeviceId: Id, usedOneTimePrekeyId: Option<u32>)

  predicate AllZero(b: Bytes) {
    forall i :: 0 <= i < |b| ==> b[i] == 0
  }

  function RootInfo(initiator: Id, responder: Id, ephemeral: Key): Bytes {
    ToBE(PROTOCOL_VERSION, 2) + ToBE(initiator, 16) + ToBE(responder, 16) + ToBE(ephemeral, 32)
  }

  function DeriveRoot(suite: Suite, ikm: Bytes, initiator: Id, responder: Id, ephemeral: Key): Option<Key> {
    if AllZero(ikm) then None else Some(suite.hkdf(ikm, RootInfo(initiator, responder, ephemeral)))
  }

  function Ikm(dh1: Key, dh2: Key, dh3: Key): Bytes {
    ToBE(dh1, 32) + ToBE(dh2, 32) + ToBE(dh3, 32)
  }

  function FinishSession(suite: Suite, ikm: Bytes, initiator: Id, responder: Id, ephemeral: Key,
                         peer: Id, used: Option<u32>): Result<Session, SessionError> {
    match DeriveRoot(suite, ikm, initiator, responder, ephemeral)
    case None => Err(KeyDerivation)
    case Some(root) => Ok(Session(root, peer, used))
  }

  function Initiate(suite: Suite, ownSecret: Key, ownDeviceId: Id, ephemeralSecret: Key, bundle: PreKeyBundle,
                    record: SignedPrekeyRecord, oneTimePrekey: Option<(u32, Key)>): Result<Session, SessionError> {
    if bundle.protocolVersion != PROTOCOL_VERSION then Err(WrongProtocolVersion)
    else if Fault(bundle).Some? then Err(InvalidBundle(Fault(bundle).value))
    else if !suite.identityOk(bundle.identitySigningKey) then Err(InvalidPeerIdentity)
    else if bundle.identityAgreementKey != record.agreementPublicKey
            || !suite.recordOk(bundle.identitySigningKey, record)
            || record.keyId != bundle.signedPrekeyId || record.publicKey != bundle.signedPrekey
    then Err(InvalidSignedPrekey)
    else
      var dh1 := suite.shared(ownSecret, bundle.signedPrekey);
      var dh2 := suite.shared(ephemeralSecret, bundle.identityAgreementKey);
      var dh3 := suite.shared(ephemeralSecret, bundle.signedPrekey);
      var ephemeral := suite.publicOf(ephemeralSecret);
      if dh1 == 0 || dh2 == 0 || dh3 == 0 then Err(InvalidSharedSecret)
      else
        match oneTimePrekey
        case None =>
          FinishSession(suite, Ikm(dh1, dh2, dh3), ownDeviceId, bundle.deviceId, ephemeral, bundle.deviceId, None)
        case Some((id, public)) =>
          var dh4 := suite.shared(ephemeralSecret, public);
          if OneTimePrekeyPublic(id, public) !in bundle.oneTimePrekeys then Err(InvalidOneTimePrekey)
          else if dh4 == 0 then Err(InvalidSharedSecret)
          else FinishSession(suite, Ikm(dh1, dh2, dh3) + ToBE(dh4, 32), ownDeviceId, bundle.deviceId, ephemeral,
                             bundle.deviceId, Some(id))
  }

  function Respond(suite: Suite, ownSecret: Key, signedPrekeySecret: Key, oneTimePrekey: Option<(u32, Key)>,
                   ownDeviceId: Id, peerDeviceId: Id, peerAgreement: Key, peerEphemeral: Key)
    : Result<Session, SessionError>
  {
    var dh1 := suite.shared(signedPrekeySecret, peerAgreement);
    var dh2 := suite.shared(ownSecret, peerEphemeral);
    var dh3 := suite.shared(signedPrekeySecret, peerEphemeral);
    if dh1 == 0 || dh2 == 0 || dh3 == 0 then Err(InvalidSharedSecret)
    else
      match oneTimePrekey
      case None =>
        FinishSession(suite, Ikm(dh1, dh2, dh3), peerDeviceId, ownDeviceId, peerEphemeral, peerDeviceId, None)
      case Some((id, secret)) =>
        var dh4 := suite.shared(secret, peerEphemeral);
        if dh4 == 0 then Err(InvalidSharedSecret)
        else FinishSession(suite, Ikm(dh1, dh2, dh3) + ToBE(dh4, 32), peerDeviceId, ownDeviceId, peerEphemeral,
                           peerDeviceId, Some(id))
  }

  /** The bundle and record pass every public check and offer the chosen one-time prekey. */
  predicate Offered(suite: Suite, bundle: PreKeyBundle, record: SignedPrekeyRecord, choice: Option<(u32, Key)>) {
    && WellFormed(bundle) && suite.identityOk(bundle.identitySigningKey)
    && bundle.identityAgreementKey == record.agreementPublicKey
    && suite.recordOk(bundle.identitySigningKey, record)
    && record.keyId == bundle.signedPrekeyId && record.publicKey == bundle.signedPrekey
    && (choice.Some? ==> OneTimePrekeyPublic(choice.value.0, choice.value.1) in bundle.oneTimePrekeys)
  }

  function PublicChoice(suite: Suite, secret: Option<(u32, Key)>): Option<(u32, Key)> {
    match secret
    case None => None
    case Some((id, key)) => Some((id, suite.publicOf(key)))
  }

  lemma {:induction false} ZeroBytes(b: Bytes)
    requires AllZero(b)
    ensures FromBE(b) == 0
  {
    if b == [] {
    } else {
      ZeroBytes(b[..|b| - 1]);
    }
  }

  /** A key material buffer that starts with a non-zero secret never trips the all-zero check. */
  lemma IkmNotZero(dh1: Key, dh2: Key, dh3: Key, more: Bytes)
    requires dh1 != 0
    ensures !AllZero(Ikm(dh1, dh2, dh3) + more)
  {
    var b := Ikm(dh1, dh2, dh3) + more;
    if AllZero(b) {
      assert b[..32] == ToBE(dh1, 32);
      ZeroBytes(b[..32]);
      RoundTripKey(dh1);
    }
  }

  /** Responder with secrets `identity`, `prekey` and optionally `oneTime`, initiator with secrets `own` and
      `ephemeral`: with a bundle made from the responder's public keys, the two sides succeed together, with the
      same root and the same one-time prekey id, or both reject a zero shared secret. Nothing else can happen. */
  lemma BothSidesAgree(suite: Suite, own: Key, ownDevice: Id, ephemeral: Key, bundle: PreKeyBundle,
                       record: SignedPrekeyRecord, identity: Key, prekey: Key, oneTime: Option<(u32, Key)>)
    requires Commutes(suite) && Offered(suite, bundle, record, PublicChoice(suite, oneTime))
    requires bundle.identityAgreementKey == suite.publicOf(identity) && bundle.signedPrekey == suite.publicOf(prekey)
    ensures var i := Initiate(suite, own, ownDevice, ephemeral, bundle, record, PublicChoice(suite, oneTime));
            var r := Respond(suite, identity, prekey, oneTime, bundle.deviceId, ownDevice,
                             suite.publicOf(own), suite.publicOf(ephemeral));
            || (i == Err(InvalidSharedSecret) && r == Err(InvalidSharedSecret))
            || (i.Ok? && r.Ok? && i.value.root == r.value.root
                && i.value.usedOneTimePrekeyId == r.value.usedOneTimePrekeyId
                && i.value.peerDeviceId == bundle.deviceId && r.value.peerDeviceId == ownDevice)
  {
    ValidMeansWellFormed(bundle);
    var dh1 := suite.shared(own, suite.publicOf(prekey));
    var dh2 := suite.shared(ephemeral, suite.publicOf(identity));
    var dh3 := suite.shared(ephemeral, suite.publicOf(prekey));
    if dh1 != 0 {
      IkmNotZero(dh1, dh2, dh3, []);
      assert Ikm(dh1, dh2, dh3) + [] == Ikm(dh1, dh2, dh3);
      if oneTime.Some? {
        var dh4 := suite.shared(ephemeral, suite.publicOf(oneTime.value.1));
        IkmNotZero(dh1, dh2, dh3, ToBE(dh4, 32));
      }
    }
  }

  // ----- What the root is -----

  /** The secrets of a handshake: initiator's identity with the signed prekey, ephemeral key with the responder's
      identity, ephemeral key with the signed prekey, and with the one-time prekey if there is one. */
  datatype Secrets = Secrets(dh1: Key, dh2: Key, dh3: Key, dh4: Option<Key>)

  /** The root is HKDF of the secrets, each as 32 bytes in this order, under the protocol version, both device ids and
      the ephemeral public key. */
  predicate IsRoot(suite: Suite, root: Key, x: Secrets, initiator: Id, responder: Id, ephemeral: Key) {
    var secrets := ToBE(x.dh1, 32) + ToBE(x.dh2, 32) + ToBE(x.dh3, 32)
                   + if x.dh4.Some? then ToBE(x.dh4.value, 32) else [];
    var info := [0, 1] + ToBE(initiator, 16) + ToBE(responder, 16) + ToBE(ephemeral, 32);
    root == suite.hkdf(secrets, info)
  }

  predicate NoZero(x: Secrets) {
    x.dh1 != 0 && x.dh2 != 0 && x.dh3 != 0 && x.dh4 != Some(0)
  }

  lemma VersionBytes()
    ensures ToBE(PROTOCOL_VERSION, 2) == [0, 1]
  {
    var b := ToBE(PROTOCOL_VERSION, 2);
    assert b[0] == Digit(1, 1) == 0 && b[1] == Digit(1, 0) == 1;
  }

  lemma FinishMeans(suite: Suite, x: Secrets, initiator: Id, responder: Id, ephemeral: Key, peer: Id, used: Option<u32>)
    requires x.dh1 != 0
    ensures var r := FinishSession(suite, Ikm(x.dh1, x.dh2, x.dh3) + if x.dh4.Some? then ToBE(x.dh4.value, 32) else [],
                                   initiator, responder, ephemeral, peer, used);
            r.Ok? && IsRoot(suite, r.value.root, x, initiator, responder, ephemeral)
            && r.value.peerDeviceId == peer && r.value.usedOneTimePrekeyId == used
  {
    VersionBytes();
    IkmNotZero(x.dh1, x.dh2, x.dh3, if x.dh4.Some? then ToBE(x.dh4.value, 32) else []);
    hide AllZero, ToBE;
  }

  function InitiatorSecrets(suite: Suite, own: Key, ephemeral: Key, bundle: PreKeyBundle, choice: Option<(u32, Key)>)
    : Secrets
  {
    Secrets(suite.shared(own, bundle.signedPrekey), suite.shared(ephemeral, bundle.identityAgreementKey),
            suite.shared(ephemeral, bundle.signedPrekey),
            if choice.Some? then Some(suite.shared(ephemeral, choice.value.1)) else None)
  }

  function ResponderSecrets(suite: Suite, own: Key, prekey: Key, oneTime: Option<(u32, Key)>, peerAgreement: Key,
                            peerEphemeral: Key): Secrets {
    Secrets(suite.shared(prekey, peerAgreement), suite.shared(own, peerEphemeral), suite.shared(prekey, peerEphemeral),
            if oneTime.Some? then Some(suite.shared(oneTime.value.1, peerEphemeral)) else None)
  }

  function IdOf(choice: Option<(u32, Key)>): Option<u32> {
    if choice.Some? then Some(choice.value.0) else None
  }

  /** An initiator succeeds exactly when the bundle and record pass every check, offer the chosen one-time prekey, and
      no shared secret is zero; the root is then HKDF of its secrets. */
  lemma InitiateSucceedsExactlyWhen(suite: Suite, own: Key, device: Id, ephemeral: Key, bundle: PreKeyBundle,
                                    record: SignedPrekeyRecord, choice: Option<(u32, Key)>)
    ensures var r := Initiate(suite, own, device, ephemeral, bundle, record, choice);
            var x := InitiatorSecrets(suite, own, ephemeral, bundle, choice);
            && (r.Ok? <==> Offered(suite, bundle, record, choice) && NoZero(x))
            && (r.Ok? ==> IsRoot(suite, r.value.root, x, device, bundle.deviceId, suite.publicOf(ephemeral))
                          && r.value.peerDeviceId == bundle.deviceId && r.value.usedOneTimePrekeyId == IdOf(choice))
  {
    ValidMeansWellFormed(bundle);
    var x := InitiatorSecrets(suite, own, ephemeral, bundle, choice);
    hide IsRoot, FinishSession, Fault, DistinctIds;
    if x.dh1 != 0 {
      FinishMeans(suite, x, device, bundle.deviceId, suite.publicOf(ephemeral), bundle.deviceId, IdOf(choice));
      assert Ikm(x.dh1, x.dh2, x.dh3) + [] == Ikm(x.dh1, x.dh2, x.dh3);
    }
  }

  /** A responder succeeds exactly when no shared secret is zero; the root is then HKDF of its secrets. */
  lemma RespondSucceedsExactlyWhen(suite: Suite, own: Key, prekey: Key, oneTime: Option<(u32, Key)>, device: Id,
                                   peer: Id, peerAgreement: Key, peerEphemeral: Key)
    ensures var r := Respond(suite, own, prekey, oneTime, device, peer, peerAgreement, peerEphemeral);
            var x := ResponderSecrets(suite, own, prekey, oneTime, peerAgreement, peerEphemeral);
            && (if NoZero(x) then r.Ok? else r == Err(InvalidSharedSecret))
            && (r.Ok? ==> IsRoot(suite, r.value.root, x, peer, device, peerEphemeral)
                          && r.value.peerDeviceId == peer && r.value.usedOneTimePrekeyId == IdOf(oneTime))
  {
    var x := ResponderSecrets(suite, own, prekey, oneTime, peerAgreement, peerEphemeral);
    hide IsRoot, FinishSession;
    if x.dh1 != 0 {
      FinishMeans(suite, x, peer, device, peerEphemeral, peer, IdOf(oneTime));
      assert Ikm(x.dh1, x.dh2, x.dh3) + [] == Ikm(x.dh1, x.dh2, x.dh3);
    }
  }

  ghost predicate CollisionFree(suite: Suite) {
    forall a, b, c, d {:trigger suite.hkdf(a, b), suite.hkdf(c, d)} ::
      suite.hkdf(a, b) == suite.hkdf(c, d) ==> a == c && b == d
  }

  lemma SecretBytesBind(x: Secrets, y: Secrets)
    requires ToBE(x.dh1, 32) + ToBE(x.dh2, 32) + ToBE(x.dh3, 32) + (if x.dh4.Some? then ToBE(x.dh4.value, 32) else [])
          == ToBE(y.dh1, 32) + ToBE(y.dh2, 32) + ToBE(y.dh3, 32) + (if y.dh4.Some? then ToBE(y.dh4.value, 32) else [])
    ensures x == y
  {
    forall z: Secrets | z == x || z == y
      ensures var b := ToBE(z.dh1, 32) + ToBE(z.dh2, 32) + ToBE(z.dh3, 32)
                       + if z.dh4.Some? then ToBE(z.dh4.value, 32) else [];
              && ReadKey(b[..32]) == z.dh1 && ReadKey(b[32..64]) == z.dh2 && ReadKey(b[64..96]) == z.dh3
              && |b| == (if z.dh4.Some? then 128 else 96)
              && (z.dh4.Some? ==> ReadKey(b[96..]) == z.dh4.value)
    {
      var b := ToBE(z.dh1, 32) + ToBE(z.dh2, 32) + ToBE(z.dh3, 32) + if z.dh4.Some? then ToBE(z.dh4.value, 32) else [];
      assert b[..32] == ToBE(z.dh1, 32) && b[32..64] == ToBE(z.dh2, 32) && b[64..96] == ToBE(z.dh3, 32);
      assert z.dh4.Some? ==> b[96..] == ToBE(z.dh4.value, 32);
      RoundTripKey(z.dh1);
      RoundTripKey(z.dh2);
      RoundTripKey(z.dh3);
      if z.dh4.Some? { RoundTripKey(z.dh4.value); }
    }
  }

  lemma InfoBytesBind(i: Id, r: Id, e: Key, i': Id, r': Id, e': Key)
    requires [0, 1] + ToBE(i, 16) + ToBE(r, 16) + ToBE(e, 32) == [0, 1] + ToBE(i', 16) + ToBE(r', 16) + ToBE(e', 32)
    ensures i == i' && r == r' && e == e'
  {
    var b, c := [0, 1] + ToBE(i, 16) + ToBE(r, 16) + ToBE(e, 32), [0, 1] + ToBE(i', 16) + ToBE(r', 16) + ToBE(e', 32);
    assert b[2..18] == ToBE(i, 16) && b[18..34] == ToBE(r, 16) && b[34..] == ToBE(e, 32);
    assert c[2..18] == ToBE(i', 16) && c[18..34] == ToBE(r', 16) && c[34..] == ToBE(e', 32);
    RoundTripId(i);
    RoundTripId(i');
    RoundTripId(r);
    RoundTripId(r');
    RoundTripKey(e);
    RoundTripKey(e');
  }

  /** With a collision-free HKDF, equal roots mean the same handshake: the same secrets, the same two devices in the
      same roles, and the same ephemeral key. */
  lemma RootBindsTheHandshake(suite: Suite, root: Key, x: Secrets, initiator: Id, responder: Id, ephemeral: Key,
                              y: Secrets, initiator': Id, responder': Id, ephemeral': Key)
    requires CollisionFree(suite)
    requires IsRoot(suite, root, x, initiator, responder, ephemeral)
    ensures IsRoot(suite, root, y, initiator', responder', ephemeral') <==>
            x == y && initiator == initiator' && responder == responder' && ephemeral == ephemeral'
  {
    if IsRoot(suite, root, y, initiator', responder', ephemeral') {
      SecretBytesBind(x, y);
      InfoBytesBind(initiator, responder, ephemeral, initiator', responder', ephemeral');
    }
  }

  // ----- The store of one-time prekeys -----

  datatype OneTimePrekey = OneTimePrekey(keyId: u32, secret: Key)

  datatype Call = Call(
    ownSecret: Key, signedPrekeySecret: Key, choice: Option<(u32, Key)>,
    ownDeviceId: Id, peerDeviceId: Id, peerAgreement: Key, peerEphemeral: Key)

  function RespondUsing(suite: Suite, c: Call, oneTimePrekey: Option<(u32, Key)>): Result<Session, SessionError> {
    Respond(suite, c.ownSecret, c.signedPrekeySecret, oneTimePrekey, c.ownDeviceId, c.peerDeviceId,
            c.peerAgreement, c.peerEphemeral)
  }

  /** The responder entry point: the one-time prekey leaves the store only with a successful session. */
  function Responded(suite: Suite, keys: map<u32, OneTimePrekey>, c: Call)
    : (map<u32, OneTimePrekey>, Result<Session, SessionError>)
  {
    match c.choice
    case None => (keys, RespondUsing(suite, c, None))
    case Some((id, public)) =>
      if id !in keys then (keys, Err(PreKeyStore(NotFound)))
      else if suite.publicOf(keys[id].secret) != public then (keys, Err(PreKeyStore(PublicKeyMismatch)))
      else
        var r := RespondUsing(suite, c, Some((id, keys[id].secret)));
        (if r.Ok? then keys - {id} else keys, r)
  }

  function Matched(suite: Suite, keys: map<u32, OneTimePrekey>, keyId: u32, expectedPublic: Key)
    : (map<u32, OneTimePrekey>, Result<OneTimePrekey, PreKeyStoreError>)
  {
    if keyId !in keys then (keys, Err(NotFound))
    else if suite.publicOf(keys[keyId].secret) != expectedPublic then (keys, Err(PublicKeyMismatch))
    else (keys - {keyId}, Ok(keys[keyId]))
  }

  class OneTimePrekeyStore {
    var keys: map<u32, OneTimePrekey>

    constructor ()
      ensures keys == map[]
    {
      keys := map[];
    }

    method Insert(key: OneTimePrekey) returns (ok: bool)
      modifies this
      ensures ok == (key.keyId !in old(keys))
      ensures keys == if ok then old(keys)[key.keyId := key] else old(keys)
    {
      if key.keyId in keys { return false; }
      keys := keys[key.keyId := key];
      ok := true;
    }

    method Take(keyId: u32) returns (r: Result<OneTimePrekey, PreKeyStoreError>)
      modifies this
      ensures r == if keyId in old(keys) then Ok(old(keys)[keyId]) else Err(NotFound)
      ensures keys == old(keys) - {keyId}
    {
      if keyId !in keys {
        assert keys - {keyId} == keys;
        return Err(NotFound);
      }
      r := Ok(keys[keyId]);
      keys := keys - {keyId};
    }

    method TakeMatching(suite: Suite, keyId: u32, expectedPublic: Key)
      returns (r: Result<OneTimePrekey, PreKeyStoreError>)
      modifies this
      ensures (keys, r) == Matched(suite, old(keys), keyId, expectedPublic)
    {
      if keyId !in keys { return Err(NotFound); }
      var key := keys[keyId];
      if suite.publicOf(key.secret) != expectedPublic { return Err(PublicKeyMismatch); }
      keys := keys - {keyId};
      r := Ok(key);
    }

    method RespondWithStore(suite: Suite, c: Call) returns (r: Result<Session, SessionError>)
      modifies this
      ensures (keys, r) == Responded(suite, old(keys), c)
    {
      if c.choice.None? {
        return RespondUsing(suite, c, None);
      }
      var (id, public) := c.choice.value;
      if id !in keys { return Err(PreKeyStore(NotFound)); }
      var key := keys[id];
      if suite.publicOf(key.secret) != public { return Err(PreKeyStore(PublicKeyMismatch)); }
      r := RespondUsing(suite, c, Some((id, key.secret)));
      if r.Ok? {
        keys := keys - {id};
      }
    }
  }

  /** The responder's entry point succeeds exactly when the chosen one-time prekey, if any, is stored and is the key
      that was chosen, and no shared secret is zero. The key leaves the store then, and only then. */
  lemma RespondedExactlyWhen(suite: Suite, keys: map<u32, OneTimePrekey>, c: Call)
    ensures var (keys', r) := Responded(suite, keys, c);
            var (id, public) := if c.choice.Some? then c.choice.value else (0, 0);
            var held := c.choice.Some? ==> id in keys && suite.publicOf(keys[id].secret) == public;
            var oneTime := if c.choice.Some? && id in keys then Some((id, keys[id].secret)) else None;
            var x := ResponderSecrets(suite, c.ownSecret, c.signedPrekeySecret, oneTime, c.peerAgreement,
                                      c.peerEphemeral);
            && (r.Ok? <==> held && NoZero(x))
            && (r.Ok? ==> IsRoot(suite, r.value.root, x, c.peerDeviceId, c.ownDeviceId, c.peerEphemeral))
            && keys' == (if r.Ok? && c.choice.Some? then keys - {id} else keys)
  {
    hide Respond, IsRoot, NoZero, ResponderSecrets;
    var id := if c.choice.Some? then c.choice.value.0 else 0;
    var oneTime := if c.choice.Some? && id in keys then Some((id, keys[id].secret)) else None;
    RespondSucceedsExactlyWhen(suite, c.ownSecret, c.signedPrekeySecret, oneTime, c.ownDeviceId, c.peerDeviceId,
                               c.peerAgreement, c.peerEphemeral);
  }

  // ----- Runs of the store -----

  datatype Op =
    | Insert(key: OneTimePrekey)
    | Take(keyId: u32)
    | TakeMatching(keyId: u32, expectedPublic: Key)
    | Establish(call: Call)

  function After(suite: Suite, keys: map<u32, OneTimePrekey>, op: Op): map<u32, OneTimePrekey> {
    match op
    case Insert(key) => if key.keyId in keys then keys else keys[key.keyId := key]
    case Take(keyId) => keys - {keyId}
    case TakeMatching(keyId, public) => Matched(suite, keys, keyId, public).0
    case Establish(call) => Responded(suite, keys, call).0
  }

  function Run(suite: Suite, ops: seq<Op>): map<u32, OneTimePrekey> {
    if ops == [] then map[] else After(suite, Run(suite, ops[..|ops| - 1]), ops[|ops| - 1])
  }

  predicate StoresKey(keys: map<u32, OneTimePrekey>, op: Op, id: u32) {
    op.Insert? && op.key.keyId == id && id !in keys
  }

  predicate EstablishesWith(suite: Suite, keys: map<u32, OneTimePrekey>, op: Op, id: u32) {
    op.Establish? && Responded(suite, keys, op.call).1.Ok?
    && Responded(suite, keys, op.call).1.value.usedOneTimePrekeyId == Some(id)
  }

  /** The call hands the key out of the store. */
  predicate TakesKey(suite: Suite, keys: map<u32, OneTimePrekey>, op: Op, id: u32) {
    || (op == Take(id) && id in keys)
    || (op.TakeMatching? && op.keyId == id && Matched(suite, keys, id, op.expectedPublic).1.Ok?)
  }

  function Stored(suite: Suite, ops: seq<Op>, id: u32): nat {
    if ops == [] then 0
    else Stored(suite, ops[..|ops| - 1], id)
         + if StoresKey(Run(suite, ops[..|ops| - 1]), ops[|ops| - 1], id) then 1 else 0
  }

  function Established(suite: Suite, ops: seq<Op>, id: u32): nat {
    if ops == [] then 0
    else Established(suite, ops[..|ops| - 1], id)
         + if EstablishesWith(suite, Run(suite, ops[..|ops| - 1]), ops[|ops| - 1], id) then 1 else 0
  }

  function Taken(suite: Suite, ops: seq<Op>, id: u32): nat {
    if ops == [] then 0
    else Taken(suite, ops[..|ops| - 1], id)
         + if TakesKey(suite, Run(suite, ops[..|ops| - 1]), ops[|ops| - 1], id) then 1 else 0
  }

  lemma UsedIdIsChosen(suite: Suite, keys: map<u32, OneTimePrekey>, c: Call)
    ensures var (keys', r) := Responded(suite, keys, c);
            && (r.Ok? ==> r.value.usedOneTimePrekeyId == if c.choice.None? then None else Some(c.choice.value.0))
            && keys' == (if r.Ok? && c.choice.Some? then keys - {c.choice.value.0} else keys)
            && (r.Ok? && c.choice.Some? ==> c.choice.value.0 in keys)
  {
    hide AllZero, RootInfo, Ikm;
  }

  /** Each stored key is used up by exactly one successful establishment, or handed out once, and by nothing that
      fails: at every point the times a key id was stored are the times a session was established with it, plus the
      times it was taken, plus one if it is still held. */
  lemma {:induction false} EachKeyEstablishesOnce(suite: Suite, ops: seq<Op>, id: u32)
    ensures Stored(suite, ops, id)
            == Established(suite, ops, id) + Taken(suite, ops, id) + if id in Run(suite, ops) then 1 else 0
  {
    if ops == [] {
    } else {
      hide Responded;
      var front, last := ops[..|ops| - 1], ops[|ops| - 1];
      EachKeyEstablishesOnce(suite, front, id);
      if last.Establish? {
        UsedIdIsChosen(suite, Run(suite, front), last.call);
      }
    }
  }

  /** A key that is held is the one that was stored under its id. */
  lemma {:induction false} HeldKeyWasStored(suite: Suite, ops: seq<Op>, id: u32)
    requires id in Run(suite, ops)
    ensures Run(suite, ops)[id].keyId == id && Insert(Run(suite, ops)[id]) in ops
  {
    var front, last := ops[..|ops| - 1], ops[|ops| - 1];
    if last.Establish? {
      UsedIdIsChosen(suite, Run(suite, front), last.call);
    }
    hide Responded;
    assert forall op :: op in front ==> op in ops;
    if id in Run(suite, front) {
      HeldKeyWasStored(suite, front, id);
    } else {
      assert last in ops;
    }
  }

  /** With no new key stored under the id in between, a second establishment with the same key is refused. */
  lemma UsedKeyIsGone(suite: Suite, before: seq<Op>, first: Call, between: seq<Op>, second: Call)
    requires first.choice.Some? && second.choice.Some? && first.choice.value.0 == second.choice.value.0
    requires Responded(suite, Run(suite, before), first).1.Ok?
    requires forall i :: 0 <= i < |between| && between[i].Insert? ==> between[i].key.keyId != first.choice.value.0
    ensures Responded(suite, Run(suite, before + [Establish(first)] + between), second).1 == Err(PreKeyStore(NotFound))
  {
    KeyStaysGone(suite, before, first, between);
  }

  lemma {:induction false} KeyStaysGone(suite: Suite, before: seq<Op>, first: Call, between: seq<Op>)
    requires first.choice.Some? && Responded(suite, Run(suite, before), first).1.Ok?
    requires forall i :: 0 <= i < |between| && between[i].Insert? ==> between[i].key.keyId != first.choice.value.0
    ensures first.choice.value.0 !in Run(suite, before + [Establish(first)] + between)
  {
    hide Responded;
    var start := before + [Establish(first)];
    if between == [] {
      assert start + [] == start && start[..|before|] == before;
      UsedIdIsChosen(suite, Run(suite, before), first);
    } else {
      var front, last := between[..|between| - 1], between[|between| - 1];
      forall i | 0 <= i < |front| && front[i].Insert? ensures front[i].key.keyId != first.choice.value.0 {
        assert front[i] == between[i];
      }
      KeyStaysGone(suite, before, first, front);
      var all := start + between;
      assert all[..|all| - 1] == start + front;
      if last.Establish? {
        UsedIdIsChosen(suite, Run(suite, start + front), last.call);
      }
    }
  }
}
