/** Prekey bundles and their public checks (core/protocol/src/lib.rs). */
module Bundle {
  import opened Prelude
  import opened Protocol

  const MAX_ONE_TIME_PREKEYS: nat := 1024

  datatype OneTimePrekeyPublic = OneTimePrekeyPublic(keyId: u32, publicKey: Key)

  datatype PreKeyBundle = PreKeyBundle(
    protocolVersion: u16,
    deviceId: Id,
    identitySigningKey: Key,
    identityAgreementKey: Key,
    signedPrekeyId: u32,
    signedPrekey: Key,
    signedPrekeySignature: Bytes,
    oneTimePrekeys: seq<OneTimePrekeyPublic>)

  datatype BundleError =
    | WrongVersion | ZeroDeviceId | ZeroIdentityKey | ZeroAgreementKey | ZeroSignedPrekey
    | TooManyOneTimePrekeys | DuplicateOneTimePrekeyId | ZeroOneTimePrekey

  /** The first fault among the keys from position `i` on; `seen` holds the ids before it. */
  function KeyFault(keys: seq<OneTimePrekeyPublic>, i: nat, seen: set<u32>): Option<BundleError>
    requires i <= |keys|
    decreases |keys| - i
  {
    if i == |keys| then None
    else if keys[i].publicKey == 0 then Some(ZeroOneTimePrekey)
    else if keys[i].keyId in seen then Some(DuplicateOneTimePrekeyId)
    else KeyFault(keys, i + 1, seen + {keys[i].keyId})
  }

  function Fault(b: PreKeyBundle): Option<BundleError> {
    if b.protocolVersion != PROTOCOL_VERSION then Some(WrongVersion)
    else if b.deviceId == 0 then Some(ZeroDeviceId)
    else if b.identitySigningKey == 0 then Some(ZeroIdentityKey)
    else if b.identityAgreementKey == 0 then Some(ZeroAgreementKey)
    else if b.signedPrekey == 0 then Some(ZeroSignedPrekey)
    else if |b.oneTimePrekeys| > MAX_ONE_TIME_PREKEYS then Some(TooManyOneTimePrekeys)
    else KeyFault(b.oneTimePrekeys, 0, {})
  }

  method Validate(b: PreKeyBundle) returns (fault: Option<BundleError>)
    ensures fault == Fault(b)
  {
    if b.protocolVersion != PROTOCOL_VERSION { return Some(WrongVersion); }
    if b.deviceId == 0 { return Some(ZeroDeviceId); }
    if b.identitySigningKey == 0 { return Some(ZeroIdentityKey); }
    if b.identityAgreementKey == 0 { return Some(ZeroAgreementKey); }
    if b.signedPrekey == 0 { return Some(ZeroSignedPrekey); }
    if |b.oneTimePrekeys| > MAX_ONE_TIME_PREKEYS { return Some(TooManyOneTimePrekeys); }
    var ids: set<u32> := {};
    for i := 0 to |b.oneTimePrekeys|
      invariant KeyFault(b.oneTimePrekeys, 0, {}) == KeyFault(b.oneTimePrekeys, i, ids)
    {
      var key := b.oneTimePrekeys[i];
      if key.publicKey == 0 { return Some(ZeroOneTimePrekey); }
      if key.keyId in ids { return Some(DuplicateOneTimePrekeyId); }
      ids := ids + {key.keyId};
    }
    fault := None;
  }

  predicate DistinctIds(keys: seq<OneTimePrekeyPublic>) {
    forall i, j :: 0 <= i < j < |keys| ==> keys[i].keyId != keys[j].keyId
  }

  predicate WellFormed(b: PreKeyBundle) {
    && b.protocolVersion == PROTOCOL_VERSION
    && b.deviceId != 0 && b.identitySigningKey != 0 && b.identityAgreementKey != 0 && b.signedPrekey != 0
    && |b.oneTimePrekeys| <= MAX_ONE_TIME_PREKEYS
    && (forall i :: 0 <= i < |b.oneTimePrekeys| ==> b.oneTimePrekeys[i].publicKey != 0)
    && DistinctIds(b.oneTimePrekeys)
  }

  lemma {:induction false} NoKeyFault(keys: seq<OneTimePrekeyPublic>, i: nat, seen: set<u32>)
    requires i <= |keys|
    requires forall id :: id in seen <==> exists j :: 0 <= j < i && keys[j].keyId == id
    ensures KeyFault(keys, i, seen).None? <==>
            && (forall j :: i <= j < |keys| ==> keys[j].publicKey != 0)
            && (forall j, k :: 0 <= j < k < |keys| && i <= k ==> keys[j].keyId != keys[k].keyId)
    decreases |keys| - i
  {
    if i == |keys| {
    } else if keys[i].publicKey != 0 && keys[i].keyId !in seen {
      NoKeyFault(keys, i + 1, seen + {keys[i].keyId});
    }
  }

  /** The checks accept exactly the well-formed bundles. */
  lemma ValidMeansWellFormed(b: PreKeyBundle)
    ensures Fault(b).None? <==> WellFormed(b)
  {
    NoKeyFault(b.oneTimePrekeys, 0, {});
  }

  function FindKey(keys: seq<OneTimePrekeyPublic>, id: u32): Option<Key> {
    if keys == [] then None
    else if keys[0].keyId == id then Some(keys[0].publicKey)
    else FindKey(keys[1..], id)
  }

  /** With distinct ids, the key found under an id is the only one there. */
  lemma {:induction false} FoundKeyIsUnique(keys: seq<OneTimePrekeyPublic>, id: u32, i: nat)
    requires DistinctIds(keys) && i < |keys| && keys[i].keyId == id
    ensures FindKey(keys, id) == Some(keys[i].publicKey)
  {
    if keys[0].keyId == id {
      assert i == 0;
    } else {
      FoundKeyIsUnique(keys[1..], id, i - 1);
    }
  }
}
