/** The prekey registry of the gateway (backend/src/prekeys.rs). */
module Prekeys {
  import opened Prelude
  import opened Protocol
  import opened Bundle

  const MAX_LIFETIME_MS: u64 := 30 * 24 * 60 * 60 * 1000
  const MAX_CLOCK_SKEW_MS: u64 := 5 * 60 * 1000

  datatype Publication = Publication(
    bundle: PreKeyBundle, generation: u64, issuedAtMs: u64, expiresAtMs: u64, signature: Bytes)

  datatype PublicationError =
    | InvalidBundle | InvalidVersion | InvalidTime | Expired | TooLong | InvalidSignature
    | WrongDevice | StaleGeneration | NotFound | AlreadyRevoked | AlreadyClaimed | InvalidRequest

  /** The two signature checks, as parameters. */
  datatype Verifier = Verifier(publication: Publication -> bool, signedPrekey: PreKeyBundle -> bool)

  function Refusal(v: Verifier, p: Publication, expectedDevice: Id, now: u64): Option<PublicationError> {
    if Fault(p.bundle).Some? then Some(InvalidBundle)
    else if p.bundle.protocolVersion != PROTOCOL_VERSION then Some(PublicationError.InvalidVersion)
    else if p.bundle.deviceId != expectedDevice then Some(WrongDevice)
    else if p.issuedAtMs > SatAdd(now, MAX_CLOCK_SKEW_MS) || p.expiresAtMs <= p.issuedAtMs then Some(InvalidTime)
    else if SatSub(p.expiresAtMs, p.issuedAtMs) > MAX_LIFETIME_MS then Some(TooLong)
    else if p.expiresAtMs <= now then Some(Expired)
    else if !v.publication(p) || !v.signedPrekey(p.bundle) then Some(InvalidSignature)
    else None
  }

  datatype OpkClaim = OpkClaim(
    requestId: Id, claimant: Id, recipient: Id, generation: u64, keyId: u32, publicKey: Key)

  datatype ClaimKey = ClaimKey(device: Id, generation: u64, keyId: u32)

  datatype RequestKey = RequestKey(claimant: Id, requestId: Id)

  datatype Registry = Registry(
    publications: map<Id, Publication>,
    revoked: map<Id, u64>,
    claims: map<ClaimKey, OpkClaim>,
    requests: map<RequestKey, ClaimKey>)

  const EMPTY: Registry := Registry(map[], map[], map[], map[])

  datatype Op =
    | Publish(expectedDevice: Id, publication: Publication, now: u64)
    | Revoke(device: Id, generation: u64, now: u64)
    | GetActive(device: Id, now: u64)
    | Claim(recipient: Id, generation: u64, keyId: u32, claimant: Id, requestId: Id, now: u64)

  datatype Answer =
    | Done
    | Active(found: Option<Publication>)
    | Claimed(claim: OpkClaim)
    | Failed(error: PublicationError)

  function AfterPublish(v: Verifier, s: Registry, expectedDevice: Id, p: Publication, now: u64): (Registry, Answer) {
    var d := p.bundle.deviceId;
    if Refusal(v, p, expectedDevice, now).Some? then (s, Failed(Refusal(v, p, expectedDevice, now).value))
    else if d in s.revoked then (s, Failed(AlreadyRevoked))
    else if d in s.publications && p.generation <= s.publications[d].generation then (s, Failed(StaleGeneration))
    else (Registry(s.publications[d := p], s.revoked, s.claims, s.requests), Done)
  }

  function AfterRevoke(s: Registry, d: Id, generation: u64, now: u64): (Registry, Answer) {
    if d !in s.publications then (s, Failed(NotFound))
    else if s.publications[d].generation != generation then (s, Failed(StaleGeneration))
    else if d in s.revoked then (s, Failed(AlreadyRevoked))
    else (Registry(s.publications, s.revoked[d := now], s.claims, s.requests), Done)
  }

  function ActiveAt(s: Registry, d: Id, now: u64): Option<Publication> {
    if d in s.revoked || d !in s.publications || s.publications[d].expiresAtMs <= now then None
    else Some(s.publications[d])
  }

  function AfterClaim(s: Registry, recipient: Id, generation: u64, keyId: u32, claimant: Id, requestId: Id, now: u64)
    : (Registry, Answer)
  {
    var ck, rk := ClaimKey(recipient, generation, keyId), RequestKey(claimant, requestId);
    if requestId == 0 then (s, Failed(InvalidRequest))
    else if recipient in s.revoked || recipient !in s.publications then (s, Failed(NotFound))
    else if s.publications[recipient].expiresAtMs <= now then (s, Failed(NotFound))
    else if s.publications[recipient].generation != generation then (s, Failed(StaleGeneration))
    else if ck in s.claims then
      if s.claims[ck].claimant == claimant && s.claims[ck].requestId == requestId then (s, Claimed(s.claims[ck]))
      else (s, Failed(AlreadyClaimed))
    else if rk in s.requests then (s, Failed(InvalidRequest))
    else
      match FindKey(s.publications[recipient].bundle.oneTimePrekeys, keyId)
      case None => (s, Failed(NotFound))
      case Some(key) =>
        var c := OpkClaim(requestId, claimant, recipient, generation, keyId, key);
        (Registry(s.publications, s.revoked, s.claims[ck := c], s.requests[rk := ck]), Claimed(c))
  }

  function Applied(v: Verifier, s: Registry, op: Op): (Registry, Answer) {
    match op
    case Publish(d, p, now) => AfterPublish(v, s, d, p, now)
    case Revoke(d, g, now) => AfterRevoke(s, d, g, now)
    case GetActive(d, now) => (s, Active(ActiveAt(s, d, now)))
    case Claim(d, g, k, c, r, now) => AfterClaim(s, d, g, k, c, r, now)
  }

  class PreKeyRegistry {
    const verifier: Verifier
    var publications: map<Id, Publication>
    var revoked: map<Id, u64>
    var claims: map<ClaimKey, OpkClaim>
    var requests: map<RequestKey, ClaimKey>

    function Value(): Registry
      reads this
    {
      Registry(publications, revoked, claims, requests)
    }

    constructor (verifier: Verifier)
      ensures this.verifier == verifier && Value() == EMPTY
    {
      this.verifier := verifier;
      publications, revoked, claims, requests := map[], map[], map[], map[];
    }

    method Publish(expectedDevice: Id, publication: Publication, now: u64) returns (r: Answer)
      modifies this`publications
      ensures (Value(), r) == Applied(verifier, old(Value()), Op.Publish(expectedDevice, publication, now))
    {
      var device := publication.bundle.deviceId;
      var fault := Validate(publication.bundle);
      if fault.Some? { return Failed(InvalidBundle); }
      var refusal := Refusal(verifier, publication, expectedDevice, now);
      if refusal.Some? { return Failed(refusal.value); }
      if device in revoked { return Failed(AlreadyRevoked); }
      if device in publications && publication.generation <= publications[device].generation {
        return Failed(StaleGeneration);
      }
      publications := publications[device := publication];
      r := Done;
    }

    method Revoke(device: Id, generation: u64, now: u64) returns (r: Answer)
      modifies this`revoked
      ensures (Value(), r) == Applied(verifier, old(Value()), Op.Revoke(device, generation, now))
    {
      if device !in publications { return Failed(NotFound); }
      if publications[device].generation != generation { return Failed(StaleGeneration); }
      if device in revoked { return Failed(AlreadyRevoked); }
      revoked := revoked[device := now];
      r := Done;
    }

    method GetActive(device: Id, now: u64) returns (r: Answer)
      ensures (Value(), r) == Applied(verifier, Value(), Op.GetActive(device, now))
    {
      if device in revoked { return Active(None); }
      if device !in publications { return Active(None); }
      if publications[device].expiresAtMs > now { return Active(Some(publications[device])); }
      r := Active(None);
    }

    method ClaimOpk(recipient: Id, generation: u64, keyId: u32, claimant: Id, requestId: Id, now: u64)
      returns (r: Answer)
      modifies this`claims, this`requests
      ensures (Value(), r)
              == Applied(verifier, old(Value()), Claim(recipient, generation, keyId, claimant, requestId, now))
    {
      if requestId == 0 { return Failed(InvalidRequest); }
      if recipient in revoked { return Failed(NotFound); }
      if recipient !in publications { return Failed(NotFound); }
      var publication := publications[recipient];
      if publication.expiresAtMs <= now { return Failed(NotFound); }
      if publication.generation != generation { return Failed(StaleGeneration); }
      var claimKey := ClaimKey(recipient, generation, keyId);
      if claimKey in claims {
        var existing := claims[claimKey];
        if existing.claimant == claimant && existing.requestId == requestId { return Claimed(existing); }
        return Failed(AlreadyClaimed);
      }
      var requestKey := RequestKey(claimant, requestId);
      if requestKey in requests { return Failed(InvalidRequest); }
      var found := FindKey(publication.bundle.oneTimePrekeys, keyId);
      if found.None? { return Failed(NotFound); }
      var claim := OpkClaim(requestId, claimant, recipient, generation, keyId, found.value);
      claims := claims[claimKey := claim];
      requests := requests[requestKey := claimKey];
      r := Claimed(claim);
    }
  }
}
