/** Request authentication: signatures, replay window and rate limit (backend/src/auth.rs). */
module Auth {
  import opened Prelude
  import opened BigEndian
  import opened Sums

  const MAX_CLOCK_SKEW_MS: u64 := 5 * 60 * 1000
  const NONCE_TTL: nat := 5 * 60 * 1000
  const MAX_NONCES_PER_DEVICE: nat := 1024
  const RATE_WINDOW: nat := 60 * 1000
  const RATE_LIMIT_PER_DEVICE: nat := 120

  datatype AuthError = InvalidHeader | InvalidTimestamp | InvalidDevice | InvalidSignature | Replay | RateLimited

  /** A request whose headers have been parsed. */
  datatype Request = Request(
    httpMethod: Bytes, path: Bytes, body: Bytes,
    deviceId: Id, publicKey: Key, timestampMs: u64, nonce: Id, signature: Bytes)

  /** SHA-256 and Ed25519, as parameters. */
  datatype Primitives = Primitives(
    deviceOf: Key -> Id,
    hash: Bytes -> Key,
    keyIsValid: Key -> bool,
    verify: (Key, Bytes, Bytes) -> bool)

  const DOMAIN: Bytes := [77, 47, 114, 101, 108, 97, 121, 45, 97, 117, 116, 104, 47, 118, 49]  // "M/relay-auth/v1"

  /** The signed bytes. The two length fields keep only the low 16 and 32 bits, as the casts do. */
  function SigningBytes(p: Primitives, q: Request): Bytes {
    DOMAIN + ToBE(|q.httpMethod|, 2) + q.httpMethod + ToBE(|q.path|, 4) + q.path
    + ToBE(q.deviceId, 16) + ToBE(q.publicKey, 32) + ToBE(q.timestampMs, 8) + ToBE(q.nonce, 16)
    + ToBE(p.hash(q.body), 32)
  }

  function SigningTail(p: Primitives, q: Request): Bytes {
    ToBE(q.deviceId, 16) + ToBE(q.publicKey, 32) + ToBE(q.timestampMs, 8) + ToBE(q.nonce, 16)
    + ToBE(p.hash(q.body), 32)
  }

  lemma SigningFields(p: Primitives, q: Request)
    ensures var b, m, n := SigningBytes(p, q), |q.httpMethod|, |q.path|;
            && |b| == 125 + m + n
            && b[..15] == [77, 47, 114, 101, 108, 97, 121, 45, 97, 117, 116, 104, 47, 118, 49]  // "M/relay-auth/v1"
            && b[15..17] == ToBE(m, 2) && b[17..17 + m] == q.httpMethod
            && b[17 + m..21 + m] == ToBE(n, 4) && b[21 + m..21 + m + n] == q.path
            && b[21 + m + n..] == SigningTail(p, q)
  {
    var b, m, n := SigningBytes(p, q), |q.httpMethod|, |q.path|;
    assert b == DOMAIN + ToBE(m, 2) + q.httpMethod + ToBE(n, 4) + q.path + SigningTail(p, q);
  }

  lemma TailBinds(p: Primitives, q: Request, r: Request)
    requires SigningTail(p, q) == SigningTail(p, r)
    ensures q.deviceId == r.deviceId && q.publicKey == r.publicKey && q.timestampMs == r.timestampMs
    ensures q.nonce == r.nonce && p.hash(q.body) == p.hash(r.body)
  {
    forall x: Request | x == q || x == r
      ensures var t := SigningTail(p, x);
              && ReadId(t[..16]) == x.deviceId && ReadKey(t[16..48]) == x.publicKey
              && ReadU64(t[48..56]) == x.timestampMs && ReadId(t[56..72]) == x.nonce
              && ReadKey(t[72..]) == p.hash(x.body)
    {
      var t := SigningTail(p, x);
      assert t[..16] == ToBE(x.deviceId, 16) && t[16..48] == ToBE(x.publicKey, 32)
          && t[48..56] == ToBE(x.timestampMs, 8) && t[56..72] == ToBE(x.nonce, 16)
          && t[72..] == ToBE(p.hash(x.body), 32);
      RoundTripId(x.deviceId);
      RoundTripKey(x.publicKey);
      RoundTripU64(x.timestampMs);
      RoundTripId(x.nonce);
      RoundTripKey(p.hash(x.body));
    }
  }

  /** Where the length fields do not overflow, equal signed bytes mean equal requests, up to a hash collision. */
  lemma SigningBytesBind(p: Primitives, q: Request, r: Request)
    requires |q.httpMethod| <= U16_MAX && |r.httpMethod| <= U16_MAX && |q.path| <= U32_MAX && |r.path| <= U32_MAX
    requires SigningBytes(p, q) == SigningBytes(p, r)
    ensures q.httpMethod == r.httpMethod && q.path == r.path && q.deviceId == r.deviceId
    ensures q.publicKey == r.publicKey && q.timestampMs == r.timestampMs && q.nonce == r.nonce
    ensures p.hash(q.body) == p.hash(r.body)
  {
    hide SigningBytes, SigningTail;
    SigningFields(p, q);
    SigningFields(p, r);
    RoundTripU16(|q.httpMethod|);
    RoundTripU16(|r.httpMethod|);
    RoundTripU32(|q.path|);
    RoundTripU32(|r.path|);
    TailBinds(p, q, r);
  }

  predicate TimestampOk(timestampMs: u64, wall: u64) {
    timestampMs <= SatAdd(wall, MAX_CLOCK_SKEW_MS) && SatSub(wall, timestampMs) <= MAX_CLOCK_SKEW_MS
  }

  // ----- State -----

  /** A used nonce and the instant, in milliseconds, at which it may be forgotten. */
  datatype Seen = Seen(nonce: Id, expires: nat)

  datatype Window = Window(start: nat, count: nat)

  datatype AuthInner = AuthInner(nonces: map<Id, seq<Seen>>, rates: map<Id, Window>)

  const EMPTY: AuthInner := AuthInner(map[], map[])

  function LiveAt(now: nat): Seen -> bool {
    (e: Seen) => e.expires > now
  }

  function Live(queue: seq<Seen>, now: nat): seq<Seen> {
    Filter(queue, LiveAt(now))
  }

  predicate HasNonce(queue: seq<Seen>, nonce: Id) {
    exists i :: 0 <= i < |queue| && queue[i].nonce == nonce
  }

  function QueueOf(s: AuthInner, d: Id): seq<Seen> {
    if d in s.nonces then s.nonces[d] else []
  }

  /** The rate window a request at `now` falls into: the current one, or a new one. */
  function WindowFor(s: AuthInner, d: Id, now: nat): Window {
    if d in s.rates && now < s.rates[d].start + RATE_WINDOW then s.rates[d] else Window(now, 0)
  }

  function Evicted(queue: seq<Seen>): seq<Seen> {
    if |queue| >= MAX_NONCES_PER_DEVICE then queue[1..] else queue
  }

  /** What happens under the lock. */
  function Locked(s: AuthInner, d: Id, nonce: Id, now: nat): (AuthInner, Result<Id, AuthError>) {
    if HasNonce(Live(QueueOf(s, d), now), nonce) then
      (AuthInner(s.nonces[d := Live(QueueOf(s, d), now)], s.rates), Err(Replay))
    else if WindowFor(s, d, now).count >= RATE_LIMIT_PER_DEVICE then
      (AuthInner(s.nonces[d := Live(QueueOf(s, d), now)], s.rates[d := WindowFor(s, d, now)]), Err(RateLimited))
    else
      (AuthInner(s.nonces[d := Evicted(Live(QueueOf(s, d), now)) + [Seen(nonce, now + NONCE_TTL)]],
                 s.rates[d := Window(WindowFor(s, d, now).start, WindowFor(s, d, now).count + 1)]),
       Ok(d))
  }

  /** `wall` is the clock of the timestamp check, `now` the monotone clock read under the lock. */
  function Authenticated(p: Primitives, s: AuthInner, q: Request, wall: u64, now: nat)
    : (AuthInner, Result<Id, AuthError>)
  {
    if p.deviceOf(q.publicKey) != q.deviceId then (s, Err(InvalidDevice))
    else if !TimestampOk(q.timestampMs, wall) then (s, Err(InvalidTimestamp))
    else if !p.keyIsValid(q.publicKey) then (s, Err(InvalidHeader))
    else if !p.verify(q.publicKey, SigningBytes(p, q), q.signature) then (s, Err(InvalidSignature))
    else Locked(s, q.deviceId, q.nonce, now)
  }

  class AuthState {
    const primitives: Primitives
    var nonces: map<Id, seq<Seen>>
    var rates: map<Id, Window>

    function Value(): AuthInner
      reads this
    {
      AuthInner(nonces, rates)
    }

    constructor (primitives: Primitives)
      ensures this.primitives == primitives && Value() == EMPTY
    {
      this.primitives, nonces, rates := primitives, map[], map[];
    }

    method Authenticate(q: Request, wall: u64, now: nat) returns (r: Result<Id, AuthError>)
      modifies this
      ensures (Value(), r) == Authenticated(primitives, old(Value()), q, wall, now)
    {
      hide SigningBytes, Filter;
      if q.deviceId != primitives.deviceOf(q.publicKey) { return Err(InvalidDevice); }
      if q.timestampMs > SatAdd(wall, MAX_CLOCK_SKEW_MS) || SatSub(wall, q.timestampMs) > MAX_CLOCK_SKEW_MS {
        return Err(InvalidTimestamp);
      }
      var signed := BuildSigningBytes(q);
      if !primitives.keyIsValid(q.publicKey) { return Err(InvalidHeader); }
      if !primitives.verify(q.publicKey, signed, q.signature) { return Err(InvalidSignature); }

      var d := q.deviceId;
      var queue := if d in nonces then nonces[d] else [];
      queue := Live(queue, now);
      nonces := nonces[d := queue];
      if HasNonce(queue, q.nonce) { return Err(Replay); }

      if d !in rates { rates := rates[d := Window(now, 0)]; }
      if now >= rates[d].start + RATE_WINDOW { rates := rates[d := Window(now, 0)]; }
      if rates[d].count >= RATE_LIMIT_PER_DEVICE {
        assert rates == old(rates)[d := rates[d]];
        return Err(RateLimited);
      }
      rates := rates[d := Window(rates[d].start, rates[d].count + 1)];

      if |queue| >= MAX_NONCES_PER_DEVICE { queue := queue[1..]; }
      queue := queue + [Seen(q.nonce, now + NONCE_TTL)];
      nonces := nonces[d := queue];
      assert rates == old(rates)[d := rates[d]] && nonces == old(nonces)[d := queue];
      r := Ok(d);
    }

    method BuildSigningBytes(q: Request) returns (out: Bytes)
      ensures out == SigningBytes(primitives, q)
    {
      out := DOMAIN;
      out := out + ToBE(|q.httpMethod|, 2);
      out := out + q.httpMethod;
      out := out + ToBE(|q.path|, 4);
      out := out + q.path;
      out := out + ToBE(q.deviceId, 16);
      out := out + ToBE(q.publicKey, 32);
      out := out + ToBE(q.timestampMs, 8);
      out := out + ToBE(q.nonce, 16);
      out := out + ToBE(primitives.hash(q.body), 32);
    }
  }
}
