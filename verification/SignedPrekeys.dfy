/** Rotation of signed prekeys with a grace period (core/identity/src/prekeys.rs). */
module SignedPrekeys {
  import opened Prelude
  import opened Sums

  const MAX_RETIRED_SIGNED_PREKEYS: nat := 2

  datatype StoreError = DuplicateKeyId | NotFound | InvalidTime | GenerationOverflow | RetiredCapacity

  datatype Entry = Entry(keyId: u32, createdAtMs: u64, expiresAtMs: Option<u64>, key: Key)

  datatype SpkState = SpkState(current: Entry, retired: map<u32, Entry>)

  predicate Usable(e: Entry, now: u64) {
    e.expiresAtMs.None? || now < e.expiresAtMs.value
  }

  function Kept(retired: map<u32, Entry>, now: u64): map<u32, Entry> {
    map id | id in retired && Usable(retired[id], now) :: retired[id]
  }

  /** `key` is the freshly generated key of the new entry. Expired entries go even when the rotation fails. */
  function Rotated(s: SpkState, newKeyId: u32, key: Key, now: u64, grace: u64): (SpkState, Result<u32, StoreError>) {
    var kept := Kept(s.retired, now);
    if newKeyId == s.current.keyId || newKeyId in kept then (SpkState(s.current, kept), Err(DuplicateKeyId))
    else if now < s.current.createdAtMs then (SpkState(s.current, kept), Err(InvalidTime))
    else if |kept| >= MAX_RETIRED_SIGNED_PREKEYS then (SpkState(s.current, kept), Err(RetiredCapacity))
    else if now + grace > U64_MAX then (SpkState(s.current, kept), Err(GenerationOverflow))
    else
      var outgoing := Entry(s.current.keyId, s.current.createdAtMs, Some(now + grace), s.current.key);
      (SpkState(Entry(newKeyId, now, None, key), kept[s.current.keyId := outgoing]), Ok(newKeyId))
  }

  function KeyUnder(s: SpkState, keyId: u32, now: u64): Result<Key, StoreError> {
    if s.current.keyId == keyId then Ok(s.current.key)
    else if keyId !in s.retired then Err(NotFound)
    else if !Usable(s.retired[keyId], now) then Err(NotFound)
    else Ok(s.retired[keyId].key)
  }

  predicate SpkInv(s: SpkState) {
    && s.current.expiresAtMs.None?
    && |s.retired| <= MAX_RETIRED_SIGNED_PREKEYS
    && s.current.keyId !in s.retired
    && forall id :: id in s.retired ==> s.retired[id].keyId == id && s.retired[id].expiresAtMs.Some?
  }

  class SignedPrekeyStore {
    var current: Entry
    var retired: map<u32, Entry>

    function Value(): SpkState
      reads this
    {
      SpkState(current, retired)
    }

    constructor (keyId: u32, key: Key, now: u64)
      ensures Value() == SpkState(Entry(keyId, now, None, key), map[]) && SpkInv(Value())
    {
      current, retired := Entry(keyId, now, None, key), map[];
    }

    method WithKey(keyId: u32, now: u64) returns (r: Result<Key, StoreError>)
      ensures r == KeyUnder(Value(), keyId, now)
    {
      if current.keyId == keyId { return Ok(current.key); }
      if keyId !in retired { return Err(NotFound); }
      var entry := retired[keyId];
      if entry.expiresAtMs.Some? && now >= entry.expiresAtMs.value { return Err(NotFound); }
      r := Ok(entry.key);
    }

    method Prune(now: u64) returns (removed: nat)
      modifies this`retired
      ensures Value() == SpkState(old(current), Kept(old(retired), now))
      ensures removed == |old(retired)| - |retired|
    {
      var before := |retired|;
      KeptIsSmaller(retired, now);
      retired := Kept(retired, now);
      removed := before - |retired|;
    }

    method Rotate(newKeyId: u32, key: Key, now: u64, grace: u64) returns (r: Result<u32, StoreError>)
      modifies this
      ensures (Value(), r) == Rotated(old(Value()), newKeyId, key, now, grace)
      ensures old(SpkInv(Value())) ==> SpkInv(Value())
    {
      RotatedKeepsInv(Value(), newKeyId, key, now, grace);
      retired := Kept(retired, now);
      if newKeyId == current.keyId || newKeyId in retired { return Err(DuplicateKeyId); }
      if now < current.createdAtMs { return Err(InvalidTime); }
      if |retired| >= MAX_RETIRED_SIGNED_PREKEYS { return Err(RetiredCapacity); }
      if now + grace > U64_MAX { return Err(GenerationOverflow); }
      var previous := current;
      current := Entry(newKeyId, now, None, key);
      retired := retired[previous.keyId := previous.(expiresAtMs := Some(now + grace))];
      r := Ok(newKeyId);
    }
  }

  lemma KeptIsSmaller(retired: map<u32, Entry>, now: u64)
    ensures Kept(retired, now).Keys <= retired.Keys
    ensures |Kept(retired, now)| <= |retired|
  {
    SubsetCount(Kept(retired, now).Keys, retired.Keys);
  }

  lemma RotatedKeepsInv(s: SpkState, newKeyId: u32, key: Key, now: u64, grace: u64)
    ensures SpkInv(s) ==> SpkInv(Rotated(s, newKeyId, key, now, grace).0)
  {
    KeptIsSmaller(s.retired, now);
  }

  /** The retired keys that still open sessions at `now`. */
  function StillUsable(s: SpkState, now: u64): set<u32> {
    set id | id in s.retired && KeyUnder(s, id, now).Ok?
  }

  /** A rotation succeeds exactly when the new id opens no session, the clock is not behind the current key, fewer than
      two retired keys are usable, and the grace period ends in 64-bit time. Then the new id opens sessions with the new
      key from now on; the outgoing key and the usable retired ones open them as before, up to their time. */
  lemma RotatesExactlyWhen(s: SpkState, newKeyId: u32, key: Key, now: u64, grace: u64)
    requires SpkInv(s)
    ensures var (s', r) := Rotated(s, newKeyId, key, now, grace);
            && (r.Ok? <==> && KeyUnder(s, newKeyId, now).Err? && s.current.createdAtMs <= now
                           && |StillUsable(s, now)| < 2 && now + grace <= U64_MAX)
            && (r.Ok? ==>
                  && s'.current.createdAtMs == now
                  && (forall t: u64 :: KeyUnder(s', newKeyId, t) == Ok(key))
                  && (forall t: u64 :: KeyUnder(s', s.current.keyId, t)
                                       == if t < now + grace then Ok(s.current.key) else Err(NotFound))
                  && (forall id: u32, t: u64 :: id !in {newKeyId, s.current.keyId} && now <= t ==>
                        KeyUnder(s', id, t) == KeyUnder(s, id, t)))
            && (r.Err? ==> forall id: u32, t: u64 :: now <= t ==> KeyUnder(s', id, t) == KeyUnder(s, id, t))
  {
    assert StillUsable(s, now) == Kept(s.retired, now).Keys;
    assert |Kept(s.retired, now).Keys| == |Kept(s.retired, now)|;
  }

  // ----- Runs -----

  datatype Op = Rotate(newKeyId: u32, key: Key, now: u64, grace: u64) | Prune(now: u64)

  function Applied(s: SpkState, op: Op): SpkState {
    match op
    case Rotate(id, key, now, grace) => Rotated(s, id, key, now, grace).0
    case Prune(now) => SpkState(s.current, Kept(s.retired, now))
  }

  function Run(s: SpkState, ops: seq<Op>): SpkState {
    if ops == [] then s else Applied(Run(s, ops[..|ops| - 1]), ops[|ops| - 1])
  }

  lemma AppliedKeepsInv(s: SpkState, op: Op)
    requires SpkInv(s)
    ensures SpkInv(Applied(s, op))
  {
    match op
    case Rotate(id, key, now, grace) => RotatedKeepsInv(s, id, key, now, grace);
    case Prune(now) => KeptIsSmaller(s.retired, now);
  }

  /** Never more than two retired keys, and never one id twice, after any run at any clock readings. */
  lemma {:induction false} RunKeepsInv(s: SpkState, ops: seq<Op>)
    requires SpkInv(s)
    ensures SpkInv(Run(s, ops))
  {
    if ops == [] {
    } else {
      RunKeepsInv(s, ops[..|ops| - 1]);
      AppliedKeepsInv(Run(s, ops[..|ops| - 1]), ops[|ops| - 1]);
    }
  }

  predicate Reissues(s: SpkState, op: Op, keyId: u32) {
    op.Rotate? && op.newKeyId == keyId && Rotated(s, op.newKeyId, op.key, op.now, op.grace).1.Ok?
  }

  predicate NeverReissued(s: SpkState, ops: seq<Op>, keyId: u32) {
    ops == [] || (var front, last := ops[..|ops| - 1], ops[|ops| - 1];
                  NeverReissued(s, front, keyId) && !Reissues(Run(s, front), last, keyId))
  }

  /** A retired key is either still held unchanged or gone for good, and it is not gone before its time. */
  lemma {:induction false} RetiredKeyHeld(s: SpkState, ops: seq<Op>, keyId: u32)
    requires SpkInv(s) && keyId in s.retired && NeverReissued(s, ops, keyId)
    ensures var e, end := s.retired[keyId], Run(s, ops);
            && end.current.keyId != keyId
            && (keyId in end.retired ==> end.retired[keyId] == e)
            && ((forall i :: 0 <= i < |ops| ==> ops[i].now < e.expiresAtMs.value) ==> keyId in end.retired)
  {
    if ops == [] {
    } else {
      var front, last := ops[..|ops| - 1], ops[|ops| - 1];
      RetiredKeyHeld(s, front, keyId);
      if forall i :: 0 <= i < |ops| ==> ops[i].now < s.retired[keyId].expiresAtMs.value {
        forall i | 0 <= i < |front| ensures front[i].now < s.retired[keyId].expiresAtMs.value {
          assert front[i] == ops[i];
        }
      }
    }
  }

  /** The grace period is exact: whatever is rotated and pruned up to `now`, a retired key opens sessions as long
      as its expiry is ahead, and no longer, unless its id is issued again after the expiry. */
  lemma GracePeriodIsExact(s: SpkState, ops: seq<Op>, keyId: u32, now: u64)
    requires SpkInv(s) && keyId in s.retired
    requires NeverReissued(s, ops, keyId) || now < s.retired[keyId].expiresAtMs.value
    requires forall i :: 0 <= i < |ops| ==> ops[i].now <= now
    ensures var e := s.retired[keyId];
            KeyUnder(Run(s, ops), keyId, now) == if now < e.expiresAtMs.value then Ok(e.key) else Err(NotFound)
  {
    if now < s.retired[keyId].expiresAtMs.value {
      NoReissueDuringGrace(s, ops, keyId);
    }
    RetiredKeyHeld(s, ops, keyId);
  }

  /** During its grace period a retired id cannot be issued again, so the old key cannot be shadowed. */
  lemma {:induction false} NoReissueDuringGrace(s: SpkState, ops: seq<Op>, keyId: u32)
    requires SpkInv(s) && keyId in s.retired
    requires forall i :: 0 <= i < |ops| ==> ops[i].now < s.retired[keyId].expiresAtMs.value
    ensures NeverReissued(s, ops, keyId)
  {
    if ops == [] {
    } else {
      var front := ops[..|ops| - 1];
      forall i | 0 <= i < |front| ensures front[i].now < s.retired[keyId].expiresAtMs.value {
        assert front[i] == ops[i];
      }
      NoReissueDuringGrace(s, front, keyId);
      RetiredKeyHeld(s, front, keyId);
    }
  }

  /** After a rotation at `at`, the outgoing key opens sessions until `at + grace` and not a moment longer, unless its
      id is issued again after that. */
  lemma OutgoingKeyHasItsGrace(s: SpkState, newKeyId: u32, key: Key, at: u64, grace: u64, ops: seq<Op>, now: u64)
    requires SpkInv(s) && Rotated(s, newKeyId, key, at, grace).1.Ok?
    requires forall i :: 0 <= i < |ops| ==> ops[i].now <= now
    requires NeverReissued(Rotated(s, newKeyId, key, at, grace).0, ops, s.current.keyId) || now < at + grace
    ensures KeyUnder(Run(Rotated(s, newKeyId, key, at, grace).0, ops), s.current.keyId, now)
            == if now < at + grace then Ok(s.current.key) else Err(NotFound)
  {
    var s' := Rotated(s, newKeyId, key, at, grace).0;
    RotatedKeepsInv(s, newKeyId, key, at, grace);
    GracePeriodIsExact(s', ops, s.current.keyId, now);
  }
}
