/** What the prekey registry answers, over every run, in terms of what it answered before. */
module PrekeyAnswers {
  import opened Prelude
  import opened Protocol
  import opened Bundle
  import opened Prekeys
  import opened PrekeyRuns

  // ----- The history -----

  /** The last publication accepted for a device. */
  function Latest(pubs: seq<Publication>, d: Id): Option<Publication> {
    if pubs == [] then None
    else if pubs[|pubs| - 1].bundle.deviceId == d then Some(pubs[|pubs| - 1])
    else Latest(pubs[..|pubs| - 1], d)
  }

  /** The devices whose revocation was accepted. */
  function Revoked(v: Verifier, ops: seq<Op>): set<Id> {
    if ops == [] then {}
    else
      var front, last := ops[..|ops| - 1], ops[|ops| - 1];
      Revoked(v, front) + if last.Revoke? && AnswerTo(v, front, last) == Done then {last.device} else {}
  }

  /** The claims that were answered with a key. */
  function Granted(v: Verifier, ops: seq<Op>): set<Op> {
    if ops == [] then {}
    else
      var front, last := ops[..|ops| - 1], ops[|ops| - 1];
      Granted(v, front) + if last.Claim? && AnswerTo(v, front, last).Claimed? then {last} else {}
  }

  predicate SameKey(a: Op, b: Op)
    requires a.Claim? && b.Claim?
  {
    a.recipient == b.recipient && a.generation == b.generation && a.keyId == b.keyId
  }

  predicate SameRequest(a: Op, b: Op)
    requires a.Claim? && b.Claim?
  {
    a.claimant == b.claimant && a.requestId == b.requestId
  }

  function KeyOf(a: Op): ClaimKey
    requires a.Claim?
  {
    ClaimKey(a.recipient, a.generation, a.keyId)
  }

  function RequestOf(a: Op): RequestKey
    requires a.Claim?
  {
    RequestKey(a.claimant, a.requestId)
  }

  // ----- What the state remembers of it -----

  ghost predicate FollowsPubs(s: Registry, pubs: seq<Publication>, revoked: set<Id>) {
    && s.revoked.Keys == revoked
    && forall d :: if d in s.publications then Latest(pubs, d) == Some(s.publications[d]) else Latest(pubs, d) == None
  }

  ghost predicate GrantStored(s: Registry, o: Op) {
    && o.Claim? && KeyOf(o) in s.claims && RequestOf(o) in s.requests && s.requests[RequestOf(o)] == KeyOf(o)
    && s.claims[KeyOf(o)].claimant == o.claimant && s.claims[KeyOf(o)].requestId == o.requestId
  }

  ghost predicate KeyGranted(granted: set<Op>, ck: ClaimKey) {
    exists o :: o in granted && o.Claim? && KeyOf(o) == ck
  }

  ghost predicate RequestGranted(granted: set<Op>, rk: RequestKey) {
    exists o :: o in granted && o.Claim? && RequestOf(o) == rk
  }

  ghost predicate FollowsClaims(s: Registry, granted: set<Op>) {
    && (forall o :: o in granted ==> GrantStored(s, o))
    && (forall ck :: ck in s.claims ==> KeyGranted(granted, ck))
    && (forall rk :: rk in s.requests ==> RequestGranted(granted, rk))
  }

  lemma GrantedMore(granted: set<Op>, op: Op, ck: ClaimKey, rk: RequestKey)
    requires op.Claim?
    ensures KeyGranted(granted, ck) || KeyOf(op) == ck ==> KeyGranted(granted + {op}, ck)
    ensures RequestGranted(granted, rk) || RequestOf(op) == rk ==> RequestGranted(granted + {op}, rk)
  {
    assert op in granted + {op};
    if KeyGranted(granted, ck) {
      var o :| o in granted && o.Claim? && KeyOf(o) == ck;
      assert o in granted + {op};
    }
    if RequestGranted(granted, rk) {
      var o :| o in granted && o.Claim? && RequestOf(o) == rk;
      assert o in granted + {op};
    }
  }

  lemma LatestMore(pubs: seq<Publication>, p: Publication, d: Id)
    ensures Latest(pubs + [p], d) == if p.bundle.deviceId == d then Some(p) else Latest(pubs, d)
  {
    assert (pubs + [p])[..|pubs|] == pubs;
  }

  lemma PubsFollow(v: Verifier, s: Registry, pubs: seq<Publication>, revoked: set<Id>, op: Op)
    requires FollowsPubs(s, pubs, revoked)
    ensures var (s', r) := Applied(v, s, op);
            FollowsPubs(s', pubs + if op.Publish? && r == Done then [op.publication] else [],
                        revoked + if op.Revoke? && r == Done then {op.device} else {})
  {
    hide Refusal, FindKey;
    assert pubs + [] == pubs;
    if op.Publish? {
      forall d ensures Latest(pubs + [op.publication], d)
                       == if op.publication.bundle.deviceId == d then Some(op.publication) else Latest(pubs, d)
      {
        LatestMore(pubs, op.publication, d);
      }
    }
    hide Latest;
  }

  lemma ClaimsFollow(v: Verifier, s: Registry, granted: set<Op>, op: Op)
    requires FollowsClaims(s, granted)
    ensures var (s', r) := Applied(v, s, op);
            FollowsClaims(s', granted + if op.Claim? && r.Claimed? then {op} else {})
  {
    hide Refusal, FindKey;
    assert granted + {} == granted;
    var (s', r) := Applied(v, s, op);
    if op.Claim? && r.Claimed? {
      ClaimFollows(s, granted, op);
    }
  }

  lemma ClaimFollows(s: Registry, granted: set<Op>, op: Op)
    requires FollowsClaims(s, granted) && op.Claim?
    requires AfterClaim(s, op.recipient, op.generation, op.keyId, op.claimant, op.requestId, op.now).1.Claimed?
    ensures FollowsClaims(AfterClaim(s, op.recipient, op.generation, op.keyId, op.claimant, op.requestId, op.now).0,
                          granted + {op})
  {
    hide FindKey, FollowsClaims;
    var (s', r) := AfterClaim(s, op.recipient, op.generation, op.keyId, op.claimant, op.requestId, op.now);
    if KeyOf(op) in s.claims {
      RepeatFollows(s, granted, op);
    } else {
      FreshFollows(s, granted, op, r.claim);
    }
  }

  lemma RepeatFollows(s: Registry, granted: set<Op>, op: Op)
    requires FollowsClaims(s, granted) && op.Claim? && KeyOf(op) in s.claims
    requires s.claims[KeyOf(op)].claimant == op.claimant && s.claims[KeyOf(op)].requestId == op.requestId
    ensures FollowsClaims(s, granted + {op})
  {
    var o :| o in granted && o.Claim? && KeyOf(o) == KeyOf(op);
    assert GrantStored(s, o) && RequestOf(o) == RequestOf(op);
    assert GrantStored(s, op);
    hide GrantStored, KeyGranted, RequestGranted;
    forall ck, rk ensures KeyGranted(granted, ck) ==> KeyGranted(granted + {op}, ck)
                  ensures RequestGranted(granted, rk) ==> RequestGranted(granted + {op}, rk) {
      GrantedMore(granted, op, ck, rk);
    }
  }

  lemma FreshFollows(s: Registry, granted: set<Op>, op: Op, c: OpkClaim)
    requires FollowsClaims(s, granted) && op.Claim?
    requires KeyOf(op) !in s.claims && RequestOf(op) !in s.requests
    requires c.claimant == op.claimant && c.requestId == op.requestId
    ensures FollowsClaims(Registry(s.publications, s.revoked, s.claims[KeyOf(op) := c],
                                   s.requests[RequestOf(op) := KeyOf(op)]), granted + {op})
  {
    var s' := Registry(s.publications, s.revoked, s.claims[KeyOf(op) := c], s.requests[RequestOf(op) := KeyOf(op)]);
    forall o | o in granted + {op} ensures GrantStored(s', o) {
      if o != op { assert GrantStored(s, o); }
    }
    hide GrantStored, KeyGranted, RequestGranted;
    forall ck | ck in s'.claims ensures KeyGranted(granted + {op}, ck) {
      GrantedMore(granted, op, ck, RequestOf(op));
    }
    forall rk | rk in s'.requests ensures RequestGranted(granted + {op}, rk) {
      GrantedMore(granted, op, KeyOf(op), rk);
    }
  }

  lemma {:induction false} RunFollows(v: Verifier, ops: seq<Op>)
    ensures FollowsPubs(Run(v, ops), Accepted(v, ops), Revoked(v, ops))
    ensures FollowsClaims(Run(v, ops), Granted(v, ops))
  {
    if ops == [] {
    } else {
      var front, last := ops[..|ops| - 1], ops[|ops| - 1];
      RunFollows(v, front);
      PubsFollow(v, Run(v, front), Accepted(v, front), Revoked(v, front), last);
      ClaimsFollow(v, Run(v, front), Granted(v, front), last);
      hide FollowsPubs, FollowsClaims, Applied;
    }
  }

  // ----- The answers -----

  /** A publication that a device may publish at `now`: its own, well formed, in time, for at most 30 days, not expired,
      and with both signatures in order. */
  predicate Publishable(v: Verifier, p: Publication, expectedDevice: Id, now: u64) {
    && WellFormed(p.bundle) && p.bundle.deviceId == expectedDevice
    && p.issuedAtMs <= now + 300_000 && p.issuedAtMs < p.expiresAtMs <= p.issuedAtMs + 2_592_000_000
    && now < p.expiresAtMs
    && v.publication(p) && v.signedPrekey(p.bundle)
  }

  lemma RefusalMeans(v: Verifier, p: Publication, expectedDevice: Id, now: u64)
    ensures Refusal(v, p, expectedDevice, now).None? <==> Publishable(v, p, expectedDevice, now)
  {
    ValidMeansWellFormed(p.bundle);
    hide Fault, DistinctIds;
  }

  lemma {:induction false} LatestIsHighest(v: Verifier, ops: seq<Op>, d: Id, i: nat)
    requires i < |Accepted(v, ops)| && Accepted(v, ops)[i].bundle.deviceId == d
    ensures Latest(Accepted(v, ops), d).Some?
            && Accepted(v, ops)[i].generation <= Latest(Accepted(v, ops), d).value.generation
  {
    RunKeepsInv(v, ops);
    RunFollows(v, ops);
    hide FollowsClaims, Inverse, Increasing, Sourced, Run, Accepted, WellFormed, Latest, Revoked;
    assert Newest(Run(v, ops), Accepted(v, ops)) && FollowsPubs(Run(v, ops), Accepted(v, ops), Revoked(v, ops));
  }

  /** A publication is accepted exactly when it is publishable, the device was never revoked, and its generation is
      above the last one accepted for the device. */
  lemma PublishedExactlyWhen(v: Verifier, ops: seq<Op>, expectedDevice: Id, p: Publication, now: u64)
    ensures var last := Latest(Accepted(v, ops), p.bundle.deviceId);
            AnswerTo(v, ops, Publish(expectedDevice, p, now)) == Done <==>
            && Publishable(v, p, expectedDevice, now) && p.bundle.deviceId !in Revoked(v, ops)
            && (last.Some? ==> last.value.generation < p.generation)
  {
    RunFollows(v, ops);
    RefusalMeans(v, p, expectedDevice, now);
    hide Run, Accepted, Revoked, Granted, Refusal, Publishable, Latest, FollowsClaims;
  }

  /** A revocation is accepted exactly once per device, and only for its current generation. */
  lemma RevokedExactlyWhen(v: Verifier, ops: seq<Op>, d: Id, generation: u64, now: u64)
    ensures var last := Latest(Accepted(v, ops), d);
            AnswerTo(v, ops, Revoke(d, generation, now)) == Done <==>
            d !in Revoked(v, ops) && last.Some? && last.value.generation == generation
  {
    RunFollows(v, ops);
    hide Run, Accepted, Revoked, Granted, Latest, FollowsClaims;
  }

  /** What is shown for a device: the last publication accepted for it, unless it was revoked or has expired. */
  lemma ShownExactlyWhen(v: Verifier, ops: seq<Op>, d: Id, now: u64)
    ensures var last := Latest(Accepted(v, ops), d);
            AnswerTo(v, ops, GetActive(d, now)) ==
              Active(if d !in Revoked(v, ops) && last.Some? && now < last.value.expiresAtMs then last else None)
  {
    RunFollows(v, ops);
    hide Run, Accepted, Revoked, Granted, Latest, FollowsClaims;
  }

  /** Nobody else got the key, and the request got no other key. */
  ghost predicate Free(granted: set<Op>, op: Op)
    requires op.Claim?
  {
    forall o :: o in granted && o.Claim? ==> (SameKey(o, op) <==> SameRequest(o, op))
  }

  lemma FreeMeans(s: Registry, granted: set<Op>, op: Op)
    requires FollowsClaims(s, granted) && op.Claim?
    ensures Free(granted, op) <==>
              if KeyOf(op) in s.claims then
                s.claims[KeyOf(op)].claimant == op.claimant && s.claims[KeyOf(op)].requestId == op.requestId
              else RequestOf(op) !in s.requests
  {
    if KeyOf(op) in s.claims {
      var o :| o in granted && o.Claim? && KeyOf(o) == KeyOf(op);
      assert GrantStored(s, o);
      forall x | x in granted ensures GrantStored(s, x) {
      }
    } else if RequestOf(op) in s.requests {
      var o :| o in granted && o.Claim? && RequestOf(o) == RequestOf(op);
      assert GrantStored(s, o);
    } else {
      forall x | x in granted ensures GrantStored(s, x) {
      }
    }
  }

  predicate Offers(keys: seq<OneTimePrekeyPublic>, id: u32) {
    exists k :: k in keys && k.keyId == id
  }

  lemma {:induction false} FindMeans(keys: seq<OneTimePrekeyPublic>, id: u32)
    ensures FindKey(keys, id).Some? <==> Offers(keys, id)
    ensures FindKey(keys, id).Some? ==> OneTimePrekeyPublic(id, FindKey(keys, id).value) in keys
  {
    if keys != [] {
      FindMeans(keys[1..], id);
      assert keys == [keys[0]] + keys[1..];
      if k :| k in keys && k.keyId == id {
        assert k == keys[0] || k in keys[1..];
      }
    }
  }

  lemma {:induction false} LatestIsThere(pubs: seq<Publication>, d: Id) returns (i: nat)
    requires Latest(pubs, d).Some?
    ensures i < |pubs| && pubs[i] == Latest(pubs, d).value && pubs[i].bundle.deviceId == d
  {
    if pubs[|pubs| - 1].bundle.deviceId == d {
      i := |pubs| - 1;
    } else {
      i := LatestIsThere(pubs[..|pubs| - 1], d);
    }
  }

  /** A stored claim of the current generation is of a key in the current publication. */
  lemma StoredClaimIsOffered(s: Registry, pubs: seq<Publication>, ck: ClaimKey)
    requires RegistryInv(s, pubs) && ck in s.claims
    requires Latest(pubs, ck.device).Some? && Latest(pubs, ck.device).value.generation == ck.generation
    ensures var c, keys := s.claims[ck], Latest(pubs, ck.device).value.bundle.oneTimePrekeys;
            && FindKey(keys, ck.keyId) == Some(c.publicKey)
            && c.recipient == ck.device && c.generation == ck.generation && c.keyId == ck.keyId
  {
    hide Newest, Increasing, Sourced, FindKey, Latest;
    var i := LatestIsThere(pubs, ck.device);
    ClaimFound(s, pubs, ck, i);
    assert Inverse(s);
  }

  /** A claim is granted exactly when it carries a request id, the publication of that generation is the one shown for
      the recipient, offers the key id, and no other request was granted the key, and no other key the request. The
      claim then names the published key and the request. */
  lemma GrantedExactlyWhen(v: Verifier, ops: seq<Op>, op: Op)
    requires op.Claim?
    ensures var last := Latest(Accepted(v, ops), op.recipient);
            var answer := AnswerTo(v, ops, op);
            && (answer.Claimed? <==>
                && op.requestId != 0
                && op.recipient !in Revoked(v, ops) && last.Some? && op.now < last.value.expiresAtMs
                && last.value.generation == op.generation
                && Offers(last.value.bundle.oneTimePrekeys, op.keyId)
                && Free(Granted(v, ops), op))
            && (answer.Claimed? ==>
                && OneTimePrekeyPublic(op.keyId, answer.claim.publicKey) in last.value.bundle.oneTimePrekeys
                && answer.claim == OpkClaim(op.requestId, op.claimant, op.recipient, op.generation, op.keyId,
                                            answer.claim.publicKey))
  {
    RunFollows(v, ops);
    RunKeepsInv(v, ops);
    hide Run, Accepted, Revoked, Granted;
    GrantMeans(Run(v, ops), Accepted(v, ops), Revoked(v, ops), Granted(v, ops), op);
    hide AfterClaim;
  }

  lemma GrantMeans(s: Registry, pubs: seq<Publication>, revoked: set<Id>, granted: set<Op>, op: Op)
    requires op.Claim? && RegistryInv(s, pubs) && FollowsPubs(s, pubs, revoked) && FollowsClaims(s, granted)
    ensures var last := Latest(pubs, op.recipient);
            var r := AfterClaim(s, op.recipient, op.generation, op.keyId, op.claimant, op.requestId, op.now).1;
            && (r.Claimed? <==>
                && op.requestId != 0
                && op.recipient !in revoked && last.Some? && op.now < last.value.expiresAtMs
                && last.value.generation == op.generation
                && Offers(last.value.bundle.oneTimePrekeys, op.keyId)
                && Free(granted, op))
            && (r.Claimed? ==>
                && OneTimePrekeyPublic(op.keyId, r.claim.publicKey) in last.value.bundle.oneTimePrekeys
                && r.claim == OpkClaim(op.requestId, op.claimant, op.recipient, op.generation, op.keyId,
                                       r.claim.publicKey))
  {
    hide *;
    ClaimCases(s, op);
    FreeMeans(s, granted, op);
    LatestMeans(s, pubs, revoked, op.recipient);
    var last := Latest(pubs, op.recipient);
    if last.Some? {
      FindMeans(last.value.bundle.oneTimePrekeys, op.keyId);
      KeyFields(op);
      if KeyOf(op) in s.claims && last.value.generation == op.generation {
        StoredClaimIsOffered(s, pubs, KeyOf(op));
      }
    }
  }

  lemma KeyFields(op: Op)
    requires op.Claim?
    ensures KeyOf(op).device == op.recipient && KeyOf(op).generation == op.generation && KeyOf(op).keyId == op.keyId
  {
  }

  lemma LatestMeans(s: Registry, pubs: seq<Publication>, revoked: set<Id>, d: Id)
    requires FollowsPubs(s, pubs, revoked)
    ensures Latest(pubs, d) == if d in s.publications then Some(s.publications[d]) else None
    ensures d in s.revoked <==> d in revoked
  {
    hide Latest;
  }

  /** The cases of a claim, read off the maps. */
  lemma ClaimCases(s: Registry, op: Op)
    requires op.Claim?
    ensures var r := AfterClaim(s, op.recipient, op.generation, op.keyId, op.claimant, op.requestId, op.now).1;
            var d, ck := op.recipient, KeyOf(op);
            && (r.Claimed? <==>
                && op.requestId != 0 && d !in s.revoked && d in s.publications && op.now < s.publications[d].expiresAtMs
                && s.publications[d].generation == op.generation
                && if ck in s.claims then s.claims[ck].claimant == op.claimant && s.claims[ck].requestId == op.requestId
                   else RequestOf(op) !in s.requests
                        && FindKey(s.publications[d].bundle.oneTimePrekeys, op.keyId).Some?)
            && (r.Claimed? ==>
                  r.claim == if ck in s.claims then s.claims[ck]
                             else OpkClaim(op.requestId, op.claimant, d, op.generation, op.keyId,
                                           FindKey(s.publications[d].bundle.oneTimePrekeys, op.keyId).value))
  {
    hide FindKey;
  }
}
