/** What the prekey registry guarantees over every run of publish, revoke, get and claim. */
module PrekeyRuns {
  import opened Prelude
  import opened Bundle
  import opened Prekeys

  function Run(v: Verifier, ops: seq<Op>): Registry {
    if ops == [] then EMPTY else Applied(v, Run(v, ops[..|ops| - 1]), ops[|ops| - 1]).0
  }

  function AnswerTo(v: Verifier, earlier: seq<Op>, op: Op): Answer {
    Applied(v, Run(v, earlier), op).1
  }

  /** Every publication a run accepted, in order. */
  function Accepted(v: Verifier, ops: seq<Op>): seq<Publication> {
    if ops == [] then []
    else
      var front, last := ops[..|ops| - 1], ops[|ops| - 1];
      Accepted(v, front) + if last.Publish? && AnswerTo(v, front, last) == Done then [last.publication] else []
  }

  /** Claims and requests are each other's inverse. */
  ghost predicate Inverse(s: Registry) {
    && (forall ck :: ck in s.claims ==>
          var c := s.claims[ck];
          && ck == ClaimKey(c.recipient, c.generation, c.keyId)
          && RequestKey(c.claimant, c.requestId) in s.requests
          && s.requests[RequestKey(c.claimant, c.requestId)] == ck)
    && (forall rk :: rk in s.requests ==>
          && s.requests[rk] in s.claims
          && RequestKey(s.claims[s.requests[rk]].claimant, s.claims[s.requests[rk]].requestId) == rk)
  }

  ghost predicate Increasing(pubs: seq<Publication>) {
    forall i, j :: 0 <= i < j < |pubs| && pubs[i].bundle.deviceId == pubs[j].bundle.deviceId ==>
      pubs[i].generation < pubs[j].generation
  }

  /** The stored publication of a device is its newest accepted one. */
  ghost predicate Newest(s: Registry, pubs: seq<Publication>) {
    && (forall i :: 0 <= i < |pubs| ==>
          var d := pubs[i].bundle.deviceId;
          d in s.publications && pubs[i].generation <= s.publications[d].generation)
    && (forall d :: d in s.publications ==> s.publications[d] in pubs && s.publications[d].bundle.deviceId == d)
    && (forall i :: 0 <= i < |pubs| ==> WellFormed(pubs[i].bundle))
  }

  /** `c` is a key of a publication accepted for its recipient and generation. */
  ghost predicate Sourced(c: OpkClaim, pubs: seq<Publication>) {
    exists i :: 0 <= i < |pubs| && pubs[i].bundle.deviceId == c.recipient && pubs[i].generation == c.generation
                && FindKey(pubs[i].bundle.oneTimePrekeys, c.keyId) == Some(c.publicKey)
  }

  ghost predicate RegistryInv(s: Registry, pubs: seq<Publication>) {
    Inverse(s) && Increasing(pubs) && Newest(s, pubs)
    && forall ck :: ck in s.claims ==> Sourced(s.claims[ck], pubs)
  }

  lemma SourcedGrows(c: OpkClaim, pubs: seq<Publication>, more: seq<Publication>)
    requires Sourced(c, pubs)
    ensures Sourced(c, pubs + more)
  {
    var i :| 0 <= i < |pubs| && pubs[i].bundle.deviceId == c.recipient && pubs[i].generation == c.generation
             && FindKey(pubs[i].bundle.oneTimePrekeys, c.keyId) == Some(c.publicKey);
    assert (pubs + more)[i] == pubs[i];
  }

  lemma PublishKeepsInverse(s: Registry, p: Publication)
    requires Inverse(s)
    ensures Inverse(Registry(s.publications[p.bundle.deviceId := p], s.revoked, s.claims, s.requests))
  {
  }

  lemma PublishKeepsNewest(s: Registry, pubs: seq<Publication>, p: Publication)
    requires Newest(s, pubs) && Increasing(pubs) && WellFormed(p.bundle)
    requires var d := p.bundle.deviceId; d in s.publications ==> s.publications[d].generation < p.generation
    ensures Increasing(pubs + [p])
    ensures Newest(Registry(s.publications[p.bundle.deviceId := p], s.revoked, s.claims, s.requests), pubs + [p])
  {
    hide WellFormed;
    var all, s' := pubs + [p], Registry(s.publications[p.bundle.deviceId := p], s.revoked, s.claims, s.requests);
    forall i | 0 <= i < |pubs| && pubs[i].bundle.deviceId == p.bundle.deviceId
      ensures pubs[i].generation < p.generation
    {
    }
    forall d | d in s'.publications ensures s'.publications[d] in all {
      if d == p.bundle.deviceId { assert all[|pubs|] == p; }
    }
  }

  lemma PublishKeepsInv(v: Verifier, s: Registry, pubs: seq<Publication>, d: Id, p: Publication, now: u64)
    requires RegistryInv(s, pubs)
    ensures var (s', r) := AfterPublish(v, s, d, p, now);
            RegistryInv(s', pubs + if r == Done then [p] else [])
  {
    hide Inverse, Sourced, WellFormed, FindKey, Newest, Increasing;
    var (s', r) := AfterPublish(v, s, d, p, now);
    if r == Done {
      PublishKeepsInverse(s, p);
      ValidMeansWellFormed(p.bundle);
      PublishKeepsNewest(s, pubs, p);
      forall ck | ck in s'.claims ensures Sourced(s'.claims[ck], pubs + [p]) {
        SourcedGrows(s.claims[ck], pubs, [p]);
      }
    } else {
      assert pubs + [] == pubs;
    }
  }

  lemma NewClaimKeepsInverse(s: Registry, c: OpkClaim)
    requires Inverse(s)
    requires ClaimKey(c.recipient, c.generation, c.keyId) !in s.claims
    requires RequestKey(c.claimant, c.requestId) !in s.requests
    ensures var ck, rk := ClaimKey(c.recipient, c.generation, c.keyId), RequestKey(c.claimant, c.requestId);
            Inverse(Registry(s.publications, s.revoked, s.claims[ck := c], s.requests[rk := ck]))
  {
  }

  lemma NewClaimIsSourced(s: Registry, pubs: seq<Publication>, c: OpkClaim)
    requires Newest(s, pubs) && c.recipient in s.publications
    requires s.publications[c.recipient].generation == c.generation
    requires FindKey(s.publications[c.recipient].bundle.oneTimePrekeys, c.keyId) == Some(c.publicKey)
    ensures Sourced(c, pubs)
  {
    assert s.publications[c.recipient] in pubs;
    var i :| 0 <= i < |pubs| && pubs[i] == s.publications[c.recipient];
  }

  lemma ClaimKeepsInv(s: Registry, pubs: seq<Publication>, d: Id, g: u64, k: u32, c: Id, r: Id, now: u64)
    requires RegistryInv(s, pubs)
    ensures RegistryInv(AfterClaim(s, d, g, k, c, r, now).0, pubs)
  {
    hide Inverse, Sourced, FindKey, WellFormed;
    var (s', answer) := AfterClaim(s, d, g, k, c, r, now);
    if s' != s {
      NewClaimKeepsInverse(s, answer.claim);
      NewClaimIsSourced(s, pubs, answer.claim);
    }
  }

  lemma {:induction false} RunKeepsInv(v: Verifier, ops: seq<Op>)
    ensures RegistryInv(Run(v, ops), Accepted(v, ops))
  {
    if ops == [] {
    } else {
      hide RegistryInv, AfterPublish, AfterClaim;
      var front, last := ops[..|ops| - 1], ops[|ops| - 1];
      var s, pubs := Run(v, front), Accepted(v, front);
      RunKeepsInv(v, front);
      assert pubs + [] == pubs;
      match last
      case Publish(d, p, now) => PublishKeepsInv(v, s, pubs, d, p, now);
      case Claim(d, g, k, c, r, now) => ClaimKeepsInv(s, pubs, d, g, k, c, r, now);
      case GetActive(_, _) =>
      case Revoke(d, g, now) => RevokeKeepsInv(s, pubs, d, g, now);
    }
  }

  lemma RevokeKeepsInv(s: Registry, pubs: seq<Publication>, d: Id, g: u64, now: u64)
    requires RegistryInv(s, pubs)
    ensures RegistryInv(AfterRevoke(s, d, g, now).0, pubs)
  {
  }

  /** At most one publication is ever accepted per device and generation. */
  lemma OnePublicationPerGeneration(v: Verifier, ops: seq<Op>, i: nat, j: nat)
    requires i < |Accepted(v, ops)| && j < |Accepted(v, ops)|
    requires Accepted(v, ops)[i].bundle.deviceId == Accepted(v, ops)[j].bundle.deviceId
    requires Accepted(v, ops)[i].generation == Accepted(v, ops)[j].generation
    ensures i == j
  {
    RunKeepsInv(v, ops);
  }

  lemma {:induction false} ClaimsStay(v: Verifier, ops: seq<Op>, more: seq<Op>, ck: ClaimKey)
    requires ck in Run(v, ops).claims
    ensures ck in Run(v, ops + more).claims && Run(v, ops + more).claims[ck] == Run(v, ops).claims[ck]
  {
    if more == [] {
      assert ops + more == ops;
    } else {
      var all := ops + more;
      assert all[..|all| - 1] == ops + more[..|more| - 1];
      ClaimsStay(v, ops, more[..|more| - 1], ck);
      ClaimStays(v, Run(v, all[..|all| - 1]), all[|all| - 1], ck);
      hide Applied;
    }
  }

  lemma ClaimStays(v: Verifier, s: Registry, op: Op, ck: ClaimKey)
    requires ck in s.claims
    ensures var s' := Applied(v, s, op).0; ck in s'.claims && s'.claims[ck] == s.claims[ck]
  {
    hide Refusal, FindKey;
  }

  lemma AnsweredClaimIsStored(v: Verifier, earlier: seq<Op>, op: Op)
    requires op.Claim? && AnswerTo(v, earlier, op).Claimed?
    ensures var ck := ClaimKey(op.recipient, op.generation, op.keyId);
            var s := Run(v, earlier + [op]);
            var c := AnswerTo(v, earlier, op).claim;
            && ck in s.claims && s.claims[ck] == c
            && c.claimant == op.claimant && c.requestId == op.requestId
            && c.recipient == op.recipient && c.generation == op.generation && c.keyId == op.keyId
  {
    hide FindKey, Newest, Increasing, Sourced;
    assert (earlier + [op])[..|earlier|] == earlier;
    RunKeepsInv(v, earlier);
    ClaimAnswer(Run(v, earlier), op);
  }

  lemma ClaimAnswer(s: Registry, op: Op)
    requires Inverse(s) && op.Claim?
    ensures var (s', r) := AfterClaim(s, op.recipient, op.generation, op.keyId, op.claimant, op.requestId, op.now);
            r.Claimed? ==>
              var ck, c := ClaimKey(op.recipient, op.generation, op.keyId), r.claim;
              && ck in s'.claims && s'.claims[ck] == c
              && c.claimant == op.claimant && c.requestId == op.requestId
              && c.recipient == op.recipient && c.generation == op.generation && c.keyId == op.keyId
  {
    hide FindKey;
  }

  /** Single winner: all successful answers for one key are the same claim, by the same claimant and request. */
  lemma OneWinnerPerKey(v: Verifier, before: seq<Op>, first: Op, between: seq<Op>, second: Op)
    requires first.Claim? && second.Claim?
    requires first.recipient == second.recipient && first.generation == second.generation && first.keyId == second.keyId
    requires AnswerTo(v, before, first).Claimed? && AnswerTo(v, before + [first] + between, second).Claimed?
    ensures AnswerTo(v, before, first) == AnswerTo(v, before + [first] + between, second)
    ensures first.claimant == second.claimant && first.requestId == second.requestId
  {
    var ck := ClaimKey(first.recipient, first.generation, first.keyId);
    AnsweredClaimIsStored(v, before, first);
    ClaimsStay(v, before + [first], between, ck);
  }

  /** A repeated request gets the same claim again exactly as long as the publication is neither revoked, nor
      replaced, nor expired; after that it is refused. */
  lemma RetryIsIdempotent(v: Verifier, before: seq<Op>, first: Op, between: seq<Op>, now: u64)
    requires first.Claim? && AnswerTo(v, before, first).Claimed?
    ensures var s := Run(v, before + [first] + between);
            var d := first.recipient;
            var retry := Claim(d, first.generation, first.keyId, first.claimant, first.requestId, now);
            var answer := AnswerTo(v, before + [first] + between, retry);
            && (answer == AnswerTo(v, before, first) <==>
                && d !in s.revoked && d in s.publications
                && now < s.publications[d].expiresAtMs && s.publications[d].generation == first.generation)
            && answer in {AnswerTo(v, before, first), Failed(NotFound), Failed(StaleGeneration)}
  {
    AnsweredClaimIsStored(v, before, first);
    ClaimsStay(v, before + [first], between, ClaimKey(first.recipient, first.generation, first.keyId));
  }

  /** One request id claims at most one key. */
  lemma OneKeyPerRequest(v: Verifier, before: seq<Op>, first: Op, between: seq<Op>, second: Op)
    requires first.Claim? && second.Claim?
    requires first.claimant == second.claimant && first.requestId == second.requestId
    requires AnswerTo(v, before, first).Claimed? && AnswerTo(v, before + [first] + between, second).Claimed?
    ensures AnswerTo(v, before, first) == AnswerTo(v, before + [first] + between, second)
  {
    var run := before + [first] + between;
    AnsweredClaimIsStored(v, before, first);
    ClaimsStay(v, before + [first], between, ClaimKey(first.recipient, first.generation, first.keyId));
    AnsweredClaimIsStored(v, run, second);
    ClaimsStay(v, run, [second], ClaimKey(first.recipient, first.generation, first.keyId));
    RunKeepsInv(v, run + [second]);
  }

  /** Every claimed key is the only key with its id in the only publication ever accepted for its generation. */
  lemma ClaimedKeyIsThePublishedOne(v: Verifier, ops: seq<Op>, ck: ClaimKey, i: nat, j: nat)
    requires ck in Run(v, ops).claims
    requires i < |Accepted(v, ops)| && Accepted(v, ops)[i].bundle.deviceId == ck.device
    requires Accepted(v, ops)[i].generation == ck.generation
    requires j < |Accepted(v, ops)[i].bundle.oneTimePrekeys|
    ensures var key := Accepted(v, ops)[i].bundle.oneTimePrekeys[j];
            key.keyId == ck.keyId <==> key == OneTimePrekeyPublic(ck.keyId, Run(v, ops).claims[ck].publicKey)
  {
    hide *;
    var pubs := Accepted(v, ops);
    RunKeepsInv(v, ops);
    ClaimFound(Run(v, ops), pubs, ck, i);
    AcceptedHaveDistinctIds(Run(v, ops), pubs, i);
    if pubs[i].bundle.oneTimePrekeys[j].keyId == ck.keyId {
      FoundKeyIsUnique(pubs[i].bundle.oneTimePrekeys, ck.keyId, j);
    }
  }

  lemma AcceptedHaveDistinctIds(s: Registry, pubs: seq<Publication>, i: nat)
    requires RegistryInv(s, pubs) && i < |pubs|
    ensures DistinctIds(pubs[i].bundle.oneTimePrekeys)
  {
    hide Inverse, Increasing, Sourced, DistinctIds;
    assert WellFormed(pubs[i].bundle);
  }

  lemma ClaimFound(s: Registry, pubs: seq<Publication>, ck: ClaimKey, i: nat)
    requires RegistryInv(s, pubs) && ck in s.claims
    requires i < |pubs| && pubs[i].bundle.deviceId == ck.device && pubs[i].generation == ck.generation
    ensures FindKey(pubs[i].bundle.oneTimePrekeys, ck.keyId) == Some(s.claims[ck].publicKey)
  {
    hide FindKey, Newest, Increasing, Sourced;
    var c := s.claims[ck];
    assert ck == ClaimKey(c.recipient, c.generation, c.keyId) && Sourced(c, pubs);
    OnlySource(c, pubs, i);
  }

  lemma OnlySource(c: OpkClaim, pubs: seq<Publication>, i: nat)
    requires Sourced(c, pubs) && Increasing(pubs)
    requires i < |pubs| && pubs[i].bundle.deviceId == c.recipient && pubs[i].generation == c.generation
    ensures FindKey(pubs[i].bundle.oneTimePrekeys, c.keyId) == Some(c.publicKey)
  {
    hide FindKey;
    var m :| 0 <= m < |pubs| && pubs[m].bundle.deviceId == c.recipient && pubs[m].generation == c.generation
             && FindKey(pubs[m].bundle.oneTimePrekeys, c.keyId) == Some(c.publicKey);
    assert m == i;
  }

  // ----- Revocation is final -----

  lemma {:induction false} RevokedStays(v: Verifier, ops: seq<Op>, more: seq<Op>, d: Id)
    requires d in Run(v, ops).revoked
    ensures d in Run(v, ops + more).revoked
  {
    if more == [] {
      assert ops + more == ops;
    } else {
      var all := ops + more;
      assert all[..|all| - 1] == ops + more[..|more| - 1];
      RevokedStays(v, ops, more[..|more| - 1], d);
    }
  }

  /** After a revocation, in every continuation the device publishes, shows and hands out nothing. */
  lemma RevocationIsFinal(v: Verifier, ops: seq<Op>, revoke: Op, more: seq<Op>, next: Op)
    requires revoke.Revoke? && AnswerTo(v, ops, revoke) == Done
    ensures var r := AnswerTo(v, ops + [revoke] + more, next);
            && (next.Publish? && next.publication.bundle.deviceId == revoke.device ==> r.Failed?)
            && (next.GetActive? && next.device == revoke.device ==> r == Active(None))
            && (next.Claim? && next.recipient == revoke.device ==> r.Failed?)
            && (next.Revoke? && next.device == revoke.device ==> r.Failed?)
  {
    assert (ops + [revoke])[..|ops|] == ops;
    RevokedStays(v, ops + [revoke], more, revoke.device);
  }
}
