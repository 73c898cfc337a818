/** What the authenticator answers, over every run: who is accepted, and why others are refused. */
module AuthAnswers {
  import opened Prelude
  import opened Sums
  import opened Auth
  import opened AuthRuns

  /** The attempts of device `d` that were accepted, in order. */
  function Acceptances(p: Primitives, attempts: seq<Attempt>, d: Id): seq<Attempt> {
    if attempts == [] then []
    else
      var front, last := attempts[..|attempts| - 1], attempts[|attempts| - 1];
      Acceptances(p, front, d)
      + if last.request.deviceId == d && AnswerTo(p, front, last).Ok? then [last] else []
  }

  /** The start of the current one-minute window and the acceptances in it. A window starts with the first acceptance
      that no earlier window covers. */
  function CurrentWindow(accepted: seq<Attempt>): (w: (nat, nat))
    ensures w.1 > 0 <==> accepted != []
  {
    if accepted == [] then (0, 0)
    else
      var ((start, count), now) := (CurrentWindow(accepted[..|accepted| - 1]), accepted[|accepted| - 1].now);
      if count == 0 || now >= start + 60_000 then (now, 1) else (start, count + 1)
  }

  /** The acceptances in the window that covers instant `now`. */
  function InWindow(accepted: seq<Attempt>, now: nat): nat {
    var (start, count) := CurrentWindow(accepted);
    if now >= start + 60_000 then 0 else count
  }

  /** The nonce was accepted less than five minutes before `now`. */
  predicate Reused(accepted: seq<Attempt>, nonce: Id, now: nat) {
    exists a :: a in accepted && a.request.nonce == nonce && now < a.now + 300_000
  }

  /** The timestamp is within five minutes of the clock, in both directions. */
  predicate InTime(timestampMs: u64, wall: u64) {
    timestampMs <= wall + 300_000 && wall <= timestampMs + 300_000
  }

  // ----- What the state remembers of the history -----

  ghost predicate FollowsWindow(s: AuthInner, d: Id, accepted: seq<Attempt>) {
    var (start, count) := CurrentWindow(accepted);
    if accepted == [] then d !in s.rates else d in s.rates && s.rates[d] == Window(start, count)
  }

  function SeenOf(a: Attempt): Seen {
    Seen(a.request.nonce, a.now + 300_000)
  }

  ghost predicate FollowsNonces(s: AuthInner, d: Id, accepted: seq<Attempt>, clock: nat) {
    && (forall e :: e in QueueOf(s, d) ==> exists a :: a in accepted && e == SeenOf(a))
    && (forall a :: a in accepted && clock < SeenOf(a).expires ==> SeenOf(a) in QueueOf(s, d))
  }

  ghost predicate Follows(s: AuthInner, d: Id, accepted: seq<Attempt>, clock: nat) {
    FollowsWindow(s, d, accepted) && FollowsNonces(s, d, accepted, clock)
  }

  lemma WindowAnswers(s: AuthInner, d: Id, accepted: seq<Attempt>, now: nat)
    requires FollowsWindow(s, d, accepted)
    ensures WindowFor(s, d, now).count == InWindow(accepted, now)
  {
  }

  lemma NonceAnswers(s: AuthInner, d: Id, accepted: seq<Attempt>, clock: nat, nonce: Id, now: nat)
    requires FollowsNonces(s, d, accepted, clock) && clock <= now
    ensures HasNonce(Live(QueueOf(s, d), now), nonce) <==> Reused(accepted, nonce, now)
  {
    var live := Live(QueueOf(s, d), now);
    FilterMembers(QueueOf(s, d), LiveAt(now));
    hide Filter, QueueOf;
    if HasNonce(live, nonce) {
      var i :| 0 <= i < |live| && live[i].nonce == nonce;
      assert live[i] in live;
      var a :| a in accepted && live[i] == SeenOf(a);
    }
    if Reused(accepted, nonce, now) {
      var a :| a in accepted && a.request.nonce == nonce && now < a.now + 300_000;
      assert SeenOf(a) in live;
      var i :| 0 <= i < |live| && live[i] == SeenOf(a);
    }
  }

  lemma LockedAnswers(s: AuthInner, d: Id, accepted: seq<Attempt>, clock: nat, nonce: Id, now: nat)
    requires Follows(s, d, accepted, clock) && clock <= now
    ensures Locked(s, d, nonce, now).1 ==
              if Reused(accepted, nonce, now) then Err(Replay)
              else if InWindow(accepted, now) >= 120 then Err(RateLimited)
              else Ok(d)
  {
    WindowAnswers(s, d, accepted, now);
    NonceAnswers(s, d, accepted, clock, nonce, now);
    hide HasNonce, Live, Reused, InWindow, WindowFor, QueueOf, Evicted;
  }

  lemma WindowFollows(s: AuthInner, d: Id, accepted: seq<Attempt>, a: Attempt)
    requires FollowsWindow(s, d, accepted)
    ensures var (s', r) := Locked(s, d, a.request.nonce, a.now);
            FollowsWindow(s', d, if r.Ok? then accepted + [a] else accepted)
  {
    hide HasNonce, Live, QueueOf, Evicted;
    assert (accepted + [a])[..|accepted|] == accepted;
  }

  lemma NoncesFollow(s: AuthInner, d: Id, accepted: seq<Attempt>, clock: nat, a: Attempt)
    requires FollowsNonces(s, d, accepted, clock) && DeviceInv(s, d, clock) && clock <= a.now
    ensures var (s', r) := Locked(s, d, a.request.nonce, a.now);
            FollowsNonces(s', d, if r.Ok? then accepted + [a] else accepted, a.now)
  {
    NoLiveNonceEvicted(s, d, a.request.nonce, clock, a.now);
    FilterMembers(QueueOf(s, d), LiveAt(a.now));
    var (s', r) := Locked(s, d, a.request.nonce, a.now);
    hide Locked, Filter, QueueOf, DeviceInv;
    var accepted' := if r.Ok? then accepted + [a] else accepted;
    forall e | e in QueueOf(s', d) ensures exists x :: x in accepted' && e == SeenOf(x) {
      if r.Ok? && e == SeenOf(a) {
        assert a in accepted';
      } else {
        var x :| x in accepted && e == SeenOf(x);
        assert x in accepted';
      }
    }
  }

  // ----- Over runs -----

  lemma OthersFollow(s: AuthInner, x: Id, nonce: Id, now: nat, d: Id, accepted: seq<Attempt>, clock: nat)
    requires Follows(s, d, accepted, clock) && x != d && clock <= now
    ensures Follows(Locked(s, x, nonce, now).0, d, accepted, now)
  {
    LaterFollows(s, d, accepted, clock, now);
    var s' := Locked(s, x, nonce, now).0;
    assert QueueOf(s', d) == QueueOf(s, d) && (d in s'.rates <==> d in s.rates);
    assert d in s.rates ==> s'.rates[d] == s.rates[d];
    hide Locked, QueueOf, CurrentWindow;
  }

  lemma LaterFollows(s: AuthInner, d: Id, accepted: seq<Attempt>, clock: nat, now: nat)
    requires Follows(s, d, accepted, clock) && clock <= now
    ensures Follows(s, d, accepted, now)
  {
  }

  lemma StepFollows(p: Primitives, s: AuthInner, d: Id, accepted: seq<Attempt>, clock: nat, a: Attempt)
    requires Follows(s, d, accepted, clock) && DeviceInv(s, d, clock) && clock <= a.now
    ensures var (s', r) := Authenticated(p, s, a.request, a.wall, a.now);
            Follows(s', d, accepted + if a.request.deviceId == d && r.Ok? then [a] else [], a.now)
  {
    assert accepted + [] == accepted;
    LaterFollows(s, d, accepted, clock, a.now);
    if a.request.deviceId == d {
      WindowFollows(s, d, accepted, a);
      NoncesFollow(s, d, accepted, clock, a);
    } else {
      OthersFollow(s, a.request.deviceId, a.request.nonce, a.now, d, accepted, clock);
    }
    hide Locked, FollowsWindow, FollowsNonces, SigningBytes, TimestampOk, DeviceInv;
  }

  lemma {:induction false} RunFollows(p: Primitives, attempts: seq<Attempt>, d: Id)
    requires Monotone(attempts)
    ensures Follows(Run(p, attempts), d, Acceptances(p, attempts, d), Clock(attempts))
  {
    if attempts == [] {
    } else {
      var front, last := attempts[..|attempts| - 1], attempts[|attempts| - 1];
      assert attempts == front + [last];
      MonotonePrefix(front, last);
      RunFollows(p, front, d);
      RunKeepsInv(p, front);
      assert DeviceInv(Run(p, front), d, Clock(front));
      hide Follows, DeviceInv, AuthInv, Authenticated, Monotone;
      StepFollows(p, Run(p, front), d, Acceptances(p, front, d), Clock(front), last);
    }
  }

  /** The request is what it claims to be: its key is the key of the device and valid, its timestamp is in time, and the
      signature covers method, path, device, key, timestamp, nonce and body. */
  predicate Genuine(p: Primitives, q: Request, wall: u64) {
    && p.deviceOf(q.publicKey) == q.deviceId && p.keyIsValid(q.publicKey)
    && InTime(q.timestampMs, wall)
    && p.verify(q.publicKey, SigningBytes(p, q), q.signature)
  }

  /** After every run under a monotone clock: a request is accepted exactly when it is genuine, its device had no
      acceptance of the same nonce in the last five minutes, and fewer than 120 acceptances in the current window.
      Otherwise the first of these that fails is the answer. */
  lemma AcceptedExactlyWhen(p: Primitives, earlier: seq<Attempt>, a: Attempt)
    requires Monotone(earlier + [a])
    ensures var q := a.request;
            var accepted := Acceptances(p, earlier, q.deviceId);
            var answer := AnswerTo(p, earlier, a);
            && (answer.Ok? <==> Genuine(p, q, a.wall) && !Reused(accepted, q.nonce, a.now)
                                && InWindow(accepted, a.now) < 120)
            && answer ==
                 if p.deviceOf(q.publicKey) != q.deviceId then Err(InvalidDevice)
                 else if !InTime(q.timestampMs, a.wall) then Err(InvalidTimestamp)
                 else if !p.keyIsValid(q.publicKey) then Err(InvalidHeader)
                 else if !p.verify(q.publicKey, SigningBytes(p, q), q.signature) then Err(InvalidSignature)
                 else if Reused(accepted, q.nonce, a.now) then Err(Replay)
                 else if InWindow(accepted, a.now) >= 120 then Err(RateLimited)
                 else Ok(q.deviceId)
  {
    var q := a.request;
    MonotonePrefix(earlier, a);
    RunFollows(p, earlier, q.deviceId);
    var accepted := Acceptances(p, earlier, q.deviceId);
    LockedAnswers(Run(p, earlier), q.deviceId, accepted, Clock(earlier), q.nonce, a.now);
    hide Locked, Reused, InWindow, Acceptances, SigningBytes, Follows, Monotone, Run;
  }
}
