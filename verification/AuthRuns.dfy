/** Rate limiting, nonce capacity and replay protection over whole runs of requests. */
module AuthRuns {
  import opened Prelude
  import opened Sums
  import opened Auth

  const MAX_LIVE_NONCES: nat := 720

  /** The number of entries that expire at `t` or later. */
  function CountFrom(queue: seq<Seen>, t: int): nat {
    if queue == [] then 0
    else CountFrom(queue[..|queue| - 1], t) + if queue[|queue| - 1].expires >= t then 1 else 0
  }

  /** The number of rate windows that fit into `d` milliseconds, rounded up. */
  function Windows(d: nat): nat {
    (d + RATE_WINDOW - 1) / RATE_WINDOW
  }

  /** Looking back from the start of the window to instant `x`: what is remembered from `x` on is at most
      the requests of this window and 120 for each window that fits in between. */
  predicate SparseSince(queue: seq<Seen>, w: Window, x: int)
    requires x <= w.start
  {
    CountFrom(queue, x + NONCE_TTL) <= w.count + RATE_LIMIT_PER_DEVICE * Windows(w.start - x)
  }

  ghost predicate Sparse(queue: seq<Seen>, w: Window) {
    && w.count <= RATE_LIMIT_PER_DEVICE
    && (forall e :: e in queue ==> e.expires < w.start + RATE_WINDOW + NONCE_TTL)
    && (forall x: int :: x <= w.start ==> SparseSince(queue, w, x))
  }

  ghost predicate DeviceInv(s: AuthInner, d: Id, clock: nat) {
    if d in s.rates then Sparse(QueueOf(s, d), s.rates[d]) && s.rates[d].start <= clock
    else QueueOf(s, d) == []
  }

  ghost predicate AuthInv(s: AuthInner, clock: nat) {
    forall d :: DeviceInv(s, d, clock)
  }

  lemma {:induction false} CountFilter(queue: seq<Seen>, now: nat, t: int)
    ensures CountFrom(Live(queue, now), t) <= CountFrom(queue, t)
  {
    if queue == [] {
    } else {
      var front, last := queue[..|queue| - 1], queue[|queue| - 1];
      CountFilter(front, now, t);
      var f := Live(front, now);
      assert (f + [last])[..|f|] == f;
    }
  }

  lemma CountAppend(queue: seq<Seen>, e: Seen, t: int)
    ensures CountFrom(queue + [e], t) == CountFrom(queue, t) + if e.expires >= t then 1 else 0
  {
    assert (queue + [e])[..|queue|] == queue;
  }

  lemma {:induction false} CountAll(queue: seq<Seen>, t: int)
    requires forall e :: e in queue ==> e.expires >= t
    ensures CountFrom(queue, t) == |queue|
  {
    if queue == [] {
    } else {
      CountAll(queue[..|queue| - 1], t);
    }
  }

  lemma {:induction false} CountNone(queue: seq<Seen>, t: int)
    requires forall e :: e in queue ==> e.expires < t
    ensures CountFrom(queue, t) == 0
  {
    if queue == [] {
    } else {
      CountNone(queue[..|queue| - 1], t);
    }
  }

  lemma {:induction false} CountMonotone(queue: seq<Seen>, t: int, u: int)
    requires t <= u
    ensures CountFrom(queue, u) <= CountFrom(queue, t)
  {
    if queue == [] {
    } else {
      CountMonotone(queue[..|queue| - 1], t, u);
    }
  }

  lemma SparseLive(queue: seq<Seen>, w: Window, now: nat)
    requires Sparse(queue, w)
    ensures Sparse(Live(queue, now), w)
  {
    FilterMembers(queue, LiveAt(now));
    forall x: int | x <= w.start ensures SparseSince(Live(queue, now), w, x) {
      assert SparseSince(queue, w, x);
      CountFilter(queue, now, x + NONCE_TTL);
    }
  }

  /** One more request inside the current window. */
  lemma SparseSameWindow(queue: seq<Seen>, w: Window, e: Seen)
    requires Sparse(queue, w) && w.count < RATE_LIMIT_PER_DEVICE
    requires e.expires < w.start + RATE_WINDOW + NONCE_TTL
    ensures Sparse(queue + [e], Window(w.start, w.count + 1))
  {
    var more, w' := queue + [e], Window(w.start, w.count + 1);
    forall x: int | x <= w.start ensures SparseSince(more, w', x) {
      assert SparseSince(queue, w, x);
      CountAppend(queue, e, x + NONCE_TTL);
    }
  }

  lemma WindowsShift(a: nat, b: nat)
    requires a >= b + RATE_WINDOW
    ensures Windows(a) >= Windows(b) + 1
  {
  }

  lemma SparseNewWindowSince(queue: seq<Seen>, w: Window, now: nat, x: int)
    requires Sparse(queue, w) && w.start + RATE_WINDOW <= now && x <= now
    ensures SparseSince(queue, Window(now, 0), x)
  {
    if x <= w.start {
      assert SparseSince(queue, w, x);
      WindowsShift(now - x, w.start - x);
    } else if x < w.start + RATE_WINDOW {
      assert SparseSince(queue, w, w.start);
      CountMonotone(queue, w.start + NONCE_TTL, x + NONCE_TTL);
      assert Windows(0) == 0 && Windows(now - x) >= 1;
    } else {
      CountNone(queue, x + NONCE_TTL);
    }
  }

  /** A new window starts at least one window length after the old one, so it inherits the bound. */
  lemma SparseNewWindow(queue: seq<Seen>, w: Window, now: nat)
    requires Sparse(queue, w) && w.start + RATE_WINDOW <= now
    ensures Sparse(queue, Window(now, 0))
  {
    hide SparseSince;
    forall x: int | x <= now ensures SparseSince(queue, Window(now, 0), x) {
      SparseNewWindowSince(queue, w, now, x);
    }
  }

  lemma SparseEmpty(w: Window)
    requires w.count <= RATE_LIMIT_PER_DEVICE
    ensures Sparse([], w)
  {
    forall x: int | x <= w.start ensures SparseSince([], w, x) {
      CountNone([], x + NONCE_TTL);
    }
  }

  /** Six windows of 120 cover the lifetime of a nonce. */
  lemma LiveBound(queue: seq<Seen>, w: Window, now: nat)
    requires Sparse(queue, w) && w.start <= now
    ensures |Live(queue, now)| <= w.count + 600 <= MAX_LIVE_NONCES
    ensures w.start + RATE_WINDOW <= now ==> |Live(queue, now)| <= w.count + 480
  {
    SparseLive(queue, w, now);
    FilterMembers(queue, LiveAt(now));
    var live, x := Live(queue, now), now + 1 - NONCE_TTL;
    CountAll(live, x + NONCE_TTL);
    if x <= w.start {
      assert SparseSince(live, w, x);
      WindowsBound(w.start - x);
    } else {
      assert SparseSince(live, w, w.start);
      CountMonotone(live, w.start + NONCE_TTL, x + NONCE_TTL);
      assert Windows(0) == 0;
    }
  }

  lemma WindowsBound(d: nat)
    requires d < NONCE_TTL
    ensures Windows(d) <= 5
    ensures d < NONCE_TTL - RATE_WINDOW ==> Windows(d) <= 4
  {
  }

  // ----- One attempt -----

  /** Everything a state promises about one device carries over to the window a request at `now` falls into. */
  lemma AttemptSparse(s: AuthInner, d: Id, clock: nat, now: nat)
    requires DeviceInv(s, d, clock) && clock <= now
    ensures Sparse(Live(QueueOf(s, d), now), WindowFor(s, d, now)) && WindowFor(s, d, now).start <= now
    ensures now < WindowFor(s, d, now).start + RATE_WINDOW
    ensures |Live(QueueOf(s, d), now)| <= MAX_LIVE_NONCES
    ensures WindowFor(s, d, now).count < RATE_LIMIT_PER_DEVICE ==> |Live(QueueOf(s, d), now)| < MAX_LIVE_NONCES
  {
    hide Sparse;
    if d in s.rates {
      var w := s.rates[d];
      SparseLive(QueueOf(s, d), w, now);
      LiveBound(QueueOf(s, d), w, now);
      if w.start + RATE_WINDOW <= now {
        SparseNewWindow(Live(QueueOf(s, d), now), w, now);
      }
    } else {
      SparseEmpty(Window(now, 0));
    }
  }

  lemma LockedKeepsInv(s: AuthInner, d: Id, nonce: Id, clock: nat, now: nat, x: Id)
    requires DeviceInv(s, d, clock) && DeviceInv(s, x, clock) && clock <= now
    ensures DeviceInv(Locked(s, d, nonce, now).0, x, now)
  {
    hide Sparse;
    if x == d {
      AttemptSparse(s, d, clock, now);
      var live, w := Live(QueueOf(s, d), now), WindowFor(s, d, now);
      if d in s.rates {
        SparseLive(QueueOf(s, d), s.rates[d], now);
      }
      if w.count < RATE_LIMIT_PER_DEVICE {
        SparseSameWindow(live, w, Seen(nonce, now + NONCE_TTL));
      }
    }
  }

  /** A live nonce is never pushed out: an accepted nonce is simply added to those still alive. */
  lemma NoLiveNonceEvicted(s: AuthInner, d: Id, nonce: Id, clock: nat, now: nat)
    requires DeviceInv(s, d, clock) && clock <= now
    ensures var (s', r) := Locked(s, d, nonce, now);
            QueueOf(s', d) == Live(QueueOf(s, d), now) + if r.Ok? then [Seen(nonce, now + NONCE_TTL)] else []
  {
    AttemptSparse(s, d, clock, now);
  }

  // ----- Runs -----

  datatype Attempt = Attempt(request: Request, wall: u64, now: nat)

  function Run(p: Primitives, attempts: seq<Attempt>): AuthInner {
    if attempts == [] then EMPTY
    else After(p, Run(p, attempts[..|attempts| - 1]), attempts[|attempts| - 1])
  }

  function After(p: Primitives, s: AuthInner, a: Attempt): AuthInner {
    Authenticated(p, s, a.request, a.wall, a.now).0
  }

  function AnswerTo(p: Primitives, earlier: seq<Attempt>, a: Attempt): Result<Id, AuthError> {
    Authenticated(p, Run(p, earlier), a.request, a.wall, a.now).1
  }

  function Clock(attempts: seq<Attempt>): nat {
    if attempts == [] then 0 else attempts[|attempts| - 1].now
  }

  predicate Monotone(attempts: seq<Attempt>) {
    forall i, j :: 0 <= i <= j < |attempts| ==> attempts[i].now <= attempts[j].now
  }

  lemma AfterKeepsInv(p: Primitives, s: AuthInner, clock: nat, a: Attempt)
    requires AuthInv(s, clock) && clock <= a.now
    ensures AuthInv(After(p, s, a), a.now)
  {
    hide Sparse, Locked;
    forall x ensures DeviceInv(After(p, s, a), x, a.now) {
      assert DeviceInv(s, x, clock) && DeviceInv(s, a.request.deviceId, clock);
      LockedKeepsInv(s, a.request.deviceId, a.request.nonce, clock, a.now, x);
    }
  }

  lemma {:induction false} RunKeepsInv(p: Primitives, attempts: seq<Attempt>)
    requires Monotone(attempts)
    ensures AuthInv(Run(p, attempts), Clock(attempts))
  {
    if attempts == [] {
    } else {
      hide AuthInv, After;
      var front := attempts[..|attempts| - 1];
      RunKeepsInv(p, front);
      AfterKeepsInv(p, Run(p, front), Clock(front), attempts[|attempts| - 1]);
    }
  }

  /** In every run under a monotone clock, no device ever has more than 720 nonces that are still alive,
      so the capacity of 1024 is never reached. */
  lemma AtMost720LiveNonces(p: Primitives, attempts: seq<Attempt>, d: Id, now: nat)
    requires Monotone(attempts) && Clock(attempts) <= now
    ensures |Live(QueueOf(Run(p, attempts), d), now)| <= MAX_LIVE_NONCES < MAX_NONCES_PER_DEVICE
  {
    RunKeepsInv(p, attempts);
    assert DeviceInv(Run(p, attempts), d, Clock(attempts));
    AttemptSparse(Run(p, attempts), d, Clock(attempts), now);
  }

  // ----- Replay -----

  predicate Remembers(s: AuthInner, d: Id, e: Seen) {
    e in QueueOf(s, d)
  }

  lemma AfterRemembers(p: Primitives, s: AuthInner, clock: nat, a: Attempt, d: Id, e: Seen)
    requires AuthInv(s, clock) && clock <= a.now < e.expires && Remembers(s, d, e)
    ensures Remembers(After(p, s, a), d, e)
  {
    hide Sparse;
    if a.request.deviceId == d {
      assert DeviceInv(s, d, clock);
      NoLiveNonceEvicted(s, d, a.request.nonce, clock, a.now);
      FilterMembers(QueueOf(s, d), LiveAt(a.now));
    }
  }

  lemma {:induction false} RunRemembers(p: Primitives, before: seq<Attempt>, after: seq<Attempt>, d: Id, e: Seen)
    requires Monotone(before + after) && Remembers(Run(p, before), d, e)
    requires Clock(before + after) < e.expires
    ensures Remembers(Run(p, before + after), d, e)
  {
    if after == [] {
      assert before + after == before;
    } else {
      var front, last := after[..|after| - 1], after[|after| - 1];
      var all := before + after;
      assert all[..|all| - 1] == before + front;
      assert Clock(before + front) <= last.now by {
        if before + front != [] {
          assert (before + front)[|before + front| - 1] == all[|all| - 2];
        }
      }
      RunRemembers(p, before, front, d, e);
      RunKeepsInv(p, before + front);
      AfterRemembers(p, Run(p, before + front), Clock(before + front), last, d, e);
    }
  }

  lemma AcceptedIsRemembered(p: Primitives, before: seq<Attempt>, a: Attempt)
    requires Monotone(before + [a]) && AnswerTo(p, before, a).Ok?
    ensures Remembers(Run(p, before + [a]), a.request.deviceId, Seen(a.request.nonce, a.now + NONCE_TTL))
  {
    assert (before + [a])[..|before|] == before;
  }

  /** The instant of the nonce check is at most `lag` after the clock reading of the timestamp check: the wait for
      the lock lies between them. */
  predicate Within(a: Attempt, lag: nat) {
    a.wall <= a.now <= a.wall + lag
  }

  /** While the nonce of an accepted request is alive, every request of the device with that nonce is refused. */
  lemma LiveNonceIsRefused(p: Primitives, before: seq<Attempt>, first: Attempt, after: seq<Attempt>, again: Attempt)
    requires Monotone(before + [first] + after + [again]) && AnswerTo(p, before, first).Ok?
    requires again.request.deviceId == first.request.deviceId && again.request.nonce == first.request.nonce
    requires again.now < first.now + NONCE_TTL
    ensures AnswerTo(p, before + [first] + after, again).Err?
  {
    var e, d := Seen(first.request.nonce, first.now + NONCE_TTL), first.request.deviceId;
    var run := before + [first] + after;
    MonotonePrefix(run, again);
    MonotoneParts(before + [first], after);
    AcceptedIsRemembered(p, before, first);
    RunRemembers(p, before + [first], after, d, e);
    var queue := QueueOf(Run(p, run), d);
    FilterMembers(queue, LiveAt(again.now));
    assert e in Live(queue, again.now);
    assert HasNonce(Live(queue, again.now), e.nonce);
  }

  lemma MonotonePrefix(run: seq<Attempt>, last: Attempt)
    requires Monotone(run + [last])
    ensures Monotone(run) && Clock(run) <= last.now
  {
    var all := run + [last];
    forall i, j | 0 <= i <= j < |run| ensures run[i].now <= run[j].now {
      assert all[i] == run[i] && all[j] == run[j];
    }
    if run != [] {
      assert all[|run| - 1] == run[|run| - 1] && all[|run|] == last;
    }
  }

  lemma MonotoneParts(a: seq<Attempt>, b: seq<Attempt>)
    requires Monotone(a + b)
    ensures Monotone(a)
  {
    forall i, j | 0 <= i <= j < |a| ensures a[i].now <= a[j].now {
      assert (a + b)[i] == a[i] && (a + b)[j] == a[j];
    }
  }

  ghost predicate AcceptedAgain(p: Primitives, before: seq<Attempt>, first: Attempt, after: seq<Attempt>,
                                again: Attempt, lag: nat) {
    && again.request == first.request
    && (forall a :: a in after + [again] ==> Within(a, lag))
    && Monotone(before + [first] + after + [again])
    && AnswerTo(p, before + [first] + after, again).Ok?
  }

  ghost predicate Replayable(p: Primitives, before: seq<Attempt>, first: Attempt, lag: nat) {
    exists after, again :: AcceptedAgain(p, before, first, after, again, lag)
  }

  /** When no request waits longer than `lag` for the lock: a request accepted at instant `first.now` can be accepted
      again in some continuation of the run exactly when its timestamp is at most `lag` earlier than that instant
      (and the clock can still show a time that allows it). */
  lemma ReplayableExactlyWhen(p: Primitives, before: seq<Attempt>, first: Attempt, lag: nat)
    requires Monotone(before + [first]) && Within(first, lag) && AnswerTo(p, before, first).Ok?
    ensures Replayable(p, before, first, lag) <==>
            first.request.timestampMs + lag >= first.now && first.now + NONCE_TTL <= U64_MAX + lag
  {
    forall after, again | AcceptedAgain(p, before, first, after, again, lag)
      ensures first.request.timestampMs + lag >= first.now && first.now + NONCE_TTL <= U64_MAX + lag
    {
      assert again in after + [again];
      if again.now < first.now + NONCE_TTL {
        LiveNonceIsRefused(p, before, first, after, again);
      }
    }
    if first.request.timestampMs + lag >= first.now && first.now + NONCE_TTL <= U64_MAX + lag {
      var again := AcceptedFiveMinutesLater(p, before, first, lag);
    }
  }

  /** Without any wait, on one clock: exactly when its timestamp is not earlier than its acceptance. */
  lemma ReplayableWithoutWaiting(p: Primitives, before: seq<Attempt>, first: Attempt)
    requires Monotone(before + [first]) && first.wall == first.now && AnswerTo(p, before, first).Ok?
    ensures Replayable(p, before, first, 0) <==>
            first.request.timestampMs >= first.now && first.now + NONCE_TTL <= U64_MAX
  {
    ReplayableExactlyWhen(p, before, first, 0);
  }

  lemma ForgottenAfterTtl(s: AuthInner, d: Id, nonce: Id, clock: nat, now: nat)
    requires DeviceInv(s, d, clock) && clock <= now && Locked(s, d, nonce, now).1.Ok?
    ensures var s' := Locked(s, d, nonce, now).0;
            Locked(s', d, nonce, now + NONCE_TTL).1.Ok?
  {
    hide Sparse;
    NoLiveNonceEvicted(s, d, nonce, clock, now);
    AttemptSparse(s, d, clock, now);
    var s', t := Locked(s, d, nonce, now).0, now + NONCE_TTL;
    var kept, queue := Live(QueueOf(s, d), now), QueueOf(s', d);
    FilterMembers(queue, LiveAt(t));
    var live := Live(queue, t);
    forall i | 0 <= i < |live| ensures live[i].nonce != nonce {
      assert live[i] in queue && live[i] in kept;
      var j :| 0 <= j < |kept| && kept[j] == live[i];
    }
  }

  /** The second acceptance: as soon as the nonce is forgotten, with the latest clock reading the timestamp allows. */
  lemma AcceptedFiveMinutesLater(p: Primitives, before: seq<Attempt>, first: Attempt, lag: nat)
    returns (again: Attempt)
    requires Monotone(before + [first]) && Within(first, lag) && AnswerTo(p, before, first).Ok?
    requires first.request.timestampMs + lag >= first.now && first.now + NONCE_TTL <= U64_MAX + lag
    ensures AcceptedAgain(p, before, first, [], again, lag)
  {
    hide Sparse, Locked, SigningBytes, Monotone;
    var t, d := first.now + NONCE_TTL, first.request.deviceId;
    var latest := SatAdd(first.request.timestampMs, MAX_CLOCK_SKEW_MS);
    again := Attempt(first.request, if t <= latest then t else latest, t);
    assert forall a :: a in [] + [again] ==> a == again;
    var run := before + [first];
    assert run + [] == run && run[..|before|] == before;
    MonotonePrefix(before, first);
    RunKeepsInv(p, before);
    assert DeviceInv(Run(p, before), d, Clock(before));
    ForgottenAfterTtl(Run(p, before), d, first.request.nonce, Clock(before), first.now);
    MonotoneExtends(run, again);
  }

  lemma MonotoneExtends(run: seq<Attempt>, last: Attempt)
    requires Monotone(run) && Clock(run) <= last.now
    ensures Monotone(run + [last])
  {
    var all := run + [last];
    forall i, j | 0 <= i <= j < |all| ensures all[i].now <= all[j].now {
      if j == |run| && i < |run| {
        assert run[i].now <= run[|run| - 1].now;
      }
    }
  }
}
