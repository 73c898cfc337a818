/** Properties of the relay over whole runs of pushes, pulls and acknowledgements. */
module RelayRuns {
  import opened Prelude
  import opened Protocol
  import opened Sums
  import opened Relay

  datatype RelayEvent =
    | PushEvent(message: EncryptedMessage, now: u64)
    | PullEvent(device: Id, now: u64)
    | AckEvent(device: Id, messageId: Id)

  ghost function Step(r: RelayState, e: RelayEvent): RelayState {
    match e
    case PushEvent(m, now) => Push(r, m, now).0
    case PullEvent(d, now) => Pull(r, d, now).0
    case AckEvent(d, id) => Ack(r, d, id).0
  }

  ghost function Run(events: seq<RelayEvent>): RelayState {
    if events == [] then EMPTY else Step(Run(events[..|events| - 1]), events[|events| - 1])
  }

  lemma StepKeepsInv(r: RelayState, e: RelayEvent)
    requires RelayInv(r)
    ensures RelayInv(Step(r, e))
  {
    hide RelayInv;
    match e
    case PushEvent(m, now) => PushKeepsInv(r, m, now);
    case PullEvent(d, now) => PullKeepsInv(r, d, now);
    case AckEvent(d, id) => AckKeepsInv(r, d, id);
  }

  /** Whatever the clock does, every limit holds after every run. */
  lemma {:induction false} RunKeepsInv(events: seq<RelayEvent>)
    ensures RelayInv(Run(events))
  {
    if events == [] {
    } else {
      RunKeepsInv(events[..|events| - 1]);
      StepKeepsInv(Run(events[..|events| - 1]), events[|events| - 1]);
    }
  }

  // ----- Conservation: every accepted message is stored, acknowledged or expired -----

  function ExpiredNow(r: RelayState, d: Id, now: u64): int {
    |QueueOf(r, d)| - |Unexpired(QueueOf(r, d), now)|
  }

  function ExpiredBy(r: RelayState, e: RelayEvent): int {
    match e
    case PushEvent(m, now) =>
      if ValidMessage(m) && Timely(m, now) then ExpiredNow(r, m.recipientDeviceId, now) else 0
    case PullEvent(d, now) => ExpiredNow(r, d, now)
    case AckEvent(_, _) => 0
  }

  function AckedBy(r: RelayState, e: RelayEvent): int {
    if e.AckEvent? && Ack(r, e.device, e.messageId).1 then 1 else 0
  }

  /** The number of messages dropped because they expired, over a whole run. */
  ghost function Expired(events: seq<RelayEvent>): int {
    if events == [] then 0
    else Expired(events[..|events| - 1]) + ExpiredBy(Run(events[..|events| - 1]), events[|events| - 1])
  }

  /** The number of acknowledgements that answered true, over a whole run. */
  ghost function Acked(events: seq<RelayEvent>): int {
    if events == [] then 0
    else Acked(events[..|events| - 1]) + AckedBy(Run(events[..|events| - 1]), events[|events| - 1])
  }

  lemma PurgeBalance(r: RelayState, d: Id, now: u64)
    ensures TotalMessages(Purged(r, d, now).queues) + ExpiredNow(r, d, now) == TotalMessages(r.queues)
    ensures QueueOf(Purged(r, d, now), d) == Unexpired(QueueOf(r, d), now)
  {
    hide TotalMessages, TotalBytes;
    if d in r.queues {
      Replace(r.queues, d, Unexpired(r.queues[d], now));
    }
  }

  lemma StepBalance(r: RelayState, e: RelayEvent)
    requires RelayInv(r)
    ensures TotalMessages(Step(r, e).queues) + ExpiredBy(r, e) + AckedBy(r, e) - TotalMessages(r.queues)
            == |Step(r, e).log| - |r.log|
  {
    match e
    case PushEvent(m, now) => PushBalance(r, m, now);
    case PullEvent(d, now) =>
      PurgeBalance(r, d, now);
      PurgedKeepsInv(r, d, now);
      DropKeepsInv(Purged(r, d, now), d);
    case AckEvent(d, id) => AckBalance(r, d, id);
  }

  lemma PushBalance(r: RelayState, m: EncryptedMessage, now: u64)
    requires RelayInv(r)
    ensures TotalMessages(Push(r, m, now).0.queues) + ExpiredBy(r, PushEvent(m, now)) - TotalMessages(r.queues)
            == |Push(r, m, now).0.log| - |r.log|
  {
    hide TotalMessages, TotalBytes, RelayInv;
    if ValidMessage(m) && Timely(m, now) {
      var d := m.recipientDeviceId;
      var p, q := Purged(r, d, now), Unexpired(QueueOf(r, d), now);
      PurgeBalance(r, d, now);
      Replace(p.queues, d, q + [NewEntry(p, m, now)]);
    }
  }

  lemma AckBalance(r: RelayState, d: Id, id: Id)
    requires RelayInv(r)
    ensures TotalMessages(Ack(r, d, id).0.queues) + AckedBy(r, AckEvent(d, id)) == TotalMessages(r.queues)
    ensures Ack(r, d, id).0.log == r.log
  {
    hide TotalMessages, TotalBytes;
    if d in r.queues {
      var q := r.queues[d];
      WithoutRemovesOne(q, d, r.log, id);
      if HasId(q, id) {
        var i :| 0 <= i < |q| && q[i].message.messageId == id;
        assert q[i] in q;
      }
      Replace(r.queues, d, Without(q, id));
      assert r.queues[d := Without(q, id)] - {d} == r.queues - {d};
    }
  }

  lemma {:induction false} AcceptedIsStoredAckedOrExpired(events: seq<RelayEvent>)
    ensures |Run(events).log| == TotalMessages(Run(events).queues) + Acked(events) + Expired(events)
  {
    if events == [] {
    } else {
      var front := events[..|events| - 1];
      AcceptedIsStoredAckedOrExpired(front);
      RunKeepsInv(front);
      StepBalance(Run(front), events[|events| - 1]);
    }
  }

  // ----- Refinement of an event log -----

  /** `Looked`: a pull, or a push that passed its checks, pruned the queue of a device at a clock reading. */
  datatype LogEntry =
    | WasAccepted(stored: Stored)
    | WasAcked(device: Id, messageId: Id)
    | Looked(device: Id, now: u64)

  ghost function EntriesOf(r: RelayState, e: RelayEvent): seq<LogEntry> {
    match e
    case PushEvent(m, now) =>
      var result := Push(r, m, now).1;
      if result == Invalid then []
      else if result == Accepted then [Looked(m.recipientDeviceId, now), WasAccepted(NewEntry(r, m, now))]
      else [Looked(m.recipientDeviceId, now)]
    case PullEvent(d, now) => [Looked(d, now)]
    case AckEvent(d, id) => [WasAcked(d, id)]
  }

  /** The acceptances, acknowledgements and looks of a run, in order. */
  ghost function History(events: seq<RelayEvent>): seq<LogEntry> {
    if events == [] then []
    else History(events[..|events| - 1]) + EntriesOf(Run(events[..|events| - 1]), events[|events| - 1])
  }

  /** One log entry, seen from the queue of `d`. */
  function Effect(q: Queue, entry: LogEntry, d: Id): Queue {
    match entry
    case WasAccepted(s) => if s.message.recipientDeviceId == d then q + [s] else q
    case WasAcked(x, id) => if x == d then Without(q, id) else q
    case Looked(x, t) => if x == d then Unexpired(q, t) else q
  }

  /** What the log says is stored for `d`, in acceptance order. */
  function Waiting(h: seq<LogEntry>, d: Id): Queue {
    if h == [] then [] else Effect(Waiting(h[..|h| - 1], d), h[|h| - 1], d)
  }

  /** The entry takes `s` out of the queue of `d`. */
  predicate Removes(entry: LogEntry, d: Id, s: Stored) {
    || entry == WasAcked(d, s.message.messageId)
    || (entry.Looked? && entry.device == d && s.expiresAtMs <= entry.now)
  }

  ghost predicate AcceptedAndKept(h: seq<LogEntry>, d: Id, s: Stored) {
    exists i :: 0 <= i < |h| && h[i] == WasAccepted(s) && forall j :: i < j < |h| ==> !Removes(h[j], d, s)
  }

  lemma KeptStep(h: seq<LogEntry>, e: LogEntry, d: Id, s: Stored)
    ensures AcceptedAndKept(h + [e], d, s) <==> e == WasAccepted(s) || (AcceptedAndKept(h, d, s) && !Removes(e, d, s))
  {
    var all := h + [e];
    hide Removes;
    assert all[|h|] == e;
    if AcceptedAndKept(all, d, s) {
      var i :| 0 <= i < |all| && all[i] == WasAccepted(s) && forall j :: i < j < |all| ==> !Removes(all[j], d, s);
      if i < |h| {
        assert h[i] == WasAccepted(s);
        forall j | i < j < |h| ensures !Removes(h[j], d, s) {
          assert all[j] == h[j];
        }
      }
    }
    if AcceptedAndKept(h, d, s) && !Removes(e, d, s) {
      var i :| 0 <= i < |h| && h[i] == WasAccepted(s) && forall j :: i < j < |h| ==> !Removes(h[j], d, s);
      assert all[i] == WasAccepted(s);
      forall j | i < j < |all| ensures !Removes(all[j], d, s) {
        assert j < |h| ==> all[j] == h[j];
      }
    }
  }

  /** Waiting means: accepted for `d`, and since then neither acknowledged nor looked at after its expiry. */
  lemma {:induction false} WaitingMeaning(h: seq<LogEntry>, d: Id, s: Stored)
    ensures s in Waiting(h, d) <==> s.message.recipientDeviceId == d && AcceptedAndKept(h, d, s)
  {
    if h == [] {
    } else {
      var front, last := h[..|h| - 1], h[|h| - 1];
      WaitingMeaning(front, d, s);
      assert h == front + [last];
      KeptStep(front, last, d, s);
      hide AcceptedAndKept;
      match last
      case WasAccepted(_) =>
      case WasAcked(_, id) => FilterMembers(Waiting(front, d), Not(id));
      case Looked(_, t) => FilterMembers(Waiting(front, d), LiveAt(t));
    }
  }

  lemma QueueAfterPush(r: RelayState, m: EncryptedMessage, t: u64, d: Id)
    ensures var (r', result) := Push(r, m, t);
            QueueOf(r', d) ==
              if d != m.recipientDeviceId || result == Invalid then QueueOf(r, d)
              else Unexpired(QueueOf(r, d), t) + if result == Accepted then [NewEntry(r, m, t)] else []
  {
    hide TotalMessages, TotalBytes;
  }

  lemma QueueAfterPull(r: RelayState, x: Id, t: u64, d: Id)
    ensures QueueOf(Pull(r, x, t).0, d) == if d == x then Unexpired(QueueOf(r, d), t) else QueueOf(r, d)
    ensures Pull(r, x, t).1 == Messages(Unexpired(QueueOf(r, x), t))
  {
  }

  lemma QueueAfterAck(r: RelayState, x: Id, id: Id, d: Id)
    ensures QueueOf(Ack(r, x, id).0, d) == if d == x then Without(QueueOf(r, d), id) else QueueOf(r, d)
  {
  }

  lemma WaitingStep(h: seq<LogEntry>, e: LogEntry, d: Id)
    ensures Waiting(h + [e], d) == Effect(Waiting(h, d), e, d)
  {
    assert (h + [e])[..|h|] == h;
  }

  lemma StepRefinesLog(r: RelayState, h: seq<LogEntry>, e: RelayEvent, d: Id)
    requires QueueOf(r, d) == Waiting(h, d)
    ensures QueueOf(Step(r, e), d) == Waiting(h + EntriesOf(r, e), d)
  {
    hide Push, Pull, Ack, Waiting, QueueOf, Filter;
    match e
    case PushEvent(m, t) =>
      QueueAfterPush(r, m, t, d);
      var looked := Looked(m.recipientDeviceId, t);
      WaitingStep(h, looked, d);
      WaitingStep(h + [looked], WasAccepted(NewEntry(r, m, t)), d);
      assert h + [] == h;
      assert h + [looked] + [WasAccepted(NewEntry(r, m, t))] == h + [looked, WasAccepted(NewEntry(r, m, t))];
    case PullEvent(x, t) =>
      QueueAfterPull(r, x, t, d);
      WaitingStep(h, Looked(x, t), d);
    case AckEvent(x, id) =>
      QueueAfterAck(r, x, id, d);
      WaitingStep(h, WasAcked(x, id), d);
  }

  /** The store refines the log: whatever the clock readings, each queue is exactly what the log says. */
  lemma {:induction false} QueueRefinesLog(events: seq<RelayEvent>, d: Id)
    ensures QueueOf(Run(events), d) == Waiting(History(events), d)
  {
    if events == [] {
    } else {
      var front, e := events[..|events| - 1], events[|events| - 1];
      QueueRefinesLog(front, d);
      StepRefinesLog(Run(front), History(front), e, d);
    }
  }

  /** A pull answers, in acceptance order, what the log says is stored, without what has expired by its reading. */
  lemma PullReturnsTheLog(events: seq<RelayEvent>, d: Id, now: u64)
    ensures Pull(Run(events), d, now).1 == Messages(Unexpired(Waiting(History(events), d), now))
  {
    QueueAfterPull(Run(events), d, now, d);
    QueueRefinesLog(events, d);
  }

  // ----- Readings that do not step back -----

  /** What is stored for `d` and alive at `now`, if nobody looked. */
  function LiveIn(h: seq<LogEntry>, d: Id, now: u64): Queue {
    if h == [] then []
    else
      var front := LiveIn(h[..|h| - 1], d, now);
      match h[|h| - 1]
      case WasAccepted(s) =>
        if s.message.recipientDeviceId == d && s.expiresAtMs > now then front + [s] else front
      case WasAcked(x, id) => if x == d then Without(front, id) else front
      case Looked(_, _) => front
  }

  /** Live means: accepted for `d`, not expired, and not acknowledged since that acceptance. */
  lemma {:induction false} LiveInMeaning(h: seq<LogEntry>, d: Id, now: u64, s: Stored)
    ensures s in LiveIn(h, d, now) <==>
            && s.message.recipientDeviceId == d && s.expiresAtMs > now
            && exists i :: 0 <= i < |h| && h[i] == WasAccepted(s)
                        && forall j :: i < j < |h| ==> h[j] != WasAcked(d, s.message.messageId)
  {
    if h == [] {
    } else {
      var front, last := h[..|h| - 1], h[|h| - 1];
      LiveInMeaning(front, d, now, s);
      if last.WasAcked? {
        FilterMembers(LiveIn(front, d, now), Not(last.messageId));
      }
      if i :| 0 <= i < |front| && front[i] == WasAccepted(s)
              && forall j :: i < j < |front| ==> front[j] != WasAcked(d, s.message.messageId)
      {
        assert h[i] == WasAccepted(s);
        if last != WasAcked(d, s.message.messageId) {
          forall j | i < j < |h| ensures h[j] != WasAcked(d, s.message.messageId) {
            if j < |front| { assert h[j] == front[j]; }
          }
        }
      }
      if i :| 0 <= i < |h| && h[i] == WasAccepted(s)
              && forall j :: i < j < |h| ==> h[j] != WasAcked(d, s.message.messageId)
      {
        if i < |front| {
          assert front[i] == WasAccepted(s);
          assert h[|h| - 1] != WasAcked(d, s.message.messageId);
          forall j | i < j < |front| ensures front[j] != WasAcked(d, s.message.messageId) {
            assert front[j] == h[j];
          }
        }
      }
    }
  }

  /** No look at the queue of `d` used a reading later than `now`. */
  predicate LooksBy(h: seq<LogEntry>, d: Id, now: u64) {
    forall i :: 0 <= i < |h| && h[i].Looked? && h[i].device == d ==> h[i].now <= now
  }

  lemma EffectUnseen(q: Queue, entry: LogEntry, d: Id, now: u64)
    requires entry.Looked? && entry.device == d ==> entry.now <= now
    ensures Unexpired(Effect(q, entry, d), now) ==
            match entry
            case WasAccepted(s) =>
              if s.message.recipientDeviceId == d && s.expiresAtMs > now then Unexpired(q, now) + [s]
              else Unexpired(q, now)
            case WasAcked(x, id) => if x == d then Without(Unexpired(q, now), id) else Unexpired(q, now)
            case Looked(_, _) => Unexpired(q, now)
  {
    hide Filter;
    match entry
    case WasAccepted(s) =>
      FilterAppend(q, s, LiveAt(now));
      assert Unexpired(q, now) + [] == Unexpired(q, now);
    case WasAcked(_, id) => FilterCommutes(q, Not(id), LiveAt(now));
    case Looked(x, t) => if x == d { FilterAbsorbs(q, LiveAt(t), LiveAt(now)); }
  }

  /** Looks with earlier readings leave no trace in what is alive now. */
  lemma {:induction false} LooksAreUnseen(h: seq<LogEntry>, d: Id, now: u64)
    requires LooksBy(h, d, now)
    ensures Unexpired(Waiting(h, d), now) == LiveIn(h, d, now)
  {
    if h == [] {
    } else {
      var front, last := h[..|h| - 1], h[|h| - 1];
      assert forall i :: 0 <= i < |front| ==> front[i] == h[i];
      LooksAreUnseen(front, d, now);
      EffectUnseen(Waiting(front, d), last, d, now);
      hide Effect, Unexpired, Without;
    }
  }

  /** When no earlier pull or push looked at the device with a later reading, a pull answers, in acceptance order,
      exactly the messages accepted for the device, not expired and not acknowledged since. */
  lemma PullReturnsTheLive(events: seq<RelayEvent>, d: Id, now: u64)
    requires LooksBy(History(events), d, now)
    ensures Pull(Run(events), d, now).1 == Messages(LiveIn(History(events), d, now))
  {
    hide Pull, LooksBy;
    PullReturnsTheLog(events, d, now);
    LooksAreUnseen(History(events), d, now);
  }

  /** Serials of accepted messages grow along the log, so each acceptance has one place in it. */
  ghost predicate Numbered(h: seq<LogEntry>, accepted: nat) {
    && (forall i :: 0 <= i < |h| && h[i].WasAccepted? ==> h[i].stored.serial < accepted)
    && (forall i, j :: 0 <= i < j < |h| && h[i].WasAccepted? && h[j].WasAccepted? ==>
          h[i].stored.serial < h[j].stored.serial)
  }

  lemma NumberedMore(h: seq<LogEntry>, r: RelayState, e: RelayEvent)
    requires Numbered(h, |r.log|)
    ensures Numbered(h + EntriesOf(r, e), |Step(r, e).log|)
  {
    hide TotalMessages, TotalBytes, Unexpired, HasId;
  }

  lemma {:induction false} HistoryIsNumbered(events: seq<RelayEvent>)
    ensures Numbered(History(events), |Run(events).log|)
  {
    if events == [] {
    } else {
      var front := events[..|events| - 1];
      HistoryIsNumbered(front);
      hide Numbered, Step, EntriesOf;
      NumberedMore(History(front), Run(front), events[|events| - 1]);
    }
  }

  /** Exactly when a pull misses a message that is alive by its own reading: some look between the acceptance and the
      pull used a reading at or after the expiry. */
  lemma PullMissesExactlyWhen(events: seq<RelayEvent>, d: Id, now: u64, i: nat)
    requires i < |History(events)| && History(events)[i].WasAccepted?
    requires History(events)[i].stored in LiveIn(History(events), d, now)
    ensures var h, s := History(events), History(events)[i].stored;
            s !in Unexpired(Waiting(h, d), now) <==>
            exists j :: i < j < |h| && h[j].Looked? && h[j].device == d && s.expiresAtMs <= h[j].now
  {
    var h, s := History(events), History(events)[i].stored;
    HistoryIsNumbered(events);
    WaitingMeaning(h, d, s);
    LiveInMeaning(h, d, now, s);
    FilterMembers(Waiting(h, d), LiveAt(now));
    hide History, Waiting, LiveIn, Filter;
    assert forall k :: 0 <= k < |h| && h[k] == WasAccepted(s) ==> k == i;
  }

  /** The latest clock reading used by a run. */
  function ClockAfter(events: seq<RelayEvent>): u64 {
    if events == [] then 0
    else
      var last := events[|events| - 1];
      if last.AckEvent? then ClockAfter(events[..|events| - 1]) else last.now
  }

  predicate Monotone(events: seq<RelayEvent>) {
    events == [] ||
    (var front, last := events[..|events| - 1], events[|events| - 1];
     Monotone(front) && (last.AckEvent? || last.now >= ClockAfter(front)))
  }

  lemma {:induction false} MonotoneLooks(events: seq<RelayEvent>, d: Id)
    requires Monotone(events)
    ensures LooksBy(History(events), d, ClockAfter(events))
  {
    if events == [] {
    } else {
      MonotoneLooks(events[..|events| - 1], d);
      hide Push;
    }
  }

  /** In particular for readings that never decrease in the order of the lock. */
  lemma PullUnderMonotoneReadings(events: seq<RelayEvent>, d: Id, now: u64)
    requires Monotone(events) && now >= ClockAfter(events)
    ensures Pull(Run(events), d, now).1 == Messages(LiveIn(History(events), d, now))
  {
    hide Pull, History;
    MonotoneLooks(events, d);
    PullReturnsTheLive(events, d, now);
  }
}
