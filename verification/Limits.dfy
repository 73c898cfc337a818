/** Where the guarantees of the delivery protocol end: runs that show what it does not promise. */
module Limits {
  import opened Prelude
  import opened Protocol
  import opened Sums
  import opened Relay
  import opened Connections
  import opened Gateway

  lemma RunStep(events: seq<Event>, e: Event)
    ensures Run(events + [e]) == Step(Run(events), e)
    ensures e.PullBacklog? ==> Run(events + [e]) == AfterPull(Run(events), e.session, e.now)
    ensures e.SendBacklog? ==> Run(events + [e]) == AfterSendBacklog(Run(events), e.session)
  {
    assert (events + [e])[..|events|] == events;
  }

  /** The message can be accepted at `now`, and does not expire in the same instant. */
  predicate Sendable(m: EncryptedMessage, now: u64) {
    ValidMessage(m) && Timely(m, now) && now < U64_MAX
  }

  ghost predicate EmptyRelay(r: RelayState) {
    r.queues == map[]
  }

  /** The relay after one push of `m` into an empty store. */
  function OnlyEntry(log: seq<EncryptedMessage>, m: EncryptedMessage, now: u64): RelayState {
    RelayState(map[m.recipientDeviceId := [Stored(m, SatAdd(now, OFFLINE_TTL_MS), MessageSize(m), |log|)]], log + [m])
  }

  lemma PushIntoEmpty(r: RelayState, m: EncryptedMessage, now: u64)
    requires Sendable(m, now) && EmptyRelay(r)
    ensures Relay.Push(r, m, now) == (OnlyEntry(r.log, m, now), Accepted)
  {
    var d := m.recipientDeviceId;
    assert Unexpired([], now) == [] && Purged(r, d, now) == r && QueueOf(r, d) == [];
    assert Counts(r.queues) == map[] && Sizes(r.queues) == map[];
    assert [] + [NewEntry(r, m, now)] == [NewEntry(r, m, now)];
    assert r.queues[d := [NewEntry(r, m, now)]] == map[d := [NewEntry(r, m, now)]];
  }

  lemma PullOnlyEntry(log: seq<EncryptedMessage>, m: EncryptedMessage, now: u64)
    requires Sendable(m, now)
    ensures var r, d := OnlyEntry(log, m, now), m.recipientDeviceId;
            Relay.Pull(r, d, now).0 == r && Tickets(Unexpired(QueueOf(r, d), now)) == [Ticket(|log|, m)]
  {
    var r, d := OnlyEntry(log, m, now), m.recipientDeviceId;
    var q := r.queues[d];
    FilterAppend([], q[0], LiveAt(now));
    assert [] + [q[0]] == q && Unexpired(q, now) == q;
    assert r.queues[d := q] == r.queues;
  }

  lemma AckOnlyEntry(log: seq<EncryptedMessage>, m: EncryptedMessage, now: u64)
    ensures var r := OnlyEntry(log, m, now);
            Relay.Ack(r, m.recipientDeviceId, m.messageId).0 == RelayState(map[], r.log)
  {
    var r, d := OnlyEntry(log, m, now), m.recipientDeviceId;
    var q := r.queues[d];
    FilterAppend([], q[0], Not(m.messageId));
    assert [] + [q[0]] == q && Without(q, m.messageId) == [];
    assert r.queues[d := []] - {d} == map[];
  }

  /** A gateway with session 1 as its only session, registered for device `d`. */
  function Solo(relay: RelayState, inFlight: set<Ticket>, ready: bool, pending: seq<Ticket>, channel: seq<Ticket>,
                s: Session): Gateway {
    Gateway(relay, inFlight, Registry(map[s.device := Connection(1, ready, pending)], map[1 := channel], 2),
            map[1 := s])
  }

  lemma SoloStart(relay: RelayState, inFlight: set<Ticket>, d: Id)
    ensures var g := AfterReserve(Gateway(relay, inFlight, Connections.EMPTY, map[]), d);
            AfterRegister(g, 1) == Solo(relay, inFlight, false, [], [], Session(d, Greeting, [], 0, [], {}, {}))
  {
  }

  lemma SoloPull(relay: RelayState, inFlight: set<Ticket>, d: Id, now: u64, t: Ticket)
    requires Relay.Pull(relay, d, now).0 == relay && Tickets(Unexpired(QueueOf(relay, d), now)) == [t]
    ensures var g := AfterPull(Solo(relay, inFlight, false, [], [], Session(d, Greeting, [], 0, [], {}, {})), 1, now);
            AfterSendBacklog(g, 1) == Solo(relay, inFlight, false, [], [], Session(d, Flushing, [t], 1, [], {}, {}))
  {
    hide Relay.Pull, Tickets, Unexpired, QueueOf;
  }

  lemma SoloActivate(relay: RelayState, inFlight: set<Ticket>, d: Id, t: Ticket, pending: seq<Ticket>)
    requires forall u :: u in pending ==> u.message.messageId == t.message.messageId
    requires |pending| <= 1
    ensures var g := Solo(relay, inFlight, false, pending, [], Session(d, Flushing, [t], 1, [], {}, {}));
            AfterActivate(g, 1) ==
              Solo(relay, inFlight, true, [], [], Session(d, Live, [t], 1, [], {}, OfferedSoFar(g)))
  {
    hide OfferedSoFar;
    assert t in [t] && t.message.messageId in Ids([t]);
    assert Flushed([], pending, Ids([t])) == [] by {
      if pending != [] { assert pending[0] in pending && pending[1..] == []; }
    }
  }

  lemma SoloOfferPending(relay: RelayState, s: Session, t: Ticket)
    requires t.message.recipientDeviceId == s.device
    ensures AfterOffer(Solo(relay, {t}, false, [], [], s), t) == Solo(relay, {}, false, [t], [], s)
  {
    assert {t} - {t} == {} && [] + [t] == [t];
    assert map[s.device := Connection(1, false, [])][s.device := Connection(1, false, [t])]
        == map[s.device := Connection(1, false, [t])];
  }

  lemma SoloOfferLive(relay: RelayState, s: Session, t: Ticket)
    requires t.message.recipientDeviceId == s.device
    ensures AfterOffer(Solo(relay, {t}, true, [], [], s), t) == Solo(relay, {}, true, [], [t], s)
  {
    assert {t} - {t} == {} && [] + [t] == [t];
    assert map[1 := []][1 := [t]] == map[1 := [t]];
  }

  lemma SoloReceive(relay: RelayState, d: Id, t: Ticket, early: set<nat>)
    ensures AfterReceive(Solo(relay, {}, true, [], [t], Session(d, Live, [t], 1, [], {}, early)), 1)
            == Solo(relay, {}, true, [], [], Session(d, Live, [t], 1, [t], {}, early))
  {
    assert [t][1..] == [] && [] + [t] == [t];
    assert map[1 := [t]][1 := []] == map[1 := []];
  }

  lemma Greets(events: seq<Event>, relay: RelayState, inFlight: set<Ticket>, d: Id) returns (longer: seq<Event>)
    requires Run(events) == Gateway(relay, inFlight, Connections.EMPTY, map[])
    ensures Run(longer) == Solo(relay, inFlight, false, [], [], Session(d, Greeting, [], 0, [], {}, {}))
  {
    SoloStart(relay, inFlight, d);
    var e1 := events + [Reserve(d)];
    longer := e1 + [Register(1)];
    RunStep(events, Reserve(d));
    RunStep(e1, Register(1));
    hide Run, Solo, AfterReserve, AfterRegister;
  }

  /** From a relay holding one message for `d` and no connection, a session sends that message as backlog. */
  lemma SendsBacklog(events: seq<Event>, inFlight: set<Ticket>, m: EncryptedMessage, now: u64)
    returns (longer: seq<Event>)
    requires Sendable(m, now)
    requires Run(events) == Gateway(OnlyEntry([], m, now), inFlight, Connections.EMPTY, map[])
    ensures Run(longer) == Solo(OnlyEntry([], m, now), inFlight, false, [], [],
                                Session(m.recipientDeviceId, Flushing, [Ticket(0, m)], 1, [], {}, {}))
  {
    var d, relay := m.recipientDeviceId, OnlyEntry([], m, now);
    var e1 := Greets(events, relay, inFlight, d);
    hide *;
    PullOnlyEntry([], m, now);
    SoloPull(relay, inFlight, d, now, Ticket(0, m));
    var e2 := e1 + [PullBacklog(1, now)];
    longer := e2 + [SendBacklog(1)];
    RunStep(e1, PullBacklog(1, now));
    RunStep(e2, SendBacklog(1));
  }

  lemma FirstPush(m: EncryptedMessage, now: u64) returns (events: seq<Event>)
    requires Sendable(m, now)
    ensures Run(events) == Gateway(OnlyEntry([], m, now), {Ticket(0, m)}, Connections.EMPTY, map[])
  {
    PushIntoEmpty(Relay.EMPTY, m, now);
    events := [] + [PushMessage(m, now)];
    RunStep([], PushMessage(m, now));
    assert Run([]) == START;
    hide Run, Relay.Push, OnlyEntry;
  }

  /** Activation, then the live offer, then the channel. */
  lemma OfferedAfterActivation(events: seq<Event>, relay: RelayState, d: Id, t: Ticket)
    returns (longer: seq<Event>, early: set<nat>)
    requires t.message.recipientDeviceId == d
    requires Run(events) == Solo(relay, {t}, false, [], [], Session(d, Flushing, [t], 1, [], {}, {}))
    ensures Run(longer) == Solo(relay, {}, true, [], [], Session(d, Live, [t], 1, [t], {}, early))
  {
    hide Run, Solo, AfterActivate, AfterOffer, AfterReceive, OfferedSoFar;
    early := OfferedSoFar(Run(events));
    SoloActivate(relay, {t}, d, t, []);
    SoloOfferLive(relay, Session(d, Live, [t], 1, [], {}, early), t);
    SoloReceive(relay, d, t, early);
    var e1 := events + [Activate(1)];
    var e2 := e1 + [Offer(t)];
    longer := e2 + [Receive(1)];
    RunStep(events, Activate(1));
    RunStep(e1, Offer(t));
    RunStep(e2, Receive(1));
  }

  /** Live delivery is not exactly-once: any message can be handed to one session twice, when its live offer
      comes after the activation. */
  lemma MessageCanBeSentTwice(m: EncryptedMessage, now: u64)
    requires Sendable(m, now)
    ensures exists events :: var g := Run(events);
              1 in g.sessions && g.sessions[1].backlog == [Ticket(0, m)] && g.sessions[1].sent == 1
              && g.sessions[1].taken == [Ticket(0, m)]
  {
    var t, relay := Ticket(0, m), OnlyEntry([], m, now);
    var events := FirstPush(m, now);
    events := SendsBacklog(events, {t}, m, now);
    var longer, early := OfferedAfterActivation(events, relay, m.recipientDeviceId, t);
    hide Run, OnlyEntry;
    assert Run(longer).sessions[1] == Session(m.recipientDeviceId, Live, [t], 1, [t], {}, early);
  }

  lemma SoloReaccept(m: EncryptedMessage, now: u64)
    requires Sendable(m, now)
    ensures var d, s := m.recipientDeviceId, Session(m.recipientDeviceId, Flushing, [Ticket(0, m)], 1, [], {}, {});
            var g := Solo(OnlyEntry([], m, now), {}, false, [], [], s);
            var gone := Gateway(Relay.Ack(g.relay, d, m.messageId).0, g.inFlight, g.registry, g.sessions);
            AfterPush(gone, m, now) == Solo(OnlyEntry([m], m, now), {Ticket(1, m)}, false, [], [], s)
  {
    AckOnlyEntry([], m, now);
    var gone := RelayState(map[], OnlyEntry([], m, now).log);
    assert gone.log == [m];
    PushIntoEmpty(gone, m, now);
    assert {} + {Ticket(1, m)} == {Ticket(1, m)};
    hide Relay.Ack, Relay.Push, OnlyEntry;
  }

  /** Acknowledged and accepted again during the flush. */
  lemma ReacceptedDuringFlush(events: seq<Event>, m: EncryptedMessage, now: u64) returns (longer: seq<Event>)
    requires Sendable(m, now)
    requires Run(events) == Solo(OnlyEntry([], m, now), {}, false, [], [],
                                 Session(m.recipientDeviceId, Flushing, [Ticket(0, m)], 1, [], {}, {}))
    ensures Run(longer) == Solo(OnlyEntry([m], m, now), {Ticket(1, m)}, false, [], [],
                                Session(m.recipientDeviceId, Flushing, [Ticket(0, m)], 1, [], {}, {}))
  {
    SoloReaccept(m, now);
    var e1 := events + [Acknowledge(m.recipientDeviceId, m.messageId)];
    longer := e1 + [PushMessage(m, now)];
    RunStep(events, Acknowledge(m.recipientDeviceId, m.messageId));
    RunStep(e1, PushMessage(m, now));
    hide OnlyEntry, Run, Relay.Ack, AfterPush;
  }

  /** Offered while the same id is being delivered with the backlog, then activated. */
  lemma OfferedDuringFlush(events: seq<Event>, relay: RelayState, d: Id, t0: Ticket, t1: Ticket)
    returns (longer: seq<Event>, early: set<nat>)
    requires t1.message.recipientDeviceId == d && t1.message.messageId == t0.message.messageId
    requires Run(events) == Solo(relay, {t1}, false, [], [], Session(d, Flushing, [t0], 1, [], {}, {}))
    ensures Run(longer) == Solo(relay, {}, true, [], [], Session(d, Live, [t0], 1, [], {}, early))
  {
    var s := Session(d, Flushing, [t0], 1, [], {}, {});
    SoloOfferPending(relay, s, t1);
    SoloActivate(relay, {}, d, t0, [t1]);
    var e1 := events + [Offer(t1)];
    longer := e1 + [Activate(1)];
    early := OfferedSoFar(Solo(relay, {}, false, [t1], [], s));
    RunStep(events, Offer(t1));
    RunStep(e1, Activate(1));
    hide Run, AfterOffer, AfterActivate, OfferedSoFar, Solo;
  }

  /** The ids of the backlog are part of the no-gap property for a reason: a message acknowledged while the
      backlog is being written, and accepted again under the same id, is suppressed on activation. It stays in
      the relay queue, but neither buffer holds it, no offer is due and it was not handed to the socket. */
  lemma ReacceptedMessageCanBeSuppressed(m: EncryptedMessage, now: u64)
    requires Sendable(m, now)
    ensures exists events :: var g, d, t := Run(events), m.recipientDeviceId, Ticket(1, m);
              && Tickets(QueueOf(g.relay, d)) == [t]
              && Owns(g.registry, d, 1) && InPhase(g, 1, {Live})
              && g.inFlight == {} && g.registry.connections[d].pending == [] && ChannelOf(g.registry, 1) == []
              && g.sessions[1].taken == [] && g.sessions[1].refused == {} && g.sessions[1].backlog == [Ticket(0, m)]
  {
    var t0 := Ticket(0, m);
    var start := FirstPush(m, now);
    var events := start + [Offer(t0)];
    RunStep(start, Offer(t0));
    assert {t0} - {t0} == {};
    events := SendsBacklog(events, {}, m, now);
    events := ReacceptedDuringFlush(events, m, now);
    var longer, early :=
      OfferedDuringFlush(events, OnlyEntry([m], m, now), m.recipientDeviceId, t0, Ticket(1, m));
    var q := QueueOf(OnlyEntry([m], m, now), m.recipientDeviceId);
    assert q == [Stored(m, SatAdd(now, OFFLINE_TTL_MS), MessageSize(m), 1)] && q[..0] == [];
    assert Tickets(q) == [Ticket(1, m)];
    hide Run, OnlyEntry, QueueOf, Tickets;
    assert Run(longer).relay == OnlyEntry([m], m, now);
  }

  /** Connection ids are handed out in order, but the entry of a device may hold an older id than one issued
      later, because the id is taken before the lock. */
  lemma OlderConnectionCanWin(d: Id)
    ensures exists events :: var g := Run(events);
              Owns(g.registry, d, 1) && 2 in g.sessions && g.sessions[2] == Session(d, Greeting, [], 0, [], {}, {})
  {
    var events: seq<Event> := [Reserve(d)];
    assert Run([]) == START && [] + events == events;
    RunStep([], Reserve(d));
    RunStep(events, Reserve(d));
    events := events + [Reserve(d)];
    hide Run;
    RunStep(events, Register(2));
    events := events + [Register(2)];
    RunStep(events, Register(1));
    events := events + [Register(1)];
  }
}
