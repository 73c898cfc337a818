/** What the delivery protocol guarantees in every interleaving, and where the guarantees end. */
module Delivery {
  import opened Prelude
  import opened Protocol
  import opened Sums
  import opened Relay
  import opened Connections
  import opened Gateway
  import opened GatewayViews
  import opened GatewayRuns
  import RelayRuns

  // ----- No gap between backlog and live routing -----

  /** Once the session registered for a device has pulled its backlog, every message in the device's relay queue
      is in that backlog, or is still to be offered, or waits in one of the two buffers, or was handed to the socket,
      or was refused by a full buffer. There is one way out, and only for a live session: the offer came before the
      activation, while the id of the message, under another acceptance, was in the backlog. */
  lemma NoMessageFallsBetween(events: seq<Event>, d: Id, x: Stored)
    requires var g := Run(events);
             && d in g.registry.connections && g.registry.connections[d].id in g.sessions
             && g.sessions[g.registry.connections[d].id].phase in {Flushing, Live}
             && x in QueueOf(g.relay, d)
    ensures var g := Run(events);
            var sid := g.registry.connections[d].id;
            var s, t := g.sessions[sid], TicketOf(x);
            || t in s.backlog
            || t in g.inFlight
            || t in g.registry.connections[d].pending
            || t in ChannelOf(g.registry, sid)
            || t in s.taken
            || t.serial in s.refused
            || (s.phase == Live && t.serial in s.early && x.message.messageId in Ids(s.backlog))
  {
    RunKeepsInv(events);
    var g := Run(events);
    RegistryHolds(g);
    assert g.sessions[g.registry.connections[d].id].device == d;
    hide *;
    StoredIsGenuine(g.relay, d, x);
    OwnerAccounts(g, d, g.registry.connections[d].id, x);
  }

  lemma OwnerAccounts(g: Gateway, d: Id, sid: nat, x: Stored)
    requires GatewayInv(g) && d in g.registry.connections && g.registry.connections[d].id == sid
    requires sid in g.sessions && g.sessions[sid].device == d && g.sessions[sid].phase in {Flushing, Live}
    requires x in QueueOf(g.relay, d) && Genuine(TicketOf(x), d, g.relay.log)
    ensures var s, t := g.sessions[sid], TicketOf(x);
            || t in s.backlog
            || t in g.inFlight
            || t in g.registry.connections[d].pending
            || t in ChannelOf(g.registry, sid)
            || t in s.taken
            || t.serial in s.refused
            || (s.phase == Live && t.serial in s.early && x.message.messageId in Ids(s.backlog))
  {
    SessionHolds(g, sid);
    var v, t := ViewOf(g, sid), TicketOf(x);
    assert v.owns && v.session == g.sessions[sid] && v.session.device == d;
    assert t in Held(v) ==>
      t in g.registry.connections[d].pending || t in ChannelOf(g.registry, sid) || t in v.session.taken;
    hide GatewayInv, ViewOf, Held, QueueOf, ChannelOf, Ids, AllGenuine, Distinct, Buffers;
    assert t == Ticket(t.serial, g.relay.log[t.serial]);
    assert NoGap(v, QueueOf(g.relay, d), g.inFlight) ==> Accounted(v, t, g.inFlight);
  }

  /** No other message accepted for the device has the id of `x`. */
  ghost predicate OnlyUseOfId(log: seq<EncryptedMessage>, d: Id, x: Stored) {
    forall n: nat :: n < |log| && log[n].recipientDeviceId == d && log[n].messageId == x.message.messageId ==>
      n == x.serial
  }

  /** Where no id is used twice, ids of the backlog are messages of the backlog: no message is missed at all. */
  lemma NoMessageIsMissedWithoutReuse(events: seq<Event>, d: Id, x: Stored)
    requires var g := Run(events);
             && d in g.registry.connections && g.registry.connections[d].id in g.sessions
             && g.sessions[g.registry.connections[d].id].phase in {Flushing, Live}
             && x in QueueOf(g.relay, d) && OnlyUseOfId(g.relay.log, d, x)
    ensures var g := Run(events);
            var sid := g.registry.connections[d].id;
            var s, t := g.sessions[sid], TicketOf(x);
            || t in s.backlog
            || t in g.inFlight
            || t in g.registry.connections[d].pending
            || t in ChannelOf(g.registry, sid)
            || t in s.taken
            || t.serial in s.refused
  {
    RunKeepsInv(events);
    var g := Run(events);
    var sid := g.registry.connections[d].id;
    RegistryHolds(g);
    assert g.sessions[sid].device == d;
    hide *;
    BacklogIsGenuine(g, sid);
    NoMessageFallsBetween(events, d, x);
    StoredIsGenuine(g.relay, d, x);
    if x.message.messageId in Ids(g.sessions[sid].backlog) {
      SameIdSameMessage(g.relay.log, d, x, g.sessions[sid].backlog);
    }
  }

  lemma SameIdSameMessage(log: seq<EncryptedMessage>, d: Id, x: Stored, backlog: seq<Ticket>)
    requires OnlyUseOfId(log, d, x) && AllGenuine(backlog, d, log) && Genuine(TicketOf(x), d, log)
    requires x.message.messageId in Ids(backlog)
    ensures TicketOf(x) in backlog
  {
    var u :| u in backlog && u.message.messageId == x.message.messageId;
    assert Genuine(u, d, log);
    assert u == TicketOf(x);
  }

  lemma BacklogIsGenuine(g: Gateway, sid: nat)
    requires GatewayInv(g) && sid in g.sessions
    ensures AllGenuine(g.sessions[sid].backlog, g.sessions[sid].device, g.relay.log)
  {
    SessionHolds(g, sid);
    hide GatewayInv, Buffers;
    assert ViewOf(g, sid).session == g.sessions[sid];
  }

  lemma StoredIsGenuine(r: RelayState, d: Id, x: Stored)
    requires RelayInv(r) && x in QueueOf(r, d)
    ensures Genuine(TicketOf(x), d, r.log)
  {
    hide TotalMessages, TotalBytes;
    QueueEntries(r.queues[d], d, r.log);
    assert StoredOk(x, d, r.log);
  }

  /** What a live session that owns its device knows about one accepted message `t`. */
  ghost predicate LiveRoute(q: Queue, inFlight: set<Ticket>, s: Session, live: seq<Ticket>, t: Ticket) {
    && (t in live ==> t !in inFlight && t.serial !in s.refused
                      && !(t.serial in s.early && t.message.messageId in Ids(s.backlog)))
    && (t in live || t in inFlight || t.serial in s.refused || t.serial in s.early)
    && (t in inFlight ==> t.serial !in s.early)
    && (forall x :: x in q && TicketOf(x) == t ==>
          t in live || t in inFlight || t.serial in s.refused || t.message.messageId in Ids(s.backlog))
  }

  lemma LiveView(g: Gateway, d: Id, sid: nat)
    requires GatewayInv(g) && Owns(g.registry, d, sid) && InPhase(g, sid, {Live})
    ensures var v, s := ViewOf(g, sid), g.sessions[sid];
            && sid in g.sessions && s.phase == Live
            && v.owns && v.session == s && s.device == d && s.sent == |s.backlog|
            && v.pending == [] && v.channel == ChannelOf(g.registry, sid)
  {
    RegistryHolds(g);
    assert g.sessions[sid].device == d;
    SessionHolds(g, sid);
    hide GatewayInv, RegistryOk, RelayInv;
  }

  lemma LiveFacts(g: Gateway, d: Id, sid: nat, t: Ticket)
    requires GatewayInv(g) && Owns(g.registry, d, sid) && InPhase(g, sid, {Live}) && Genuine(t, d, g.relay.log)
    ensures LiveRoute(QueueOf(g.relay, d), g.inFlight, g.sessions[sid],
                      ChannelOf(g.registry, sid) + g.sessions[sid].taken, t)
  {
    hide *;
    LiveView(g, d, sid);
    SessionHolds(g, sid);
    LiveRoutes(ViewOf(g, sid), g.relay.log, QueueOf(g.relay, d), g.inFlight, t);
  }

  lemma LiveRoutes(v: View, log: seq<EncryptedMessage>, q: Queue, inFlight: set<Ticket>, t: Ticket)
    requires SessionOk(v, log, q, inFlight) && v.owns && v.session.phase == Live && v.pending == []
    requires Genuine(t, v.session.device, log)
    ensures LiveRoute(q, inFlight, v.session, v.channel + v.session.taken, t)
  {
    assert [] + v.channel == v.channel;
    assert Held(v) == v.channel + v.session.taken;
    assert t == Ticket(t.serial, log[t.serial]);
    hide Held, AllGenuine, Distinct, Buffers, Ids;
    if t !in Held(v) {
      assert forall x :: x in q && TicketOf(x) == t ==> Accounted(v, t, inFlight);
    }
  }

  /** Exactly when the live route brings a stored message to a live session: it is not still to be offered, found
      room, and was not offered before the activation while its id went out with the backlog. So a message reaches
      none of backlog, buffers, socket and refusals exactly when its id was in the snapshot under another
      acceptance and its own offer came, with room, before the activation. */
  lemma StoredIsRoutedExactlyWhen(events: seq<Event>, d: Id, sid: nat, x: Stored)
    requires var g := Run(events); Owns(g.registry, d, sid) && InPhase(g, sid, {Live}) && x in QueueOf(g.relay, d)
    ensures var g, t := Run(events), TicketOf(x);
            var s := g.sessions[sid];
            var live := ChannelOf(g.registry, sid) + s.taken;
            && (t in live <==> t !in g.inFlight && t.serial !in s.refused
                               && !(t.serial in s.early && t.message.messageId in Ids(s.backlog)))
            && (t !in s.backlog && t !in g.inFlight && t !in live && t.serial !in s.refused <==>
                t !in s.backlog && t.message.messageId in Ids(s.backlog) && t.serial in s.early
                && t.serial !in s.refused)
  {
    var g := Run(events);
    RunKeepsInv(events);
    RegistryHolds(g);
    StoredIsGenuine(g.relay, d, x);
    hide Run, GatewayInv, QueueOf, RegistryOk, FlightOk, RelayInv, ChannelOf, Genuine;
    LiveView(g, d, sid);
    LiveFacts(g, d, sid, TicketOf(x));
  }

  // ----- Buffers -----

  /** Every registered connection has an open channel and uses one buffer at a time, within its capacity. */
  lemma BuffersTakeTurns(events: seq<Event>, d: Id)
    requires d in Run(events).registry.connections
    ensures var r := Run(events).registry;
            var c := r.connections[d];
            && c.id in r.channels && |r.channels[c.id]| <= LIVE_CHANNEL_CAPACITY
            && (!c.ready ==> r.channels[c.id] == [] && |c.pending| <= LIVE_CHANNEL_CAPACITY)
            && (c.ready ==> c.pending == [])
  {
    RunKeepsInv(events);
    var g := Run(events);
    RegistryHolds(g);
    SessionHolds(g, g.registry.connections[d].id);
  }

  lemma ActivateStep(g: Gateway, sid: nat)
    requires InPhase(g, sid, {Flushing}) && g.sessions[sid].sent == |g.sessions[sid].backlog|
    requires Owns(g.registry, g.sessions[sid].device, sid)
    ensures Step(g, Activate(sid)).registry
            == Activated(g.registry, g.sessions[sid].device, sid, Ids(g.sessions[sid].backlog))
  {
    hide Activated, Ids, OfferedSoFar;
  }

  /** Activation flushes exactly the pending messages that did not go out with the backlog, in offer order. */
  lemma ActivationIsLossless(events: seq<Event>, sid: nat)
    requires var g := Run(events);
             && InPhase(g, sid, {Flushing}) && g.sessions[sid].sent == |g.sessions[sid].backlog|
             && Owns(g.registry, g.sessions[sid].device, sid)
    ensures var g := Run(events);
            var s := g.sessions[sid];
            ChannelOf(Step(g, Activate(sid)).registry, sid)
            == Filter(g.registry.connections[s.device].pending, Undelivered(Ids(s.backlog)))
  {
    RunKeepsInv(events);
    var g := Run(events);
    var s := g.sessions[sid];
    BuffersTakeTurns(events, s.device);
    ActivateStep(g, sid);
    SessionHolds(g, sid);
    hide *;
    ActivationLosesNothing(g.registry, s.device, sid, Ids(s.backlog));
  }

  // ----- A full buffer means that something has already left the relay -----

  function Serials(ts: seq<Ticket>): set<nat> {
    set t | t in ts :: t.serial
  }

  lemma {:induction false} DistinctCount(ts: seq<Ticket>)
    requires Distinct(ts)
    ensures |Serials(ts)| == |ts|
  {
    if ts == [] {
      assert Serials(ts) == {};
    } else {
      var front, last := ts[..|ts| - 1], ts[|ts| - 1];
      assert ts == front + [last];
      forall i, j | 0 <= i < j < |front| ensures front[i].serial != front[j].serial {
        assert front[i] == ts[i] && front[j] == ts[j];
      }
      DistinctCount(front);
      forall t | t in front ensures t.serial != last.serial {
        var i :| 0 <= i < |front| && front[i] == t;
        assert ts[i] == t;
      }
      assert Serials(ts) == Serials(front) + {last.serial};
    }
  }

  lemma {:induction false} CountAtMost(ts: seq<Ticket>)
    ensures |Serials(ts)| <= |ts|
  {
    if ts == [] {
      assert Serials(ts) == {};
    } else {
      var front, last := ts[..|ts| - 1], ts[|ts| - 1];
      assert ts == front + [last];
      CountAtMost(front);
      assert Serials(ts) == Serials(front) + {last.serial};
    }
  }

  /** 257 different messages cannot all be in a queue of at most 256. */
  lemma SomeoneLeft(buffer: seq<Ticket>, t: Ticket, q: Queue)
    requires Distinct(buffer) && |buffer| >= LIVE_CHANNEL_CAPACITY && |q| <= MAX_PER_DEVICE
    requires forall u :: u in buffer ==> u.serial != t.serial
    ensures exists u :: u in buffer + [t] && u !in Tickets(q)
  {
    var all := buffer + [t];
    assert Distinct(all);
    DistinctCount(all);
    CountAtMost(Tickets(q));
    TicketMembers(q);
    if forall u :: u in all ==> u in Tickets(q) {
      SubsetCount(Serials(all), Serials(Tickets(q)));
      assert false;
    }
  }

  /** The buffer an offer to device `d` would go to. */
  function BufferOf(r: Registry, d: Id): seq<Ticket>
    requires d in r.connections
  {
    if r.connections[d].ready then ChannelOf(r, r.connections[d].id) else r.connections[d].pending
  }

  lemma BufferFacts(g: Gateway, d: Id, sid: nat)
    requires GatewayInv(g) && Owns(g.registry, d, sid)
    ensures Distinct(BufferOf(g.registry, d)) && NotInFlight(BufferOf(g.registry, d), g.inFlight)
    ensures sid in g.registry.channels && |QueueOf(g.relay, d)| <= MAX_PER_DEVICE
  {
    RegistryHolds(g);
    assert sid in g.sessions && g.sessions[sid].device == d;
    SessionHolds(g, sid);
    QueueIsBounded(g.relay, d);
    var v, buffer := ViewOf(g, sid), BufferOf(g.registry, d);
    assert Distinct(Held(v)) && NotInFlight(Held(v), g.inFlight) && v.isOpen;
    hide SessionOk, GatewayInv, Distinct, QueueOf;
    BufferIsPrefix(g, d, sid);
    hide *;
    DistinctPrefix(buffer, Held(v));
    PrefixNotInFlight(buffer, Held(v), g.inFlight);
    OpenMeans(g, sid);
  }

  lemma QueueIsBounded(r: RelayState, d: Id)
    requires RelayInv(r)
    ensures |QueueOf(r, d)| <= MAX_PER_DEVICE
  {
    hide TotalMessages, TotalBytes, QueueOk;
  }

  lemma BufferIsPrefix(g: Gateway, d: Id, sid: nat)
    requires Owns(g.registry, d, sid) && sid in g.sessions && g.sessions[sid].device == d
    requires Buffers(ViewOf(g, sid))
    ensures BufferOf(g.registry, d) <= Held(ViewOf(g, sid))
  {
    var v, buffer := ViewOf(g, sid), BufferOf(g.registry, d);
    assert Held(v) == if v.ready then buffer + v.session.taken else buffer + (v.channel + v.session.taken);
  }

  lemma PrefixNotInFlight(a: seq<Ticket>, all: seq<Ticket>, inFlight: set<Ticket>)
    requires NotInFlight(all, inFlight) && a <= all
    ensures NotInFlight(a, inFlight)
  {
  }

  lemma OpenMeans(g: Gateway, sid: nat)
    requires sid in g.sessions
    ensures ViewOf(g, sid).isOpen <==> sid in g.registry.channels
  {
  }

  /** An offer to a registered connection is dropped only if the offered message, or one already in the buffer,
      was accepted for the device and has left its relay queue, by acknowledgement or expiry. */
  lemma RefusedOnlyAfterRemoval(events: seq<Event>, t: Ticket)
    requires t in Run(events).inFlight && Refuses(Run(events).registry, t.message.recipientDeviceId)
    ensures var g, d := Run(events), t.message.recipientDeviceId;
            exists u :: && u in BufferOf(g.registry, d) + [t] && Genuine(u, d, g.relay.log)
                        && u !in Tickets(QueueOf(g.relay, d))
  {
    RunKeepsInv(events);
    var g, d := Run(events), t.message.recipientDeviceId;
    BufferFacts(g, d, g.registry.connections[d].id);
    BufferIsGenuine(g, t);
    hide GatewayInv, Run, Tickets, Distinct;
    SomeoneLeft(BufferOf(g.registry, d), t, QueueOf(g.relay, d));
  }

  lemma DistinctPrefix(a: seq<Ticket>, all: seq<Ticket>)
    requires Distinct(all) && a <= all
    ensures Distinct(a)
  {
    forall i, j | 0 <= i < j < |a| ensures a[i].serial != a[j].serial {
      assert a[i] == all[i] && a[j] == all[j];
    }
  }

  /** Every message ever accepted for `d` is still in its relay queue: nothing was acknowledged, nothing expired. */
  ghost predicate NothingLeft(r: RelayState, d: Id) {
    forall n: nat :: n < |r.log| && r.log[n].recipientDeviceId == d ==> Ticket(n, r.log[n]) in Tickets(QueueOf(r, d))
  }

  /** What one step can do to the relay: the log only grows, and a queue gains at most the newest message. */
  lemma RelayEffect(g: Gateway, e: Event, d: Id)
    requires GatewayInv(g)
    ensures var r, r' := g.relay, Step(g, e).relay;
            && r.log <= r'.log
            && forall x :: x in QueueOf(r', d) ==> x in QueueOf(r, d) || x.serial == |r.log|
  {
    RegistryHolds(g);
    StepRelay(g, e);
    hide *;
    match e
    case PushMessage(m, now) => PushEffect(g.relay, m, now, d);
    case Acknowledge(x, id) => AckShrinks(g.relay, x, id);
    case Poll(x, now) => PollShrinks(g.relay, x, now);
    case PullBacklog(sid, now) =>
      if sid in g.sessions { PollShrinks(g.relay, g.sessions[sid].device, now); }
    case _ =>
  }

  lemma PushEffect(r: RelayState, m: EncryptedMessage, now: u64, d: Id)
    requires RelayInv(r)
    ensures var r' := Relay.Push(r, m, now).0;
            r.log <= r'.log && forall x :: x in QueueOf(r', d) ==> x in QueueOf(r, d) || x.serial == |r.log|
  {
    PushLog(r, m, now);
    RelayRuns.QueueAfterPush(r, m, now, d);
    SubQueue(QueueOf(r, d), LiveAt(now));
    hide Relay.Push, QueueOf, Filter, RelayInv;
  }

  /** Which steps touch the relay. */
  lemma StepRelay(g: Gateway, e: Event)
    ensures var r' := Step(g, e).relay;
            match e
            case PushMessage(m, now) => r' == Relay.Push(g.relay, m, now).0
            case Acknowledge(x, id) => r' == Relay.Ack(g.relay, x, id).0
            case Poll(x, now) => r' == Relay.Pull(g.relay, x, now).0
            case PullBacklog(sid, now) =>
              r' == g.relay || (sid in g.sessions && r' == Relay.Pull(g.relay, g.sessions[sid].device, now).0)
            case _ => r' == g.relay
  {
    hide Relay.Push, Relay.Pull, Relay.Ack, Tickets, Unexpired, QueueOf, Activated, Offered, Registered, Unregistered,
      Refuses, OfferedSoFar, Ids, ChannelOf;
  }

  lemma NothingLeftBefore(g: Gateway, e: Event, d: Id)
    requires GatewayInv(g) && NothingLeft(Step(g, e).relay, d)
    ensures NothingLeft(g.relay, d)
  {
    RelayEffect(g, e, d);
    hide GatewayInv, Step;
    var r, r' := g.relay, Step(g, e).relay;
    hide QueueOf;
    forall n: nat | n < |r.log| && r.log[n].recipientDeviceId == d
      ensures Ticket(n, r.log[n]) in Tickets(QueueOf(r, d))
    {
      assert r'.log[n] == r.log[n];
      var x := EntryOf(QueueOf(r', d), Ticket(n, r.log[n]));
      assert x in QueueOf(r, d);
      TicketIsThere(QueueOf(r, d), x);
    }
  }

  lemma EntryOf(q: Queue, t: Ticket) returns (x: Stored)
    requires t in Tickets(q)
    ensures x in q && TicketOf(x) == t
  {
    TicketMembers(q);
    hide Tickets;
    var i :| 0 <= i < |q| && Tickets(q)[i] == t;
    x := q[i];
  }

  lemma TicketIsThere(q: Queue, x: Stored)
    requires x in q
    ensures TicketOf(x) in Tickets(q)
  {
    TicketMembers(q);
    hide Tickets;
    var i :| 0 <= i < |q| && q[i] == x;
    assert Tickets(q)[i] == TicketOf(x);
  }

  ghost predicate SameRefused(g: Gateway, g': Gateway, sid: nat) {
    && sid in g.sessions && sid in g'.sessions
    && g'.sessions[sid].device == g.sessions[sid].device && g'.sessions[sid].refused == g.sessions[sid].refused
  }

  lemma SetupKeepsRefused(g: Gateway, x: nat, now: u64, sid: nat)
    requires sid in g.sessions
    ensures SameRefused(g, AfterRegister(g, x), sid) && SameRefused(g, AfterPull(g, x, now), sid)
    ensures SameRefused(g, AfterSendBacklog(g, x), sid)
    ensures AfterRegister(g, x).sessions.Keys == AfterPull(g, x, now).sessions.Keys
            == AfterSendBacklog(g, x).sessions.Keys == g.sessions.Keys
  {
    hide Relay.Pull, Tickets, Unexpired;
  }

  lemma LaterKeepsRefused(g: Gateway, x: nat, sid: nat)
    requires sid in g.sessions
    ensures SameRefused(g, AfterActivate(g, x), sid) && SameRefused(g, AfterReceive(g, x), sid)
    ensures SameRefused(g, AfterLeave(g, x), sid) && SameRefused(g, AfterClose(g, x), sid)
    ensures AfterActivate(g, x).sessions.Keys == AfterReceive(g, x).sessions.Keys
            == AfterLeave(g, x).sessions.Keys == AfterClose(g, x).sessions.Keys == g.sessions.Keys
  {
    hide Activated, Ids, OfferedSoFar, Unregistered;
  }

  lemma OfferRefuses(g: Gateway, t: Ticket, sid: nat)
    requires RegistryOk(g) && sid in AfterOffer(g, t).sessions
    ensures SameRefused(g, AfterOffer(g, t), sid)
            || (t in g.inFlight && Refuses(g.registry, t.message.recipientDeviceId) && sid in g.sessions
                && AfterOffer(g, t).sessions[sid].device == t.message.recipientDeviceId)
  {
    hide Offered;
  }

  /** A step adds to what a session has refused only if it is an offer that the session's connection refuses. */
  lemma RefusedEffect(g: Gateway, e: Event, sid: nat)
    requires GatewayInv(g) && sid in Step(g, e).sessions
    ensures || SameRefused(g, Step(g, e), sid)
            || (sid !in g.sessions && Step(g, e).sessions[sid].refused == {})
            || (e.Offer? && e.ticket in g.inFlight && Refuses(g.registry, e.ticket.message.recipientDeviceId)
                && sid in g.sessions && Step(g, e).sessions[sid].device == e.ticket.message.recipientDeviceId)
  {
    RegistryHolds(g);
    if sid in g.sessions {
      if e.Register? || e.PullBacklog? || e.SendBacklog? {
        SetupKeepsRefused(g, e.session, if e.PullBacklog? then e.now else 0, sid);
      } else if e.Activate? || e.Receive? || e.Leave? || e.Close? {
        LaterKeepsRefused(g, e.session, sid);
      } else if e.Offer? {
        OfferRefuses(g, e.ticket, sid);
      }
    } else {
      NewSessionsAreReserved(g, e, sid);
    }
    hide GatewayInv, Relay.Push, Relay.Pull, Relay.Ack, FlightOk, RelayInv, AfterOffer, AfterRegister, AfterPull,
      AfterSendBacklog, AfterActivate, AfterReceive, AfterLeave, AfterClose, Refuses;
  }

  lemma NewSessionsAreReserved(g: Gateway, e: Event, sid: nat)
    requires sid !in g.sessions && sid in Step(g, e).sessions
    ensures e.Reserve? && Step(g, e).sessions[sid].refused == {}
  {
    hide Relay.Push, Relay.Pull, Relay.Ack, Activated, Ids, OfferedSoFar, Tickets, Offered, Refuses, Unregistered;
  }

  lemma BufferIsGenuine(g: Gateway, t: Ticket)
    requires GatewayInv(g) && t in g.inFlight && t.message.recipientDeviceId in g.registry.connections
    ensures var d := t.message.recipientDeviceId;
            AllGenuine(BufferOf(g.registry, d) + [t], d, g.relay.log)
  {
    RegistryHolds(g);
    var d := t.message.recipientDeviceId;
    var sid := g.registry.connections[d].id;
    SessionHolds(g, sid);
    var v := ViewOf(g, sid);
    assert AllGenuine(Held(v), d, g.relay.log);
    forall u | u in BufferOf(g.registry, d) + [t] ensures Genuine(u, d, g.relay.log) {
      if u != t { assert u in Held(v); }
    }
  }

  /** While nothing has left the relay queue of a device, no session of that device is ever refused a message. */
  lemma {:induction false} NothingRefusedWhileNothingLeaves(events: seq<Event>, sid: nat)
    requires sid in Run(events).sessions
    requires NothingLeft(Run(events).relay, Run(events).sessions[sid].device)
    ensures Run(events).sessions[sid].refused == {}
  {
    if events == [] {
    } else {
      var front, e := events[..|events| - 1], events[|events| - 1];
      var g, d := Run(front), Run(events).sessions[sid].device;
      RunKeepsInv(front);
      RefusedEffect(g, e, sid);
      NothingLeftBefore(g, e, d);
      hide GatewayInv, Step, Refuses;
      if e.Offer? && e.ticket in g.inFlight && Refuses(g.registry, e.ticket.message.recipientDeviceId)
         && d == e.ticket.message.recipientDeviceId {
        NeverRefusedYet(front, e.ticket);
      } else {
        if sid in g.sessions {
          NothingRefusedWhileNothingLeaves(front, sid);
        }
      }
    }
  }

  lemma AllStillQueued(g: Gateway, t: Ticket)
    requires GatewayInv(g) && t in g.inFlight && t.message.recipientDeviceId in g.registry.connections
    requires NothingLeft(g.relay, t.message.recipientDeviceId)
    ensures var d := t.message.recipientDeviceId;
            forall u :: u in BufferOf(g.registry, d) + [t] ==> u in Tickets(QueueOf(g.relay, d))
  {
    var d := t.message.recipientDeviceId;
    BufferIsGenuine(g, t);
    hide GatewayInv, Tickets, QueueOf, BufferOf;
    forall u | u in BufferOf(g.registry, d) + [t] ensures u in Tickets(QueueOf(g.relay, d)) {
      assert Genuine(u, d, g.relay.log) && u == Ticket(u.serial, g.relay.log[u.serial]);
    }
  }

  lemma NeverRefusedYet(events: seq<Event>, t: Ticket)
    requires t in Run(events).inFlight && NothingLeft(Run(events).relay, t.message.recipientDeviceId)
    ensures !Refuses(Run(events).registry, t.message.recipientDeviceId)
  {
    var g, d := Run(events), t.message.recipientDeviceId;
    if Refuses(g.registry, d) {
      RunKeepsInv(events);
      AllStillQueued(g, t);
      RefusedOnlyAfterRemoval(events, t);
    }
  }

  /** When everything has come to rest - a live session owns the device, its channel is drained, no offer to the
      device is due and nothing has left the relay queue - every message in that queue was sent to the session,
      with the backlog or live. */
  lemma AtRestEverythingWasSent(events: seq<Event>, d: Id, sid: nat, x: Stored)
    requires var g := Run(events);
             && Owns(g.registry, d, sid) && InPhase(g, sid, {Live}) && ChannelOf(g.registry, sid) == []
             && (forall t :: t in g.inFlight ==> t.message.recipientDeviceId != d)
             && NothingLeft(g.relay, d) && x in QueueOf(g.relay, d)
    ensures var s := Run(events).sessions[sid];
            TicketOf(x) in SentBacklog(s) || TicketOf(x) in s.taken
  {
    RunKeepsInv(events);
    assert Run(events).sessions[sid].device == d by { LiveView(Run(events), d, sid); }
    NothingRefusedWhileNothingLeaves(events, sid);
    hide *;
    AtRestWasSent(Run(events), d, sid, x);
  }

  lemma AtRestWasSent(g: Gateway, d: Id, sid: nat, x: Stored)
    requires GatewayInv(g) && Owns(g.registry, d, sid) && InPhase(g, sid, {Live}) && ChannelOf(g.registry, sid) == []
    requires forall t :: t in g.inFlight ==> t.message.recipientDeviceId != d
    requires NothingLeft(g.relay, d) && x in QueueOf(g.relay, d) && g.sessions[sid].refused == {}
    ensures TicketOf(x) in SentBacklog(g.sessions[sid]) || TicketOf(x) in g.sessions[sid].taken
  {
    hide *;
    RegistryHolds(g);
    LiveView(g, d, sid);
    StoredIsGenuine(g.relay, d, x);
    LiveFacts(g, d, sid, TicketOf(x));
    BacklogIsGenuine(g, sid);
    RestMeans(g.relay, g.inFlight, g.sessions[sid], x);
  }

  lemma RestMeans(r: RelayState, inFlight: set<Ticket>, s: Session, x: Stored)
    requires RelayInv(r) && NothingLeft(r, s.device) && x in QueueOf(r, s.device)
    requires AllGenuine(s.backlog, s.device, r.log) && Genuine(TicketOf(x), s.device, r.log)
    requires forall t :: t in inFlight ==> t.message.recipientDeviceId != s.device
    requires LiveRoute(QueueOf(r, s.device), inFlight, s, [] + s.taken, TicketOf(x))
    requires s.refused == {} && s.sent == |s.backlog|
    ensures TicketOf(x) in SentBacklog(s) || TicketOf(x) in s.taken
  {
    hide NothingLeft, RelayInv, QueueOf, AllGenuine, Ids;
    assert [] + s.taken == s.taken && s.backlog[..|s.backlog|] == s.backlog;
    if x.message.messageId in Ids(s.backlog) {
      StoredWentWithTheBacklog(r, s.device, x, s.backlog);
    }
  }

  /** While nothing has left, one id means one acceptance. */
  lemma StoredWentWithTheBacklog(r: RelayState, d: Id, x: Stored, backlog: seq<Ticket>)
    requires RelayInv(r) && NothingLeft(r, d) && x in QueueOf(r, d)
    requires AllGenuine(backlog, d, r.log) && x.message.messageId in Ids(backlog)
    ensures TicketOf(x) in backlog
  {
    hide TotalMessages, TotalBytes, Tickets;
    var u :| u in backlog && u.message.messageId == x.message.messageId;
    assert Genuine(u, d, r.log) && u == Ticket(u.serial, r.log[u.serial]);
    var y := EntryOf(QueueOf(r, d), u);
    QueueEntries(r.queues[d], d, r.log);
  }

  // ----- At most twice to one session -----

  /** The part of the backlog already handed to the socket. */
  function SentBacklog(s: Session): seq<Ticket> {
    if s.sent <= |s.backlog| then s.backlog[..s.sent] else s.backlog
  }

  /** A session hands each accepted message to its socket at most once from the backlog and at most once from
      the channel; both only if its live offer came after the activation. */
  lemma AtMostTwice(events: seq<Event>, sid: nat)
    requires sid in Run(events).sessions
    ensures var s := Run(events).sessions[sid];
            && Distinct(SentBacklog(s)) && Distinct(s.taken)
            && forall t, u :: t in SentBacklog(s) && u in s.taken && t.serial == u.serial ==> t.serial !in s.early
  {
    RunKeepsInv(events);
    var g := Run(events);
    var s, v := g.sessions[sid], ViewOf(g, sid);
    SessionHolds(g, sid);
    assert v.session == s && TicketsOk(v, g.relay.log, g.inFlight) && EarlyOk(v, g.relay.log, g.inFlight);
    hide GatewayInv, Run, SessionOk, ViewOf, Distinct, Ids, Buffers;
    DistinctPrefix(SentBacklog(s), s.backlog);
    assert Held(v) == (v.pending + v.channel) + s.taken;
    DistinctSuffix(v.pending + v.channel, s.taken);
    forall t, u | t in SentBacklog(s) && u in s.taken && t.serial == u.serial ensures t.serial !in s.early {
      assert t in s.backlog && u in Held(v);
      assert Genuine(t, s.device, g.relay.log) && Genuine(u, s.device, g.relay.log);
      assert u in v.channel + s.taken && t.message.messageId in Ids(s.backlog);
    }
  }

  /** Exactly when a live session is sent a message twice, once as backlog and once live: its offer was due or
      took effect after the activation, and found room. */
  lemma SentTwiceExactlyWhen(events: seq<Event>, d: Id, sid: nat, t: Ticket)
    requires var g := Run(events);
             Owns(g.registry, d, sid) && InPhase(g, sid, {Live}) && t in SentBacklog(g.sessions[sid])
    ensures var g := Run(events);
            var s := g.sessions[sid];
            && SentBacklog(s) == s.backlog
            && (t in ChannelOf(g.registry, sid) + s.taken <==>
                t !in g.inFlight && t.serial !in s.refused && t.serial !in s.early)
  {
    RunKeepsInv(events);
    var g := Run(events);
    hide Run, GatewayInv, QueueOf, ChannelOf, Genuine;
    LiveView(g, d, sid);
    BacklogIsGenuine(g, sid);
    var s := g.sessions[sid];
    assert s.backlog[..|s.backlog|] == s.backlog;
    LiveFacts(g, d, sid, t);
  }

  // ----- Replaced sessions -----

  /** The steps a session takes after it was registered. */
  predicate IsSessionStep(e: Event, sid: nat) {
    (e.PullBacklog? || e.SendBacklog? || e.Activate? || e.Receive? || e.Leave? || e.Close?) && e.session == sid
  }

  /** The connection registered for `d`, its channel and its session are the same in both states. */
  ghost predicate Untouched(g: Gateway, g': Gateway, d: Id)
    requires d in g.registry.connections
  {
    var owner := g.registry.connections[d].id;
    && d in g'.registry.connections && g'.registry.connections[d] == g.registry.connections[d]
    && ChannelOf(g'.registry, owner) == ChannelOf(g.registry, owner)
    && owner in g.sessions && owner in g'.sessions && g'.sessions[owner] == g.sessions[owner]
  }

  ghost predicate Stale(g: Gateway, sid: nat, d: Id) {
    && sid in g.sessions && !Owns(g.registry, g.sessions[sid].device, sid)
    && d in g.registry.connections && g.registry.connections[d].id in g.sessions && g.registry.connections[d].id != sid
  }

  lemma StaleBacklogAndClose(g: Gateway, sid: nat, d: Id)
    requires Stale(g, sid, d)
    ensures Untouched(g, AfterSendBacklog(g, sid), d) && Untouched(g, AfterClose(g, sid), d)
  {
  }

  lemma StalePull(g: Gateway, sid: nat, now: u64, d: Id)
    requires Stale(g, sid, d)
    ensures Untouched(g, AfterPull(g, sid, now), d)
  {
    hide Relay.Pull, Tickets, Unexpired, QueueOf;
  }

  lemma StaleActivate(g: Gateway, sid: nat, d: Id)
    requires Stale(g, sid, d)
    ensures Untouched(g, AfterActivate(g, sid), d)
  {
    hide Ids, Flushed, OfferedSoFar;
  }

  lemma StaleReceive(g: Gateway, sid: nat, d: Id)
    requires Stale(g, sid, d)
    ensures Untouched(g, AfterReceive(g, sid), d)
  {
  }

  lemma StaleLeave(g: Gateway, sid: nat, d: Id)
    requires Stale(g, sid, d)
    ensures Untouched(g, AfterLeave(g, sid), d)
  {
  }

  /** Nothing a replaced session still does touches the connection of its replacement, or any other. */
  lemma StaleSessionIsHarmless(events: seq<Event>, sid: nat, e: Event, d: Id)
    requires sid in Run(events).sessions && IsSessionStep(e, sid) && d in Run(events).registry.connections
    requires var g := Run(events); !Owns(g.registry, g.sessions[sid].device, sid)
    ensures Untouched(Run(events), Step(Run(events), e), d)
  {
    hide *;
    RunKeepsInv(events);
    RegistryHolds(Run(events));
    StaleHolds(Run(events), sid, d);
    StaleStep(Run(events), sid, e, d);
  }

  lemma StaleHolds(g: Gateway, sid: nat, d: Id)
    requires RegistryOk(g) && sid in g.sessions && d in g.registry.connections
    requires !Owns(g.registry, g.sessions[sid].device, sid)
    ensures Stale(g, sid, d)
  {
  }

  lemma StaleStep(g: Gateway, sid: nat, e: Event, d: Id)
    requires d in g.registry.connections && Stale(g, sid, d) && IsSessionStep(e, sid)
    ensures Untouched(g, Step(g, e), d)
  {
    hide Untouched, Stale, AfterPull, AfterSendBacklog, AfterClose, AfterActivate, AfterReceive, AfterLeave;
    StaleBacklogAndClose(g, sid, d);
    StaleActivate(g, sid, d);
    StaleReceive(g, sid, d);
    StaleLeave(g, sid, d);
    if e.PullBacklog? { StalePull(g, sid, e.now, d); }
  }
}
