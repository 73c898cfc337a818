/** The invariant of the delivery protocol holds after every interleaving of its steps. */
module GatewayRuns {
  import opened Prelude
  import opened Protocol
  import opened Sums
  import opened Relay
  import opened Connections
  import opened Gateway
  import opened GatewayViews
  import RelayRuns

  lemma SubQueue(q: Queue, keep: Stored -> bool)
    ensures forall x :: x in Filter(q, keep) ==> x in q
  {
    FilterMembers(q, keep);
  }

  lemma PushLog(r: RelayState, m: EncryptedMessage, now: u64)
    ensures var (r', result) := Relay.Push(r, m, now);
            r'.log == if result == Accepted then r.log + [m] else r.log
  {
    hide TotalMessages, TotalBytes;
  }

  lemma PushKeepsGateway(g: Gateway, m: EncryptedMessage, now: u64)
    requires GatewayInv(g)
    ensures GatewayInv(AfterPush(g, m, now))
  {
    hide Relay.Push, SessionOk, RelayInv, ViewOf;
    var g' := AfterPush(g, m, now);
    PushKeepsInv(g.relay, m, now);
    PushLog(g.relay, m, now);
    forall sid | sid in g'.sessions ensures SessionAt(g', sid) {
      var d := g.sessions[sid].device;
      assert SessionAt(g, sid) && ViewOf(g', sid) == ViewOf(g, sid) by { SameView(g, g', sid); }
      RelayRuns.QueueAfterPush(g.relay, m, now, d);
      SubQueue(QueueOf(g.relay, d), LiveAt(now));
      if Relay.Push(g.relay, m, now).1 == Accepted {
        GrowLog(ViewOf(g, sid), g.relay.log, m, QueueOf(g.relay, d), QueueOf(g'.relay, d), g.inFlight);
      } else {
        ShrinkQueue(ViewOf(g, sid), g.relay.log, QueueOf(g.relay, d), QueueOf(g'.relay, d), g.inFlight);
      }
    }
  }

  lemma SameView(g: Gateway, g': Gateway, sid: nat)
    requires sid in g.sessions && sid in g'.sessions && g'.sessions[sid] == g.sessions[sid]
    requires g'.registry == g.registry
    ensures ViewOf(g', sid) == ViewOf(g, sid)
  {
  }

  /** A relay step that only takes messages away. */
  lemma ShrinkKeepsGateway(g: Gateway, r: RelayState)
    requires GatewayInv(g) && RelayInv(r) && r.log == g.relay.log
    requires forall d, x :: x in QueueOf(r, d) ==> x in QueueOf(g.relay, d)
    ensures GatewayInv(Gateway(r, g.inFlight, g.registry, g.sessions))
  {
    hide SessionOk, RelayInv, ViewOf, QueueOf;
    var g' := Gateway(r, g.inFlight, g.registry, g.sessions);
    forall sid | sid in g'.sessions ensures SessionAt(g', sid) {
      var d := g.sessions[sid].device;
      assert SessionAt(g, sid) && ViewOf(g', sid) == ViewOf(g, sid) by { SameView(g, g', sid); }
      ShrinkQueue(ViewOf(g, sid), g.relay.log, QueueOf(g.relay, d), QueueOf(r, d), g.inFlight);
    }
  }

  lemma PollShrinks(r: RelayState, d: Id, now: u64)
    requires RelayInv(r)
    ensures var r' := Relay.Pull(r, d, now).0;
            && RelayInv(r') && r'.log == r.log
            && (forall x, s :: s in QueueOf(r', x) ==> s in QueueOf(r, x))
            && QueueOf(r', d) == Unexpired(QueueOf(r, d), now)
            && QueueOk(Unexpired(QueueOf(r, d), now), d, r.log)
  {
    hide TotalMessages, TotalBytes;
    PullKeepsInv(r, d, now);
    PurgedKeepsInv(r, d, now);
    SubQueue(QueueOf(r, d), LiveAt(now));
    forall x
      ensures QueueOf(Relay.Pull(r, d, now).0, x) == if x == d then Unexpired(QueueOf(r, x), now) else QueueOf(r, x)
    {
      RelayRuns.QueueAfterPull(r, d, now, x);
    }
  }

  lemma AckShrinks(r: RelayState, d: Id, id: Id)
    requires RelayInv(r)
    ensures var r' := Relay.Ack(r, d, id).0;
            && RelayInv(r') && r'.log == r.log
            && (forall x, s :: s in QueueOf(r', x) ==> s in QueueOf(r, x))
  {
    hide TotalMessages, TotalBytes, RelayInv;
    AckKeepsInv(r, d, id);
    SubQueue(QueueOf(r, d), Not(id));
    forall x ensures QueueOf(Relay.Ack(r, d, id).0, x) == if x == d then Without(QueueOf(r, x), id) else QueueOf(r, x) {
      RelayRuns.QueueAfterAck(r, d, id, x);
    }
  }

  lemma SessionHolds(g: Gateway, sid: nat)
    requires GatewayInv(g) && sid in g.sessions
    ensures SessionOk(ViewOf(g, sid), g.relay.log, QueueOf(g.relay, g.sessions[sid].device), g.inFlight)
    ensures Buffers(ViewOf(g, sid))
  {
    assert SessionAt(g, sid);
  }

  lemma RegistryHolds(g: Gateway)
    requires GatewayInv(g)
    ensures RegistryOk(g) && FlightOk(g.relay.log, g.inFlight) && RelayInv(g.relay)
  {
  }

  // ----- Offers -----

  lemma OtherDeviceHasNoTicket(g: Gateway, d: Id, t: Ticket)
    requires RelayInv(g.relay) && d != t.message.recipientDeviceId
    ensures forall x :: x in QueueOf(g.relay, d) ==> TicketOf(x) != t
  {
    hide TotalMessages, TotalBytes;
    if d in g.relay.queues {
      QueueEntries(g.relay.queues[d], d, g.relay.log);
    }
  }

  lemma OfferOtherView(g: Gateway, t: Ticket, sid: nat)
    requires RegistryOk(g) && t in g.inFlight && sid in g.sessions
    requires !Owns(g.registry, t.message.recipientDeviceId, sid)
    ensures var g' := AfterOffer(g, t);
            sid in g'.sessions && g'.sessions[sid] == g.sessions[sid] && ViewOf(g', sid) == ViewOf(g, sid)
  {
  }

  lemma OfferKeepsOthers(g: Gateway, t: Ticket, sid: nat)
    requires GatewayInv(g) && t in g.inFlight && sid in g.sessions
    requires !Owns(g.registry, t.message.recipientDeviceId, sid)
    ensures sid in AfterOffer(g, t).sessions && SessionAt(AfterOffer(g, t), sid)
  {
    RegistryHolds(g);
    SessionHolds(g, sid);
    OfferOtherView(g, t, sid);
    var d, v := g.sessions[sid].device, ViewOf(g, sid);
    if v.owns {
      OtherDeviceHasNoTicket(g, d, t);
    }
    hide SessionOk, RelayInv, QueueOf, GatewayInv, RegistryOk, FlightOk, Buffers, ViewOf, Offered, Refuses;
    DropFlight(v, g.relay.log, QueueOf(g.relay, d), g.inFlight, t);
  }

  /** Where an offer leaves the session that owns the entry of its device. */
  lemma OfferOwnView(g: Gateway, t: Ticket, sid: nat)
    requires t in g.inFlight && sid in g.sessions && g.sessions[sid].device == t.message.recipientDeviceId
    requires Owns(g.registry, t.message.recipientDeviceId, sid) && ViewOf(g, sid).isOpen
    ensures var g', v := AfterOffer(g, t), ViewOf(g, sid);
            var s := v.session;
            && g'.relay == g.relay && g'.inFlight == g.inFlight - {t}
            && sid in g'.sessions && g'.sessions[sid].device == s.device
            && ViewOf(g', sid) ==
                 if Refuses(g.registry, t.message.recipientDeviceId) then
                   WithSession(v, s.(refused := s.refused + {t.serial}))
                 else if v.ready then WithChannel(v, v.channel + [t])
                 else WithPending(v, v.pending + [t])
    ensures var v := ViewOf(g, sid);
            Refuses(g.registry, t.message.recipientDeviceId)
            <==> |if v.ready then v.channel else v.pending| >= LIVE_CHANNEL_CAPACITY
  {
  }

  lemma OfferKeepsOwner(g: Gateway, t: Ticket, sid: nat)
    requires GatewayInv(g) && t in g.inFlight && Owns(g.registry, t.message.recipientDeviceId, sid)
    ensures sid in g.sessions && SessionAt(AfterOffer(g, t), sid)
  {
    var d := t.message.recipientDeviceId;
    assert sid in g.sessions && g.sessions[sid].device == d && SessionAt(g, sid);
    var v, g', log, q := ViewOf(g, sid), AfterOffer(g, t), g.relay.log, QueueOf(g.relay, d);
    assert Buffers(v);
    assert OfferTo(v, log, q, g.inFlight, t);
    OfferOwnView(g, t, sid);
    hide *;
    if Refuses(g.registry, d) {
      OfferRefused(v, log, q, g.inFlight, t);
    } else if v.ready {
      OfferChannel(v, log, q, g.inFlight, t);
    } else {
      OfferPending(v, log, q, g.inFlight, t);
    }
  }

  lemma OfferKeepsRegistry(g: Gateway, t: Ticket)
    requires GatewayInv(g)
    ensures RegistryOk(AfterOffer(g, t)) && FlightOk(g.relay.log, AfterOffer(g, t).inFlight)
  {
    hide SessionAt, RelayInv, Genuine;
    var d := t.message.recipientDeviceId;
    if t in g.inFlight && d in g.registry.connections && g.registry.connections[d].ready && !Refuses(g.registry, d) {
      assert g.registry.connections[d].id in g.registry.channels;
    }
  }

  lemma OfferKeepsGateway(g: Gateway, t: Ticket)
    requires GatewayInv(g)
    ensures GatewayInv(AfterOffer(g, t))
  {
    OfferKeepsRegistry(g, t);
    var g' := AfterOffer(g, t);
    if t in g.inFlight {
      forall sid | sid in g'.sessions ensures SessionAt(g', sid) {
        if Owns(g.registry, t.message.recipientDeviceId, sid) {
          OfferKeepsOwner(g, t, sid);
        } else {
          OfferKeepsOthers(g, t, sid);
        }
      }
    }
  }

  // ----- Session steps -----

  /** A step of session `sid` that leaves relay and flight alone and touches no other view. */
  ghost predicate OnlyView(g: Gateway, g': Gateway, sid: nat) {
    && g'.relay == g.relay && g'.inFlight == g.inFlight
    && g'.sessions.Keys == g.sessions.Keys
    && forall x :: x in g.sessions && x != sid ==> ViewOf(g', x) == ViewOf(g, x)
  }

  lemma OneViewKeepsGateway(g: Gateway, g': Gateway, sid: nat)
    requires GatewayInv(g) && OnlyView(g, g', sid) && RegistryOk(g') && sid in g'.sessions
    requires SessionOk(ViewOf(g', sid), g.relay.log, QueueOf(g.relay, g'.sessions[sid].device), g.inFlight)
    ensures GatewayInv(g')
  {
    hide SessionOk, RelayInv;
    forall x | x in g'.sessions ensures SessionAt(g', x) {
      if x != sid {
        SessionHolds(g, x);
        assert g'.sessions[x] == ViewOf(g', x).session == ViewOf(g, x).session == g.sessions[x];
      }
    }
  }

  lemma ReserveViews(g: Gateway, d: Id)
    requires RegistryOk(g)
    ensures var g', id := AfterReserve(g, d), g.registry.nextId;
            && RegistryOk(g') && id !in g.sessions
            && ViewOf(g', id) == View(Session(d, Reserved, [], 0, [], {}, {}), false, false, [], false, [])
            && forall x :: x in g.sessions ==> g'.sessions[x] == g.sessions[x] && ViewOf(g', x) == ViewOf(g, x)
  {
    var g', id := AfterReserve(g, d), g.registry.nextId;
    assert id !in g.sessions && id !in g.registry.channels;
    assert !Owns(g.registry, d, id);
  }

  lemma ReserveKeepsGateway(g: Gateway, d: Id)
    requires GatewayInv(g)
    ensures GatewayInv(AfterReserve(g, d))
  {
    RegistryHolds(g);
    ReserveViews(g, d);
    var g', id := AfterReserve(g, d), g.registry.nextId;
    NewSessionOk(d, g.relay.log, QueueOf(g.relay, d), g.inFlight);
    hide SessionOk, RelayInv, RegistryOk, FlightOk, ViewOf, QueueOf;
    forall x | x in g'.sessions ensures SessionAt(g', x) {
      if x != id {
        SessionHolds(g, x);
      }
    }
  }

  function WithoutEntry(v: View): View {
    View(v.session, false, false, [], v.isOpen, v.channel)
  }

  lemma RegisterViews(g: Gateway, sid: nat)
    requires RegistryOk(g) && InPhase(g, sid, {Reserved})
    ensures var g', d := AfterRegister(g, sid), g.sessions[sid].device;
            && RegistryOk(g')
            && ViewOf(g', sid) == View(SetPhase(g.sessions[sid], Greeting), true, false, [], true, [])
            && forall x :: x in g.sessions && x != sid ==>
                 var v := ViewOf(g, x);
                 && g'.sessions[x] == g.sessions[x]
                 && ViewOf(g', x) == if Owns(g.registry, d, x) then WithoutEntry(v) else v
  {
    var g', d := AfterRegister(g, sid), g.sessions[sid].device;
    forall x | x in g.sessions && x != sid
      ensures var v := ViewOf(g, x);
              ViewOf(g', x) == if Owns(g.registry, d, x) then WithoutEntry(v) else v
    {
      if Owns(g.registry, d, x) {
        assert g.sessions[x].device == d;
      }
    }
  }

  lemma RegisterKeepsGateway(g: Gateway, sid: nat)
    requires GatewayInv(g)
    ensures GatewayInv(AfterRegister(g, sid))
  {
    var g' := AfterRegister(g, sid);
    if InPhase(g, sid, {Reserved}) {
      var d := g.sessions[sid].device;
      RegistryHolds(g);
      RegisterViews(g, sid);
      SessionHolds(g, sid);
      assert ViewOf(g, sid).session.phase == Reserved;
      RegisterHere(ViewOf(g, sid), g.relay.log, QueueOf(g.relay, d), g.inFlight);
      assert forall x :: x in g.sessions && Owns(g.registry, d, x) ==> g.sessions[x].device == d;
      hide SessionOk, RelayInv, RegistryOk, FlightOk, ViewOf, QueueOf, Buffers, Owns;
      forall x | x in g'.sessions ensures SessionAt(g', x) {
        if x != sid {
          var v := ViewOf(g, x);
          SessionHolds(g, x);
          if Owns(g.registry, d, x) {
            Disown(v, g.relay.log, QueueOf(g.relay, d), g.inFlight, v.session.phase);
            assert SetPhase(v.session, v.session.phase) == v.session;
          }
        }
      }
    }
  }

  /** Replaces only the history of a session, or its phase where the registry does not look. */
  lemma SessionViews(g: Gateway, sid: nat, s: Session)
    requires RegistryOk(g) && sid in g.sessions && s.device == g.sessions[sid].device
    requires s.phase == Reserved <==> g.sessions[sid].phase == Reserved
    ensures var g' := Gateway(g.relay, g.inFlight, g.registry, g.sessions[sid := s]);
            OnlyView(g, g', sid) && RegistryOk(g') && ViewOf(g', sid) == WithSession(ViewOf(g, sid), s)
  {
  }

  lemma PullKeepsGateway(g: Gateway, sid: nat, now: u64)
    requires GatewayInv(g)
    ensures GatewayInv(AfterPull(g, sid, now))
  {
    if InPhase(g, sid, {Greeting}) {
      var s, r := g.sessions[sid], g.relay;
      var r' := Relay.Pull(r, s.device, now).0;
      var middle := Gateway(r', g.inFlight, g.registry, g.sessions);
      RegistryHolds(g);
      PollShrinks(r, s.device, now);
      ShrinkKeepsGateway(g, r');
      RegistryHolds(middle);
      SessionHolds(middle, sid);
      PullHere(ViewOf(middle, sid), r'.log, QueueOf(r', s.device), QueueOf(r', s.device), g.inFlight);
      hide SessionOk, RelayInv, Relay.Pull, Tickets, Unexpired, QueueOf, RegistryOk, FlightOk, GatewayInv, OnlyView,
        Buffers;
      var s' := s.(phase := Flushing, backlog := Tickets(QueueOf(r', s.device)), sent := 0);
      SessionViews(middle, sid, s');
      OneViewKeepsGateway(middle, AfterPull(g, sid, now), sid);
    }
  }

  lemma SentMore(v: View, log: seq<EncryptedMessage>, q: Queue, inFlight: set<Ticket>)
    requires SessionOk(v, log, q, inFlight) && v.session.phase == Flushing && v.session.sent < |v.session.backlog|
    ensures var s := v.session;
            SessionOk(WithSession(v, s.(sent := s.sent + 1)),
                      log, q, inFlight)
  {
  }

  lemma SendMeans(g: Gateway, sid: nat)
    ensures sid !in g.sessions ==> AfterSendBacklog(g, sid) == g
    ensures var g' := AfterSendBacklog(g, sid);
            if InPhase(g, sid, {Flushing}) && g.sessions[sid].sent < |g.sessions[sid].backlog| then
              var s := g.sessions[sid];
              var s' := s.(sent := s.sent + 1);
              g' == Gateway(g.relay, g.inFlight, g.registry, g.sessions[sid := s']) && ViewOf(g, sid).session == s
              && s.phase == Flushing
            else g' == g
  {
  }

  lemma SendKeepsGateway(g: Gateway, sid: nat)
    requires GatewayInv(g)
    ensures GatewayInv(AfterSendBacklog(g, sid))
  {
    hide *;
    SendMeans(g, sid);
    if sid in g.sessions && AfterSendBacklog(g, sid) != g {
      var s := g.sessions[sid];
      RegistryHolds(g);
      SessionHolds(g, sid);
      SentMore(ViewOf(g, sid), g.relay.log, QueueOf(g.relay, s.device), g.inFlight);
      SessionViews(g, sid, s.(sent := s.sent + 1));
      OneViewKeepsGateway(g, AfterSendBacklog(g, sid), sid);
    }
  }

  lemma OfferedMeaning(g: Gateway)
    requires FlightOk(g.relay.log, g.inFlight)
    ensures forall n: nat :: n in OfferedSoFar(g) <==>
                             n < |g.relay.log| && forall u :: u in g.inFlight ==> u.serial != n
    ensures forall n: nat :: n < |g.relay.log| && n !in OfferedSoFar(g) ==> Ticket(n, g.relay.log[n]) in g.inFlight
  {
    forall n: nat | n < |g.relay.log| && n !in OfferedSoFar(g) ensures Ticket(n, g.relay.log[n]) in g.inFlight {
      var u :| u in g.inFlight && u.serial == n;
      assert u == Ticket(n, g.relay.log[n]);
    }
  }

  /** The registry after session `sid` of device `d` went live with channel contents `channel`. */
  function WentLive(r: Registry, d: Id, sid: nat, channel: seq<Ticket>): Registry {
    Registry(r.connections[d := Connection(sid, true, [])], r.channels[sid := channel], r.nextId)
  }

  lemma LiveViews(g: Gateway, sid: nat, s: Session, channel: seq<Ticket>)
    requires RegistryOk(g) && InPhase(g, sid, {Flushing}) && s.device == g.sessions[sid].device && s.phase == Live
    requires Owns(g.registry, s.device, sid)
    ensures var g' := Gateway(g.relay, g.inFlight, WentLive(g.registry, s.device, sid, channel), g.sessions[sid := s]);
            OnlyView(g, g', sid) && RegistryOk(g') && ViewOf(g', sid) == View(s, true, true, [], true, channel)
  {
    var g' := Gateway(g.relay, g.inFlight, WentLive(g.registry, s.device, sid, channel), g.sessions[sid := s]);
    LiveRegistry(g, sid, s, channel);
    forall x | x in g.sessions && x != sid ensures ViewOf(g', x) == ViewOf(g, x) {
      LiveOtherView(g, sid, s, channel, x);
    }
    hide RegistryOk;
  }

  lemma LiveRegistry(g: Gateway, sid: nat, s: Session, channel: seq<Ticket>)
    requires RegistryOk(g) && InPhase(g, sid, {Flushing}) && s.device == g.sessions[sid].device && s.phase == Live
    ensures RegistryOk(Gateway(g.relay, g.inFlight, WentLive(g.registry, s.device, sid, channel), g.sessions[sid := s]))
  {
  }

  lemma LiveOtherView(g: Gateway, sid: nat, s: Session, channel: seq<Ticket>, x: nat)
    requires sid in g.sessions && x in g.sessions && x != sid && Owns(g.registry, s.device, sid)
    ensures ViewOf(Gateway(g.relay, g.inFlight, WentLive(g.registry, s.device, sid, channel), g.sessions[sid := s]), x)
            == ViewOf(g, x)
  {
  }

  lemma ActivateMeans(g: Gateway, sid: nat)
    requires InPhase(g, sid, {Flushing}) && g.sessions[sid].sent >= |g.sessions[sid].backlog|
    requires Owns(g.registry, g.sessions[sid].device, sid)
    requires sid in g.registry.channels && g.registry.channels[sid] == []
    requires |ViewOf(g, sid).pending| <= LIVE_CHANNEL_CAPACITY
    ensures var s := g.sessions[sid];
            var channel := Filter(ViewOf(g, sid).pending, Undelivered(Ids(s.backlog)));
            AfterActivate(g, sid) ==
              Gateway(g.relay, g.inFlight, WentLive(g.registry, s.device, sid, channel),
                      g.sessions[sid := s.(phase := Live, early := OfferedSoFar(g))])
  {
    ActivationLosesNothing(g.registry, g.sessions[sid].device, sid, Ids(g.sessions[sid].backlog));
    hide Flushed, Filter, Ids, OfferedSoFar, Undelivered;
  }

  lemma ActivateOwned(g: Gateway, sid: nat)
    requires GatewayInv(g) && InPhase(g, sid, {Flushing}) && g.sessions[sid].sent >= |g.sessions[sid].backlog|
    requires Owns(g.registry, g.sessions[sid].device, sid)
    ensures GatewayInv(AfterActivate(g, sid))
  {
    RegistryHolds(g);
    SessionHolds(g, sid);
    var s, v, q := g.sessions[sid], ViewOf(g, sid), QueueOf(g.relay, g.sessions[sid].device);
    assert v.owns && v.session == s && v.isOpen && v.channel == [] && |v.pending| <= LIVE_CHANNEL_CAPACITY;
    assert s.phase == Flushing;
    ActivateMeans(g, sid);
    OfferedMeaning(g);
    ActivateHere(v, g.relay.log, q, g.inFlight, OfferedSoFar(g));
    LiveViews(g, sid, s.(phase := Live, early := OfferedSoFar(g)),
              Filter(v.pending, Undelivered(Ids(s.backlog))));
    hide *;
    OneViewKeepsGateway(g, AfterActivate(g, sid), sid);
  }

  lemma ActivateKeepsGateway(g: Gateway, sid: nat)
    requires GatewayInv(g)
    ensures GatewayInv(AfterActivate(g, sid))
  {
    if InPhase(g, sid, {Flushing}) && g.sessions[sid].sent >= |g.sessions[sid].backlog| {
      if Owns(g.registry, g.sessions[sid].device, sid) {
        ActivateOwned(g, sid);
      } else {
        LeavingKeepsGateway(g, sid, AfterActivate(g, sid));
      }
    }
  }

  /** `g'` is `g` with session `sid` leaving and no longer registered. */
  ghost predicate Left(g: Gateway, g': Gateway, sid: nat) {
    && sid in g.sessions && g.sessions[sid].phase != Reserved
    && g' == Gateway(g.relay, g.inFlight, Unregistered(g.registry, g.sessions[sid].device, sid),
                     g.sessions[sid := SetPhase(g.sessions[sid], Leaving)])
  }

  lemma LeavingViews(g: Gateway, sid: nat, g': Gateway)
    requires RegistryOk(g) && Left(g, g', sid)
    ensures OnlyView(g, g', sid) && RegistryOk(g')
    ensures ViewOf(g', sid) == View(SetPhase(g.sessions[sid], Leaving), false, false, [],
                                    ViewOf(g, sid).isOpen, ViewOf(g, sid).channel)
  {
  }

  lemma LeavingKeepsGateway(g: Gateway, sid: nat, g': Gateway)
    requires GatewayInv(g) && Left(g, g', sid)
    ensures GatewayInv(g')
  {
    RegistryHolds(g);
    SessionHolds(g, sid);
    LeavingViews(g, sid, g');
    Disown(ViewOf(g, sid), g.relay.log, QueueOf(g.relay, g.sessions[sid].device), g.inFlight, Leaving);
    hide SessionOk, RelayInv, RegistryOk, FlightOk, GatewayInv, OnlyView, Buffers;
    OneViewKeepsGateway(g, g', sid);
  }

  lemma ReceiveViews(g: Gateway, sid: nat, s: Session)
    requires RegistryOk(g) && InPhase(g, sid, {Live}) && sid in g.registry.channels && g.registry.channels[sid] != []
    requires s.device == g.sessions[sid].device && s.phase == Live
    ensures var v, r := ViewOf(g, sid), g.registry;
            var r' := Registry(r.connections, r.channels[sid := r.channels[sid][1..]], r.nextId);
            var g' := Gateway(g.relay, g.inFlight, r', g.sessions[sid := s]);
            && OnlyView(g, g', sid) && RegistryOk(g')
            && ViewOf(g', sid) == View(s, v.owns, v.ready, v.pending, v.isOpen, v.channel[1..])
  {
    var r := g.registry;
    var g' := Gateway(g.relay, g.inFlight, Registry(r.connections, r.channels[sid := r.channels[sid][1..]], r.nextId),
                      g.sessions[sid := s]);
    ChannelOnlyView(g, sid, s, r.channels[sid][1..]);
    hide OnlyView;
  }

  /** Rewrites the channel of session `sid`, and what it remembers. */
  lemma ChannelOnlyView(g: Gateway, sid: nat, s: Session, channel: seq<Ticket>)
    requires RegistryOk(g) && sid in g.sessions && sid in g.registry.channels
    requires s.device == g.sessions[sid].device && s.phase == g.sessions[sid].phase
    ensures var r := g.registry;
            var g' := Gateway(g.relay, g.inFlight, Registry(r.connections, r.channels[sid := channel], r.nextId),
                              g.sessions[sid := s]);
            OnlyView(g, g', sid) && RegistryOk(g')
  {
  }

  lemma ReceiveKeepsGateway(g: Gateway, sid: nat)
    requires GatewayInv(g)
    ensures GatewayInv(AfterReceive(g, sid))
  {
    if InPhase(g, sid, {Live}) && ChannelOf(g.registry, sid) != [] {
      var s, channel := g.sessions[sid], g.registry.channels[sid];
      RegistryHolds(g);
      SessionHolds(g, sid);
      assert ViewOf(g, sid).channel == channel && ViewOf(g, sid).session == s;
      ReceiveViews(g, sid, s.(taken := s.taken + [channel[0]]));
      ReceiveHere(ViewOf(g, sid), g.relay.log, QueueOf(g.relay, s.device), g.inFlight);
      var g' := AfterReceive(g, sid);
      hide SessionOk, RelayInv, RegistryOk, FlightOk, GatewayInv, OnlyView, Buffers, ViewOf, QueueOf;
      OneViewKeepsGateway(g, g', sid);
    }
  }

  lemma LeaveKeepsGateway(g: Gateway, sid: nat)
    requires GatewayInv(g)
    ensures GatewayInv(AfterLeave(g, sid))
  {
    hide GatewayInv;
    if InPhase(g, sid, {Greeting, Flushing, Live}) {
      LeavingKeepsGateway(g, sid, AfterLeave(g, sid));
    }
  }

  lemma CloseViews(g: Gateway, sid: nat)
    requires RegistryOk(g) && InPhase(g, sid, {Leaving}) && !ViewOf(g, sid).owns
    ensures var g' := AfterClose(g, sid);
            && OnlyView(g, g', sid) && RegistryOk(g')
            && ViewOf(g', sid) == View(SetPhase(g.sessions[sid], Closed), false, false, [], false, [])
  {
  }

  lemma CloseKeepsGateway(g: Gateway, sid: nat)
    requires GatewayInv(g)
    ensures GatewayInv(AfterClose(g, sid))
  {
    if InPhase(g, sid, {Leaving}) {
      RegistryHolds(g);
      SessionHolds(g, sid);
      assert ViewOf(g, sid).session.phase == Leaving;
      CloseViews(g, sid);
      CloseHere(ViewOf(g, sid), g.relay.log, QueueOf(g.relay, g.sessions[sid].device), g.inFlight);
      hide SessionOk, RelayInv, RegistryOk, FlightOk, GatewayInv, OnlyView, Buffers;
      OneViewKeepsGateway(g, AfterClose(g, sid), sid);
    }
  }

  lemma StepKeepsInv(g: Gateway, e: Event)
    requires GatewayInv(g)
    ensures GatewayInv(Step(g, e))
  {
    assert RelayInv(g.relay);
    hide GatewayInv, RelayInv, AfterPush, AfterOffer, AfterReserve, AfterRegister, AfterPull, AfterSendBacklog,
      AfterActivate, AfterReceive, AfterLeave, AfterClose, Relay.Pull, Relay.Ack;
    match e
    case PushMessage(m, now) => PushKeepsGateway(g, m, now);
    case Offer(t) => OfferKeepsGateway(g, t);
    case Acknowledge(d, id) =>
      AckShrinks(g.relay, d, id);
      ShrinkKeepsGateway(g, Relay.Ack(g.relay, d, id).0);
    case Poll(d, now) =>
      PollShrinks(g.relay, d, now);
      ShrinkKeepsGateway(g, Relay.Pull(g.relay, d, now).0);
    case Reserve(d) => ReserveKeepsGateway(g, d);
    case Register(sid) => RegisterKeepsGateway(g, sid);
    case PullBacklog(sid, now) => PullKeepsGateway(g, sid, now);
    case SendBacklog(sid) => SendKeepsGateway(g, sid);
    case Activate(sid) => ActivateKeepsGateway(g, sid);
    case Receive(sid) => ReceiveKeepsGateway(g, sid);
    case Leave(sid) => LeaveKeepsGateway(g, sid);
    case Close(sid) => CloseKeepsGateway(g, sid);
  }

  lemma {:induction false} RunKeepsInv(events: seq<Event>)
    ensures GatewayInv(Run(events))
  {
    if events == [] {
    } else {
      RunKeepsInv(events[..|events| - 1]);
      StepKeepsInv(Run(events[..|events| - 1]), events[|events| - 1]);
    }
  }
}
