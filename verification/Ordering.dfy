/** Live delivery is first-in, first-out: over every run, in the order of the offers. */
module Ordering {
  import opened Prelude
  import opened Protocol
  import opened Sums
  import opened Relay
  import opened Connections
  import opened Gateway
  import opened GatewayViews
  import opened GatewayRuns
  import Delivery

  // ----- Subsequences -----

  predicate Subsequence(a: seq<Ticket>, b: seq<Ticket>) {
    a == [] ||
    (b != [] &&
     (var b' := b[..|b| - 1];
      Subsequence(a, b') || (a[|a| - 1] == b[|b| - 1] && Subsequence(a[..|a| - 1], b'))))
  }

  lemma {:induction false} SubRefl(a: seq<Ticket>)
    ensures Subsequence(a, a)
  {
    if a != [] {
      SubRefl(a[..|a| - 1]);
    }
  }

  lemma SubSnoc(a: seq<Ticket>, b: seq<Ticket>, t: Ticket)
    requires Subsequence(a, b)
    ensures Subsequence(a, b + [t]) && Subsequence(a + [t], b + [t])
  {
    assert (b + [t])[..|b|] == b && (a + [t])[..|a|] == a;
  }

  lemma {:induction false} SubTrans(a: seq<Ticket>, b: seq<Ticket>, c: seq<Ticket>)
    requires Subsequence(a, b) && Subsequence(b, c)
    ensures Subsequence(a, c)
    decreases |c|
  {
    if a != [] && b != [] {
      var a', b', c' := a[..|a| - 1], b[..|b| - 1], c[..|c| - 1];
      if Subsequence(b, c') {
        SubTrans(a, b, c');
      } else if Subsequence(a, b') {
        SubTrans(a, b', c');
      } else {
        SubTrans(a', b', c');
      }
    }
  }

  lemma {:induction false} SubPrefix(a: seq<Ticket>, b: seq<Ticket>)
    ensures Subsequence(a, a + b)
  {
    if b == [] {
      SubRefl(a);
      assert a + b == a;
    } else {
      SubPrefix(a, b[..|b| - 1]);
      SubSnoc(a, a + b[..|b| - 1], b[|b| - 1]);
      assert a + b == a + b[..|b| - 1] + [b[|b| - 1]];
    }
  }

  lemma {:induction false} SubFilter(front: seq<Ticket>, s: seq<Ticket>, keep: Ticket -> bool)
    ensures Subsequence(front + Filter(s, keep), front + s)
  {
    if s == [] {
      SubRefl(front + []);
    } else {
      var s', t := s[..|s| - 1], s[|s| - 1];
      SubFilter(front, s', keep);
      SubSnoc(front + Filter(s', keep), front + s', t);
      assert front + s == front + s' + [t];
      assert front + (Filter(s', keep) + [t]) == front + Filter(s', keep) + [t];
    }
  }

  // ----- The live stream of a session -----

  /** What the live route has brought to a session, oldest first: handed over, then in the channel, then pending. */
  function Stream(v: View): seq<Ticket> {
    v.session.taken + v.channel + v.pending
  }

  /** The messages of device `d` whose offers took effect, in the order of the offers. */
  ghost function Offers(events: seq<Event>, d: Id): seq<Ticket> {
    if events == [] then []
    else
      var front, e := events[..|events| - 1], events[|events| - 1];
      Offers(front, d) + OfferedBy(Run(front), e, d)
  }

  function OfferedBy(g: Gateway, e: Event, d: Id): seq<Ticket> {
    if e.Offer? && e.ticket in g.inFlight && e.ticket.message.recipientDeviceId == d then [e.ticket] else []
  }

  /** A step at most takes messages out of the stream of a session, and puts the offered one at its end. */
  ghost predicate StreamStep(g: Gateway, g': Gateway, sid: nat, offered: seq<Ticket>) {
    && sid in g.sessions && sid in g'.sessions && g'.sessions[sid].device == g.sessions[sid].device
    && Subsequence(Stream(ViewOf(g', sid)), Stream(ViewOf(g, sid)) + offered)
  }

  lemma SameStream(g: Gateway, g': Gateway, sid: nat)
    requires sid in g.sessions && sid in g'.sessions && g'.sessions[sid].device == g.sessions[sid].device
    requires Stream(ViewOf(g', sid)) == Stream(ViewOf(g, sid))
    ensures StreamStep(g, g', sid, [])
  {
    hide ViewOf, Subsequence;
    SubRefl(Stream(ViewOf(g, sid)));
    assert Stream(ViewOf(g, sid)) + [] == Stream(ViewOf(g, sid));
  }

  lemma SameViewSameStream(g: Gateway, g': Gateway, sid: nat)
    requires sid in g.sessions && sid in g'.sessions && ViewOf(g', sid) == ViewOf(g, sid)
    ensures StreamStep(g, g', sid, [])
  {
    assert g'.sessions[sid] == ViewOf(g', sid).session == g.sessions[sid];
    hide ViewOf, Stream;
    SameStream(g, g', sid);
  }

  /** An offer to the owner leaves its stream, or puts the message at its end. */
  lemma OwnStream(v: View, v': View, t: Ticket)
    requires Buffers(v) && v.owns
    requires || v' == WithSession(v, v.session.(refused := v.session.refused + {t.serial}))
             || (v.ready && v' == WithChannel(v, v.channel + [t]))
             || (!v.ready && v' == WithPending(v, v.pending + [t]))
    ensures Stream(v') == Stream(v) || Stream(v') == Stream(v) + [t]
  {
    assert v.ready ==> v.session.taken + (v.channel + [t]) + [] == v.session.taken + v.channel + [] + [t];
    assert v.session.taken + v.channel + (v.pending + [t]) == Stream(v) + [t];
  }

  lemma SameOrLonger(a: seq<Ticket>, a': seq<Ticket>, t: Ticket)
    requires a' == a || a' == a + [t]
    ensures Subsequence(a', a + [t])
  {
    SubRefl(a);
    SubSnoc(a, a, t);
  }

  lemma OfferStream(g: Gateway, t: Ticket, sid: nat)
    requires GatewayInv(g) && t in g.inFlight && sid in g.sessions
    ensures StreamStep(g, AfterOffer(g, t), sid, OfferedBy(g, Offer(t), g.sessions[sid].device))
  {
    RegistryHolds(g);
    if Owns(g.registry, t.message.recipientDeviceId, sid) {
      assert g.sessions[sid].device == t.message.recipientDeviceId;
      OwnerStream(g, t, sid);
    } else {
      OfferOtherView(g, t, sid);
      hide *;
      SameViewSameStream(g, AfterOffer(g, t), sid);
      OfferedAnyway(g, AfterOffer(g, t), sid, t);
    }
  }

  lemma OwnerStream(g: Gateway, t: Ticket, sid: nat)
    requires GatewayInv(g) && t in g.inFlight && sid in g.sessions
    requires Owns(g.registry, t.message.recipientDeviceId, sid)
    requires g.sessions[sid].device == t.message.recipientDeviceId
    ensures StreamStep(g, AfterOffer(g, t), sid, [t])
    ensures OfferedBy(g, Offer(t), g.sessions[sid].device) == [t]
  {
    SessionHolds(g, sid);
    var v := ViewOf(g, sid);
    assert v.owns && v.isOpen && v.session == g.sessions[sid];
    assert OfferedBy(g, Offer(t), g.sessions[sid].device) == [t];
    hide GatewayInv, SessionOk, AfterOffer, Refuses, Owns, Subsequence, Stream, ViewOf, Buffers;
    OfferOwnView(g, t, sid);
    OwnStream(v, ViewOf(AfterOffer(g, t), sid), t);
    SameOrLonger(Stream(v), Stream(ViewOf(AfterOffer(g, t), sid)), t);
  }

  lemma OfferedAnyway(g: Gateway, g': Gateway, sid: nat, t: Ticket)
    requires StreamStep(g, g', sid, [])
    ensures StreamStep(g, g', sid, OfferedBy(g, Offer(t), g.sessions[sid].device))
  {
    hide Stream, ViewOf, Subsequence;
    var a := Stream(ViewOf(g, sid));
    assert a + [] == a;
    SubSnoc(Stream(ViewOf(g', sid)), a, t);
  }

  // ----- The other steps, on views -----

  ghost predicate Shrinks(v: View, v': View) {
    v'.session.device == v.session.device && Subsequence(Stream(v'), Stream(v))
  }

  lemma DropsEnd(v: View, v': View, dropped: seq<Ticket>)
    requires v'.session.device == v.session.device && Stream(v) == Stream(v') + dropped
    ensures Shrinks(v, v')
  {
    hide Stream;
    SubPrefix(Stream(v'), dropped);
  }

  lemma SessionChanges(v: View, s: Session)
    requires s.device == v.session.device && s.taken == v.session.taken
    ensures Shrinks(v, WithSession(v, s))
  {
    SubRefl(Stream(v));
  }

  lemma RegisterShrinks(v: View)
    requires Buffers(v) && v.session.phase == Reserved
    ensures Shrinks(v, View(SetPhase(v.session, Greeting), true, false, [], true, []))
  {
    SubRefl([]);
  }

  lemma DisownShrinks(v: View, s: Session)
    requires s.device == v.session.device && s.taken == v.session.taken
    ensures Shrinks(v, View(s, false, false, [], v.isOpen, v.channel))
  {
    DropsEnd(v, View(s, false, false, [], v.isOpen, v.channel), v.pending);
  }

  lemma ActivateShrinks(v: View, s: Session)
    requires s.device == v.session.device && s.taken == v.session.taken && v.channel == []
    ensures Shrinks(v, View(s, true, true, [], true, Filter(v.pending, Undelivered(Ids(s.backlog)))))
  {
    var keep := Undelivered(Ids(s.backlog));
    SubFilter(s.taken, v.pending, keep);
    assert s.taken + [] + v.pending == s.taken + v.pending;
    assert s.taken + Filter(v.pending, keep) + [] == s.taken + Filter(v.pending, keep);
  }

  lemma ReceiveShrinks(v: View)
    requires v.channel != []
    ensures var s := v.session.(taken := v.session.taken + [v.channel[0]]);
            Shrinks(v, View(s, v.owns, v.ready, v.pending, v.isOpen, v.channel[1..]))
  {
    var s := v.session.(taken := v.session.taken + [v.channel[0]]);
    var v' := View(s, v.owns, v.ready, v.pending, v.isOpen, v.channel[1..]);
    assert v.channel == [v.channel[0]] + v.channel[1..];
    assert Stream(v') == Stream(v);
    SubRefl(Stream(v));
  }

  lemma CloseShrinks(v: View)
    ensures Shrinks(v, View(SetPhase(v.session, Closed), false, false, [], false, []))
  {
    var v' := View(SetPhase(v.session, Closed), false, false, [], false, []);
    assert Stream(v) == Stream(v') + (v.channel + v.pending);
    DropsEnd(v, v', v.channel + v.pending);
  }

  // ----- The other steps, on the gateway -----

  lemma SessionOfView(g: Gateway, sid: nat)
    requires sid in g.sessions
    ensures ViewOf(g, sid).session == g.sessions[sid]
  {
  }

  lemma ShrinksMeansStep(g: Gateway, g': Gateway, sid: nat)
    requires sid in g.sessions && sid in g'.sessions && Shrinks(ViewOf(g, sid), ViewOf(g', sid))
    ensures StreamStep(g, g', sid, [])
  {
    hide ViewOf, Stream, Subsequence;
    SessionOfView(g, sid);
    SessionOfView(g', sid);
    assert Stream(ViewOf(g, sid)) + [] == Stream(ViewOf(g, sid));
  }

  /** A step of session `x` that touches no other view and shrinks its own. */
  lemma OneShrinks(g: Gateway, g': Gateway, x: nat, sid: nat)
    requires OnlyView(g, g', x) && x in g.sessions && sid in g.sessions
    requires Shrinks(ViewOf(g, x), ViewOf(g', x))
    ensures StreamStep(g, g', sid, [])
  {
    hide ViewOf, Shrinks;
    if sid == x {
      ShrinksMeansStep(g, g', x);
    } else {
      SameViewSameStream(g, g', sid);
    }
  }

  lemma ReserveStream(g: Gateway, d: Id, sid: nat)
    requires GatewayInv(g) && sid in g.sessions
    ensures StreamStep(g, AfterReserve(g, d), sid, [])
  {
    RegistryHolds(g);
    ReserveViews(g, d);
    hide *;
    SameViewSameStream(g, AfterReserve(g, d), sid);
  }

  lemma RegisterStream(g: Gateway, x: nat, sid: nat)
    requires GatewayInv(g) && sid in g.sessions && InPhase(g, x, {Reserved})
    ensures StreamStep(g, AfterRegister(g, x), sid, [])
  {
    RegistryHolds(g);
    SessionHolds(g, x);
    SessionOfView(g, x);
    assert g.sessions[x].phase == Reserved;
    hide *;
    RegisterViews(g, x);
    SessionOfView(g, sid);
    if sid == x {
      RegisterShrinks(ViewOf(g, x));
    } else {
      SessionChanges(ViewOf(g, sid), g.sessions[sid]);
      SameSession(ViewOf(g, sid));
      DisownShrinks(ViewOf(g, sid), g.sessions[sid]);
    }
    ShrinksMeansStep(g, AfterRegister(g, x), sid);
  }

  lemma SameSession(v: View)
    ensures WithSession(v, v.session) == v
  {
  }

  lemma SendStream(g: Gateway, x: nat, sid: nat)
    requires GatewayInv(g) && sid in g.sessions
    ensures StreamStep(g, AfterSendBacklog(g, x), sid, [])
  {
    hide *;
    SendMeans(g, x);
    RegistryHolds(g);
    if x in g.sessions && AfterSendBacklog(g, x) != g {
      var s := g.sessions[x];
      var s' := s.(sent := s.sent + 1);
      SessionViews(g, x, s');
      SessionChanges(ViewOf(g, x), s');
      OneShrinks(g, AfterSendBacklog(g, x), x, sid);
    } else {
      SameViewSameStream(g, g, sid);
    }
  }

  lemma PullStream(g: Gateway, x: nat, now: u64, sid: nat)
    requires GatewayInv(g) && sid in g.sessions && InPhase(g, x, {Greeting})
    ensures StreamStep(g, AfterPull(g, x, now), sid, [])
  {
    var s, g' := g.sessions[x], AfterPull(g, x, now);
    var backlog := Tickets(Unexpired(QueueOf(g.relay, s.device), now));
    var s' := s.(phase := Flushing, sent := 0, backlog := backlog);
    var middle := Gateway(g.relay, g.inFlight, g.registry, g.sessions[x := s']);
    assert g'.sessions == middle.sessions && g'.registry == middle.registry;
    SessionOfView(g, x);
    hide *;
    RegistryHolds(g);
    SessionViews(g, x, s');
    SessionChanges(ViewOf(g, x), s');
    OneShrinks(g, middle, x, sid);
    RelayAside(g, middle, g', sid);
  }

  /** Views do not look at the relay. */
  lemma RelayAside(g: Gateway, g': Gateway, h: Gateway, sid: nat)
    requires StreamStep(g, g', sid, []) && h.sessions == g'.sessions && h.registry == g'.registry
    ensures StreamStep(g, h, sid, [])
  {
    hide Subsequence, Stream;
    assert ViewOf(h, sid) == ViewOf(g', sid);
  }

  lemma ActivateStream(g: Gateway, x: nat, sid: nat)
    requires GatewayInv(g) && sid in g.sessions
    requires InPhase(g, x, {Flushing}) && g.sessions[x].sent >= |g.sessions[x].backlog|
    requires Owns(g.registry, g.sessions[x].device, x)
    ensures StreamStep(g, AfterActivate(g, x), sid, [])
  {
    RegistryHolds(g);
    SessionHolds(g, x);
    var s, v := g.sessions[x], ViewOf(g, x);
    assert v.session == s && v.isOpen && v.channel == [] && |v.pending| <= LIVE_CHANNEL_CAPACITY;
    var s' := s.(phase := Live, early := OfferedSoFar(g));
    ActivateMeans(g, x);
    LiveViews(g, x, s', Filter(v.pending, Undelivered(Ids(s.backlog))));
    hide *;
    ActivateShrinks(v, s');
    OneShrinks(g, AfterActivate(g, x), x, sid);
  }

  lemma LeavingStream(g: Gateway, x: nat, g': Gateway, sid: nat)
    requires GatewayInv(g) && sid in g.sessions && Left(g, g', x)
    ensures StreamStep(g, g', sid, [])
  {
    assert x in g.sessions;
    hide *;
    RegistryHolds(g);
    LeavingViews(g, x, g');
    SessionOfView(g, x);
    SetPhaseKeeps(g.sessions[x], Leaving);
    DisownShrinks(ViewOf(g, x), SetPhase(g.sessions[x], Leaving));
    OneShrinks(g, g', x, sid);
  }

  lemma SetPhaseKeeps(s: Session, phase: Phase)
    ensures SetPhase(s, phase).device == s.device && SetPhase(s, phase).taken == s.taken
  {
  }

  lemma ReceiveStream(g: Gateway, x: nat, sid: nat)
    requires GatewayInv(g) && sid in g.sessions && InPhase(g, x, {Live}) && ChannelOf(g.registry, x) != []
    ensures StreamStep(g, AfterReceive(g, x), sid, [])
  {
    var s, channel := g.sessions[x], g.registry.channels[x];
    RegistryHolds(g);
    assert ViewOf(g, x).channel == channel && ViewOf(g, x).session == s;
    ReceiveViews(g, x, s.(taken := s.taken + [channel[0]]));
    hide *;
    ReceiveShrinks(ViewOf(g, x));
    OneShrinks(g, AfterReceive(g, x), x, sid);
  }

  lemma CloseStream(g: Gateway, x: nat, sid: nat)
    requires GatewayInv(g) && sid in g.sessions && InPhase(g, x, {Leaving})
    ensures StreamStep(g, AfterClose(g, x), sid, [])
  {
    RegistryHolds(g);
    SessionHolds(g, x);
    assert ViewOf(g, x).session == g.sessions[x];
    CloseViews(g, x);
    hide *;
    CloseShrinks(ViewOf(g, x));
    OneShrinks(g, AfterClose(g, x), x, sid);
  }

  /** What the first steps of a session do when they are enabled; otherwise they change nothing. */
  lemma SetupEvent(g: Gateway, e: Event, sid: nat)
    requires GatewayInv(g) && sid in g.sessions && (e.Register? || e.PullBacklog? || e.SendBacklog?)
    ensures StreamStep(g, Step(g, e), sid, [])
  {
    SameViewSameStream(g, g, sid);
    hide GatewayInv, StreamStep, Registered, Relay.Pull, ViewOf, Tickets, Unexpired, QueueOf, AfterSendBacklog;
    match e
    case Register(x) => if InPhase(g, x, {Reserved}) { RegisterStream(g, x, sid); }
    case PullBacklog(x, now) => if InPhase(g, x, {Greeting}) { PullStream(g, x, now, sid); }
    case SendBacklog(x) => SendStream(g, x, sid);
  }

  lemma ActivationStream(g: Gateway, x: nat, sid: nat)
    requires GatewayInv(g) && sid in g.sessions
    requires InPhase(g, x, {Flushing}) && g.sessions[x].sent >= |g.sessions[x].backlog|
    ensures StreamStep(g, AfterActivate(g, x), sid, [])
  {
    hide GatewayInv, StreamStep, AfterActivate, Left;
    if Owns(g.registry, g.sessions[x].device, x) {
      ActivateStream(g, x, sid);
    } else {
      LostEntryLeaves(g, x);
      LeavingStream(g, x, AfterActivate(g, x), sid);
    }
  }

  lemma Disabled(g: Gateway, e: Event)
    requires e.Activate? || e.Receive? || e.Leave? || e.Close?
    ensures var x := e.session;
            match e
            case Activate(_) =>
              Step(g, e) == AfterActivate(g, x)
              && ((InPhase(g, x, {Flushing}) && g.sessions[x].sent >= |g.sessions[x].backlog|) || Step(g, e) == g)
            case Receive(_) =>
              Step(g, e) == AfterReceive(g, x)
              && ((InPhase(g, x, {Live}) && ChannelOf(g.registry, x) != []) || Step(g, e) == g)
            case Leave(_) =>
              Step(g, e) == AfterLeave(g, x) && (InPhase(g, x, {Greeting, Flushing, Live}) || Step(g, e) == g)
            case Close(_) => Step(g, e) == AfterClose(g, x) && (InPhase(g, x, {Leaving}) || Step(g, e) == g)
            case _ => true
  {
    hide Activated, Unregistered, OfferedSoFar;
  }

  lemma LaterEvent(g: Gateway, e: Event, sid: nat)
    requires GatewayInv(g) && sid in g.sessions && (e.Activate? || e.Receive? || e.Leave? || e.Close?)
    ensures StreamStep(g, Step(g, e), sid, [])
  {
    SameViewSameStream(g, g, sid);
    Disabled(g, e);
    hide GatewayInv, StreamStep, Step;
    match e
    case Activate(x) =>
      if InPhase(g, x, {Flushing}) && g.sessions[x].sent >= |g.sessions[x].backlog| {
        ActivationStream(g, x, sid);
      }
    case Receive(x) => if InPhase(g, x, {Live}) && ChannelOf(g.registry, x) != [] { ReceiveStream(g, x, sid); }
    case Leave(x) =>
      if InPhase(g, x, {Greeting, Flushing, Live}) { LeavingStream(g, x, AfterLeave(g, x), sid); }
    case Close(x) => if InPhase(g, x, {Leaving}) { CloseStream(g, x, sid); }
  }

  lemma LostEntryLeaves(g: Gateway, x: nat)
    requires InPhase(g, x, {Flushing}) && g.sessions[x].sent >= |g.sessions[x].backlog|
    requires !Owns(g.registry, g.sessions[x].device, x)
    ensures Left(g, AfterActivate(g, x), x)
  {
  }

  lemma EveryStep(g: Gateway, e: Event, sid: nat)
    requires GatewayInv(g) && sid in g.sessions
    ensures StreamStep(g, Step(g, e), sid, OfferedBy(g, e, g.sessions[sid].device))
  {
    hide GatewayInv, StreamStep, Relay.Push, Relay.Pull, Relay.Ack, AfterReserve, ViewOf;
    if e.Offer? {
      if e.ticket in g.inFlight {
        OfferStream(g, e.ticket, sid);
      } else {
        SameViewSameStream(g, g, sid);
      }
    } else if e.Reserve? {
      ReserveStream(g, e.device, sid);
    } else if e.PushMessage? || e.Acknowledge? || e.Poll? {
      SameView(g, Step(g, e), sid);
      SameViewSameStream(g, Step(g, e), sid);
    } else if e.Register? || e.PullBacklog? || e.SendBacklog? {
      SetupEvent(g, e, sid);
    } else {
      LaterEvent(g, e, sid);
    }
  }

  lemma NewSessionIsEmpty(g: Gateway, e: Event, sid: nat)
    requires GatewayInv(g) && sid !in g.sessions && sid in Step(g, e).sessions
    ensures Stream(ViewOf(Step(g, e), sid)) == []
  {
    Delivery.NewSessionsAreReserved(g, e, sid);
    RegistryHolds(g);
    hide GatewayInv, RegistryOk, FlightOk, RelayInv, ViewOf;
    ReserveViews(g, e.device);
  }

  /** First-in, first-out: at every point of every run, what the live route has handed to a session, then what is in
      its channel, then what is pending for it, is in this order a selection of the offers for its device, in the
      order in which these took effect. Nothing overtakes, and nothing appears that was not offered. */
  lemma {:induction false} LiveDeliveryIsInOrder(events: seq<Event>, sid: nat)
    requires sid in Run(events).sessions
    ensures Subsequence(Stream(ViewOf(Run(events), sid)), Offers(events, Run(events).sessions[sid].device))
  {
    if events == [] {
    } else {
      var front, e := events[..|events| - 1], events[|events| - 1];
      RunKeepsInv(front);
      if sid in Run(front).sessions {
        LiveDeliveryIsInOrder(front, sid);
        EveryStep(Run(front), e, sid);
        OrderStep(Run(front), Run(events), sid, Offers(front, Run(events).sessions[sid].device),
                  OfferedBy(Run(front), e, Run(events).sessions[sid].device));
      } else {
        NewSessionIsEmpty(Run(front), e, sid);
      }
    }
  }

  lemma OrderStep(g: Gateway, g': Gateway, sid: nat, offers: seq<Ticket>, offered: seq<Ticket>)
    requires StreamStep(g, g', sid, offered) && |offered| <= 1
    requires Subsequence(Stream(ViewOf(g, sid)), offers)
    ensures Subsequence(Stream(ViewOf(g', sid)), offers + offered)
  {
    hide Stream, ViewOf, Subsequence;
    var a := Stream(ViewOf(g, sid));
    assert offers + [] == offers && a + [] == a;
    if offered != [] {
      SubSnoc(a, offers, offered[0]);
    }
    SubTrans(Stream(ViewOf(g', sid)), a + offered, offers + offered);
  }
}
