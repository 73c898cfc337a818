/** What a session can always do: complete its backlog and go live, drain its channel, and end. */
module Progress {
  import opened Prelude
  import opened Protocol
  import opened Sums
  import opened Relay
  import opened Connections
  import opened Gateway
  import opened GatewayViews
  import opened GatewayRuns
  import Delivery
  import RelayRuns

  ghost function RunFrom(g: Gateway, events: seq<Event>): Gateway {
    if events == [] then g else Step(RunFrom(g, events[..|events| - 1]), events[|events| - 1])
  }

  lemma RunFromMore(g: Gateway, events: seq<Event>, e: Event)
    ensures RunFrom(g, events + [e]) == Step(RunFrom(g, events), e)
  {
    assert (events + [e])[..|events|] == events;
  }

  lemma {:induction false} RunInTwo(events: seq<Event>, more: seq<Event>)
    ensures Run(events + more) == RunFrom(Run(events), more)
  {
    hide *;
    if more == [] {
      RunFromNothing(Run(events));
      assert events + more == events;
    } else {
      var front, e := more[..|more| - 1], more[|more| - 1];
      RunInTwo(events, front);
      RunMore(events + front, e);
      RunFromMore(Run(events), front, e);
      assert more == front + [e] && events + more == events + front + [e];
    }
  }

  lemma RunMore(events: seq<Event>, e: Event)
    ensures Run(events + [e]) == Step(Run(events), e)
  {
    assert (events + [e])[..|events|] == events;
  }

  lemma RunFromNothing(g: Gateway)
    ensures RunFrom(g, []) == g
  {
  }

  function Times(n: nat, e: Event): seq<Event> {
    if n == 0 then [] else Times(n - 1, e) + [e]
  }

  predicate OwnSteps(events: seq<Event>, sid: nat) {
    forall e :: e in events ==>
      e == Register(sid) || (e.PullBacklog? && e.session == sid) || e == SendBacklog(sid) || e == Activate(sid)
  }

  lemma {:induction false} TimesIsOwn(n: nat, sid: nat)
    ensures OwnSteps(Times(n, SendBacklog(sid)), sid)
  {
    if n > 0 {
      TimesIsOwn(n - 1, sid);
    }
  }

  function MessagesOf(ts: seq<Ticket>): seq<EncryptedMessage> {
    if ts == [] then [] else MessagesOf(ts[..|ts| - 1]) + [ts[|ts| - 1].message]
  }

  lemma {:induction false} TicketsCarryMessages(q: Queue)
    ensures MessagesOf(Tickets(q)) == Messages(q)
  {
    if q != [] {
      var front := q[..|q| - 1];
      TicketsCarryMessages(front);
      assert Tickets(q)[..|Tickets(q)| - 1] == Tickets(front);
    }
  }

  // ----- From the registration to the activation -----

  /** `g` with session `sid` registered for its device, its buffers empty. */
  function Alone(g: Gateway, relay: RelayState, sid: nat, ready: bool, s: Session): Gateway {
    var r := g.registry;
    Gateway(relay, g.inFlight,
            Registry(r.connections[s.device := Connection(sid, ready, [])], r.channels[sid := []], r.nextId),
            g.sessions[sid := s])
  }

  lemma Registering(g: Gateway, sid: nat)
    requires InPhase(g, sid, {Reserved})
    ensures Step(g, Register(sid)) == Alone(g, g.relay, sid, false, g.sessions[sid].(phase := Greeting))
  {
  }

  lemma Pulling(g: Gateway, r: RelayState, sid: nat, s: Session, now: u64)
    requires s.phase == Greeting
    ensures var backlog := Tickets(Unexpired(QueueOf(r, s.device), now));
            Step(Alone(g, r, sid, false, s), PullBacklog(sid, now))
            == Alone(g, Relay.Pull(r, s.device, now).0, sid, false,
                     s.(phase := Flushing, sent := 0, backlog := backlog))
  {
    hide Relay.Pull, Tickets, Unexpired, QueueOf;
  }

  lemma Sending(g: Gateway, r: RelayState, sid: nat, s: Session)
    requires s.phase == Flushing && s.sent < |s.backlog|
    ensures Step(Alone(g, r, sid, false, s), SendBacklog(sid)) == Alone(g, r, sid, false, s.(sent := s.sent + 1))
  {
  }

  lemma {:induction false} SendingAll(g: Gateway, r: RelayState, sid: nat, s: Session, n: nat)
    requires s.phase == Flushing && s.sent + n <= |s.backlog|
    ensures RunFrom(Alone(g, r, sid, false, s), Times(n, SendBacklog(sid)))
            == Alone(g, r, sid, false, s.(sent := s.sent + n))
  {
    TimesSteps(Alone(g, r, sid, false, s), n, SendBacklog(sid));
    hide Alone, RunFrom, Step, Times;
    if n == 0 {
      assert s.(sent := s.sent + 0) == s;
    } else {
      SendingAll(g, r, sid, s, n - 1);
      Sending(g, r, sid, s.(sent := s.sent + n - 1));
    }
  }

  lemma Activating(g: Gateway, r: RelayState, sid: nat, s: Session) returns (early: set<nat>)
    requires s.phase == Flushing && s.sent == |s.backlog|
    ensures Step(Alone(g, r, sid, false, s), Activate(sid))
            == Alone(g, r, sid, true, s.(phase := Live, early := early))
  {
    hide OfferedSoFar, Ids;
    early := OfferedSoFar(Alone(g, r, sid, false, s));
    assert Flushed([], [], Ids(s.backlog)) == [];
  }

  lemma Completing(g: Gateway, sid: nat, now: u64) returns (steps: seq<Event>, early: set<nat>)
    requires InPhase(g, sid, {Reserved})
    ensures OwnSteps(steps, sid)
    ensures var s := g.sessions[sid];
            var backlog := Tickets(Unexpired(QueueOf(g.relay, s.device), now));
            RunFrom(g, steps)
            == Alone(g, Relay.Pull(g.relay, s.device, now).0, sid, true,
                     s.(phase := Live, backlog := backlog, sent := |backlog|, early := early))
  {
    var s, r := g.sessions[sid], g.relay;
    hide Relay.Pull, Tickets, Unexpired, QueueOf, Alone, Step;
    var backlog, r' := Tickets(Unexpired(QueueOf(r, s.device), now)), Relay.Pull(r, s.device, now).0;
    var s1 := s.(phase := Greeting);
    var s2 := s1.(phase := Flushing, sent := 0, backlog := backlog);
    var s3 := s2.(sent := |backlog|);
    Registering(g, sid);
    Pulling(g, r, sid, s1, now);
    SendingAll(g, r', sid, s2, |backlog|);
    early := Activating(g, r', sid, s3);
    var sends := Times(|backlog|, SendBacklog(sid));
    TimesIsOwn(|backlog|, sid);
    steps := [Register(sid), PullBacklog(sid, now)] + sends + [Activate(sid)];
    FourParts(g, Register(sid), PullBacklog(sid, now), sends, Activate(sid));
  }

  lemma {:induction false} RunFromTwo(g: Gateway, one: seq<Event>, two: seq<Event>)
    ensures RunFrom(g, one + two) == RunFrom(RunFrom(g, one), two)
  {
    hide *;
    if two == [] {
      RunFromNothing(RunFrom(g, one));
      assert one + two == one;
    } else {
      var front, e := two[..|two| - 1], two[|two| - 1];
      RunFromTwo(g, one, front);
      RunFromMore(g, one + front, e);
      RunFromMore(RunFrom(g, one), front, e);
      assert two == front + [e] && one + two == one + front + [e];
    }
  }

  lemma FourParts(g: Gateway, a: Event, b: Event, middle: seq<Event>, c: Event)
    ensures RunFrom(g, [a, b] + middle + [c]) == Step(RunFrom(Step(Step(g, a), b), middle), c)
  {
    hide Step;
    RunFromMore(g, [], a);
    RunFromMore(g, [a], b);
    assert [] + [a] == [a] && [a] + [b] == [a, b];
    RunFromTwo(g, [a, b], middle);
    RunFromMore(g, [a, b] + middle, c);
  }

  /** A session that has its id can always complete on its own: it registers, writes the whole backlog to the socket -
      the unexpired messages of its device, in the order the relay answers them - and goes live with empty buffers. */
  lemma SessionCanComplete(events: seq<Event>, sid: nat, now: u64)
    requires InPhase(Run(events), sid, {Reserved})
    ensures exists steps :: OwnSteps(steps, sid) &&
              var g, g' := Run(events), Run(events + steps);
              var d := g.sessions[sid].device;
              && sid in g'.sessions && Owns(g'.registry, d, sid)
              && g'.registry.connections[d] == Connection(sid, true, []) && ChannelOf(g'.registry, sid) == []
              && g'.sessions[sid].phase == Live && g'.sessions[sid].taken == []
              && MessagesOf(Delivery.SentBacklog(g'.sessions[sid])) == Relay.Pull(g.relay, d, now).1
              && g'.relay == Relay.Pull(g.relay, d, now).0 && g'.inFlight == g.inFlight
              && forall x :: x in g.sessions && x != sid ==> x in g'.sessions && g'.sessions[x] == g.sessions[x]
  {
    var g := Run(events);
    var s := g.sessions[sid];
    assert s.taken == [] by { RunKeepsInv(events); ReservedIsEmpty(g, sid); }
    var steps, early := Completing(g, sid, now);
    RunInTwo(events, steps);
    var q := Unexpired(QueueOf(g.relay, s.device), now);
    TicketsCarryMessages(q);
    RelayRuns.QueueAfterPull(g.relay, s.device, now, s.device);
    hide Run, RunFrom, Relay.Pull, Tickets, Unexpired, QueueOf, MessagesOf;
    assert Tickets(q)[..|Tickets(q)|] == Tickets(q);
    assert OwnSteps(steps, sid);
  }

  lemma ReservedIsEmpty(g: Gateway, sid: nat)
    requires GatewayInv(g) && InPhase(g, sid, {Reserved})
    ensures g.sessions[sid].taken == []
  {
    SessionHolds(g, sid);
    assert ViewOf(g, sid).session == g.sessions[sid];
    hide GatewayInv;
  }

  // ----- Draining the channel -----

  /** `g` with `n` messages of the channel of `sid` handed over. */
  function Drained(g: Gateway, sid: nat, n: nat): Gateway
    requires sid in g.sessions && sid in g.registry.channels && n <= |g.registry.channels[sid]|
  {
    var (r, s, channel) := (g.registry, g.sessions[sid], g.registry.channels[sid]);
    g.(registry := r.(channels := r.channels[sid := channel[n..]]),
       sessions := g.sessions[sid := s.(taken := s.taken + channel[..n])])
  }

  lemma DrainOne(g: Gateway, sid: nat, n: nat)
    requires InPhase(g, sid, {Live}) && sid in g.registry.channels && n < |g.registry.channels[sid]|
    ensures Step(Drained(g, sid, n), Receive(sid)) == Drained(g, sid, n + 1)
  {
    var taken, channel := g.sessions[sid].taken, g.registry.channels[sid];
    assert taken + channel[..n] + [channel[n]] == taken + channel[..n + 1] && channel[n..][1..] == channel[n + 1..];
  }

  lemma {:induction false} DrainMany(g: Gateway, sid: nat, n: nat)
    requires InPhase(g, sid, {Live}) && sid in g.registry.channels && n <= |g.registry.channels[sid]|
    ensures RunFrom(g, Times(n, Receive(sid))) == Drained(g, sid, n)
  {
    hide *;
    TimesSteps(g, n, Receive(sid));
    if n == 0 {
      DrainNone(g, sid);
    } else {
      DrainMany(g, sid, n - 1);
      DrainOne(g, sid, n - 1);
    }
  }

  lemma TimesSteps(g: Gateway, n: nat, e: Event)
    ensures RunFrom(g, Times(n, e)) == if n == 0 then g else Step(RunFrom(g, Times(n - 1, e)), e)
  {
    hide Step;
    if n > 0 {
      RunFromMore(g, Times(n - 1, e), e);
    }
  }

  lemma DrainNone(g: Gateway, sid: nat)
    requires InPhase(g, sid, {Live}) && sid in g.registry.channels
    ensures Drained(g, sid, 0) == g
  {
    var (r, s, channel) := (g.registry, g.sessions[sid], g.registry.channels[sid]);
    assert channel[0..] == channel && s.taken + channel[..0] == s.taken;
    assert r.channels[sid := channel] == r.channels && g.sessions[sid := s] == g.sessions;
  }

  /** A live session can hand everything in its channel to the socket, in order, and nothing else changes. */
  lemma ChannelCanDrain(events: seq<Event>, sid: nat)
    requires InPhase(Run(events), sid, {Live})
    ensures var g := Run(events);
            var channel := ChannelOf(g.registry, sid);
            var g' := Run(events + Times(|channel|, Receive(sid)));
            && g'.sessions == g.sessions[sid := g.sessions[sid].(taken := g.sessions[sid].taken + channel)]
            && ChannelOf(g'.registry, sid) == [] && g'.registry.connections == g.registry.connections
            && (forall x :: x != sid ==> ChannelOf(g'.registry, x) == ChannelOf(g.registry, x))
            && g'.relay == g.relay && g'.inFlight == g.inFlight
  {
    var g := Run(events);
    var channel := ChannelOf(g.registry, sid);
    RunInTwo(events, Times(|channel|, Receive(sid)));
    if sid in g.registry.channels {
      hide Run, RunFrom;
      DrainMany(g, sid, |channel|);
      assert channel[..|channel|] == channel;
    } else {
      hide Run;
      assert g.sessions[sid].taken + [] == g.sessions[sid].taken && g.sessions[sid := g.sessions[sid]] == g.sessions;
    }
  }

  // ----- Ending -----

  /** A registered session can always end: then it is closed, its channel is gone, and no entry holds it. The entries
      of all others stay as they are. */
  lemma SessionCanEnd(events: seq<Event>, sid: nat)
    requires InPhase(Run(events), sid, {Greeting, Flushing, Live})
    ensures var g, g' := Run(events), Run(events + [Leave(sid)] + [Close(sid)]);
            && InPhase(g', sid, {Closed}) && sid !in g'.registry.channels
            && (forall d :: d in g'.registry.connections <==>
                            d in g.registry.connections && g.registry.connections[d].id != sid)
            && (forall d :: d in g'.registry.connections ==> g'.registry.connections[d] == g.registry.connections[d])
            && (forall x :: x in g.sessions && x != sid ==> x in g'.sessions && g'.sessions[x] == g.sessions[x])
            && (forall x :: x != sid ==> ChannelOf(g'.registry, x) == ChannelOf(g.registry, x))
  {
    var g := Run(events);
    assert (events + [Leave(sid)])[..|events|] == events;
    assert (events + [Leave(sid)] + [Close(sid)])[..|events| + 1] == events + [Leave(sid)];
    assert Run(events + [Leave(sid)] + [Close(sid)]) == Step(Step(g, Leave(sid)), Close(sid));
    RunKeepsInv(events);
    RegistryHolds(g);
    hide Run, GatewayInv, FlightOk, RelayInv;
    EndStep(g, sid);
  }

  lemma EndStep(g: Gateway, sid: nat)
    requires RegistryOk(g) && InPhase(g, sid, {Greeting, Flushing, Live})
    ensures var g' := Step(Step(g, Leave(sid)), Close(sid));
            && InPhase(g', sid, {Closed}) && sid !in g'.registry.channels
            && (forall d :: d in g'.registry.connections <==>
                            d in g.registry.connections && g.registry.connections[d].id != sid)
            && (forall d :: d in g'.registry.connections ==> g'.registry.connections[d] == g.registry.connections[d])
            && (forall x :: x in g.sessions && x != sid ==> x in g'.sessions && g'.sessions[x] == g.sessions[x])
            && (forall x :: x != sid ==> ChannelOf(g'.registry, x) == ChannelOf(g.registry, x))
  {
  }

  /** A session that was replaced while it wrote its backlog ends at its activation; nothing else changes. */
  lemma ReplacedSessionEnds(g: Gateway, sid: nat)
    requires InPhase(g, sid, {Flushing}) && g.sessions[sid].sent == |g.sessions[sid].backlog|
    requires !Owns(g.registry, g.sessions[sid].device, sid)
    ensures Step(g, Activate(sid)) == g.(sessions := g.sessions[sid := g.sessions[sid].(phase := Leaving)])
  {
  }

  // ----- Offers -----

  /** The offer of an accepted message is made once: the message is not in flight any more, whoever was there to take
      it. Without a connection for its device nothing else changes. */
  lemma OfferSettles(g: Gateway, t: Ticket)
    ensures var g' := Step(g, Offer(t));
            && g'.inFlight == g.inFlight - {t} && g'.relay == g.relay
            && (t !in g.inFlight || t.message.recipientDeviceId !in g.registry.connections ==>
                  g'.registry == g.registry && g'.sessions == g.sessions)
  {
    if t !in g.inFlight { assert g.inFlight - {t} == g.inFlight; }
  }
}
