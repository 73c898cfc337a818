/** The life of a session: how it starts, completes its backlog, goes live, and ends. */
module Lifecycle {
  import opened Prelude
  import opened Protocol
  import opened Relay
  import opened Connections
  import opened Gateway
  import opened GatewayViews
  import opened GatewayRuns
  import opened Replacement

  // ----- Leaving -----

  /** The session ends: an event that finds it registered and unregisters it. */
  ghost predicate Leaves(g: Gateway, e: Event, sid: nat) {
    e == Leave(sid) && InPhase(g, sid, {Greeting, Flushing, Live})
  }

  ghost predicate LeavesOnly(g: Gateway, g': Gateway, sid: nat)
    requires sid in g.sessions
  {
    && g'.sessions == g.sessions[sid := g.sessions[sid].(phase := Leaving)]
    && (forall d :: d in g'.registry.connections <==>
                    d in g.registry.connections && g.registry.connections[d].id != sid)
    && (forall d :: d in g'.registry.connections ==> g'.registry.connections[d] == g.registry.connections[d])
    && g'.registry.channels == g.registry.channels && g'.registry.nextId == g.registry.nextId
    && g'.relay == g.relay && g'.inFlight == g.inFlight
  }

  /** A session that leaves is over, and its device has no entry any more if the entry was its own. Nothing else
      changes: no other entry, no channel, no other session, nothing in flight, nothing in the relay. */
  lemma LeavingMeans(events: seq<Event>, sid: nat)
    requires Leaves(Run(events), Leave(sid), sid)
    ensures LeavesOnly(Run(events), Step(Run(events), Leave(sid)), sid)
  {
    hide *;
    RunKeepsInv(events);
    RegistryHolds(Run(events));
    LeaveStep(Run(events), sid);
  }

  lemma LeaveStep(g: Gateway, sid: nat)
    requires RegistryOk(g) && Leaves(g, Leave(sid), sid)
    ensures LeavesOnly(g, Step(g, Leave(sid)), sid)
  {
    assert Step(g, Leave(sid)) == AfterLeave(g, sid);
    hide Step;
  }

  /** What one step does to the ownership of an entry: a registration takes it over, the owner's leaving gives it up,
      and nothing else touches it. */
  lemma EntryStep(g: Gateway, e: Event, d: Id, sid: nat)
    requires GatewayInv(g)
    ensures Owns(Step(g, e).registry, d, sid) <==>
            || Registers(g, e, d, sid)
            || (Owns(g.registry, d, sid) && !Leaves(g, e, sid) && forall x: nat :: !Registers(g, e, d, x))
  {
    RegistryHolds(g);
    if Owns(g.registry, d, sid) { OwnerIsActive(g, d, sid); }
    hide *;
    if e.Register? {
      RegisterEntry(g, e.session, d, sid);
    } else if e.Leave? {
      LeaveEntry(g, e.session, d, sid);
    } else {
      QuietEntry(g, e, d, sid);
    }
  }

  lemma OwnerIsActive(g: Gateway, d: Id, sid: nat)
    requires GatewayInv(g) && Owns(g.registry, d, sid)
    ensures InPhase(g, sid, {Greeting, Flushing, Live}) && g.sessions[sid].device == d
  {
    RegistryHolds(g);
    SessionHolds(g, sid);
    assert ViewOf(g, sid).owns && ViewOf(g, sid).session == g.sessions[sid];
    hide GatewayInv;
  }

  lemma RegisterEntry(g: Gateway, x: nat, d: Id, sid: nat)
    ensures Owns(Step(g, Register(x)).registry, d, sid) <==>
            || Registers(g, Register(x), d, sid)
            || (Owns(g.registry, d, sid) && !Leaves(g, Register(x), sid)
                && forall y: nat :: !Registers(g, Register(x), d, y))
  {
    assert Step(g, Register(x)) == AfterRegister(g, x);
    hide Step;
    assert InPhase(g, x, {Reserved}) && g.sessions[x].device == d <==> Registers(g, Register(x), d, x);
  }

  lemma LeaveEntry(g: Gateway, x: nat, d: Id, sid: nat)
    requires RegistryOk(g) && (Owns(g.registry, d, sid) ==> InPhase(g, sid, {Greeting, Flushing, Live}))
    ensures Owns(Step(g, Leave(x)).registry, d, sid) <==>
            || Registers(g, Leave(x), d, sid)
            || (Owns(g.registry, d, sid) && !Leaves(g, Leave(x), sid) && forall y: nat :: !Registers(g, Leave(x), d, y))
  {
    assert Step(g, Leave(x)) == AfterLeave(g, x);
    hide Step;
  }

  lemma QuietEntry(g: Gateway, e: Event, d: Id, sid: nat)
    requires !e.Register? && !e.Leave?
    ensures Owns(Step(g, e).registry, d, sid) <==>
            || Registers(g, e, d, sid)
            || (Owns(g.registry, d, sid) && !Leaves(g, e, sid) && forall y: nat :: !Registers(g, e, d, y))
  {
    hide Relay.Push, Relay.Pull, Relay.Ack, Tickets, Unexpired, QueueOf, Flushed, OfferedSoFar, Ids;
  }

  /** The event takes the entry of `d` away from session `sid`. */
  ghost predicate Ends(g: Gateway, e: Event, d: Id, sid: nat) {
    Leaves(g, e, sid) || exists x: nat :: Registers(g, e, d, x)
  }

  /** Session `sid` registered for `d` at some point of the run; no other session did since, and it has not left. */
  ghost predicate RegisteredLast(events: seq<Event>, d: Id, sid: nat) {
    exists k :: 0 <= k < |events| && Registers(Run(events[..k]), events[k], d, sid)
                && forall j :: k < j < |events| ==> !Ends(Run(events[..j]), events[j], d, sid)
  }

  lemma RegisteredLastBefore(front: seq<Event>, e: Event, d: Id, sid: nat)
    requires RegisteredLast(front + [e], d, sid)
    ensures Registers(Run(front), e, d, sid) || (RegisteredLast(front, d, sid) && !Ends(Run(front), e, d, sid))
  {
    hide Run, Registers, Ends;
    var all := front + [e];
    assert all[..|front|] == front && all[|front|] == e;
    var k :| 0 <= k < |all| && Registers(Run(all[..k]), all[k], d, sid)
             && forall j :: k < j < |all| ==> !Ends(Run(all[..j]), all[j], d, sid);
    if k < |front| {
      assert all[..k] == front[..k] && all[k] == front[k];
      forall j | k < j < |front| ensures !Ends(Run(front[..j]), front[j], d, sid) {
        assert all[..j] == front[..j] && all[j] == front[j];
      }
    }
  }

  lemma RegisteredLastAfter(front: seq<Event>, e: Event, d: Id, sid: nat)
    requires RegisteredLast(front, d, sid) && !Ends(Run(front), e, d, sid)
    ensures RegisteredLast(front + [e], d, sid)
  {
    hide Run, Registers, Ends;
    var all := front + [e];
    assert all[..|front|] == front && all[|front|] == e;
    var k :| 0 <= k < |front| && Registers(Run(front[..k]), front[k], d, sid)
             && forall j :: k < j < |front| ==> !Ends(Run(front[..j]), front[j], d, sid);
    assert all[..k] == front[..k] && all[k] == front[k];
    forall j | k < j < |all| ensures !Ends(Run(all[..j]), all[j], d, sid) {
      assert j < |front| ==> all[..j] == front[..j] && all[j] == front[j];
    }
  }

  lemma RegisteredLastMore(front: seq<Event>, e: Event, d: Id, sid: nat)
    ensures RegisteredLast(front + [e], d, sid) <==>
            Registers(Run(front), e, d, sid) || (RegisteredLast(front, d, sid) && !Ends(Run(front), e, d, sid))
  {
    var all := front + [e];
    assert all[..|front|] == front && all[|front|] == e;
    if Registers(Run(front), e, d, sid) {
      assert Registers(Run(all[..|front|]), all[|front|], d, sid);
    }
    hide Run, Registers, Ends;
    assert Registers(Run(front), e, d, sid) ==> RegisteredLast(all, d, sid);
    hide RegisteredLast;
    if RegisteredLast(all, d, sid) {
      RegisteredLastBefore(front, e, d, sid);
    }
    if RegisteredLast(front, d, sid) && !Ends(Run(front), e, d, sid) {
      RegisteredLastAfter(front, e, d, sid);
    }
  }

  /** After every run: the entry of a device holds a session exactly when that session registered last for the device
      and has not left since. */
  lemma {:induction false} EntryHoldsExactlyWhen(events: seq<Event>, d: Id, sid: nat)
    ensures Owns(Run(events).registry, d, sid) <==> RegisteredLast(events, d, sid)
  {
    if events == [] {
    } else {
      var front, e := events[..|events| - 1], events[|events| - 1];
      assert events == front + [e] && Run(events) == Step(Run(front), e);
      assert Ends(Run(front), e, d, sid) <==>
             Leaves(Run(front), e, sid) || exists x: nat :: Registers(Run(front), e, d, x);
      hide *;
      EntryHoldsExactlyWhen(front, d, sid);
      RegisteredLastMore(front, e, d, sid);
      RunKeepsInv(front);
      EntryStep(Run(front), e, d, sid);
    }
  }
}
