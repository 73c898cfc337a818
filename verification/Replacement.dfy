/** Which of a device's connections its entry holds, over every run. */
module Replacement {
  import opened Prelude
  import opened Protocol
  import opened Relay
  import opened Connections
  import opened Gateway
  import opened GatewayRuns

  /** The event registers session `sid` for device `d`. */
  ghost predicate Registers(g: Gateway, e: Event, d: Id, sid: nat) {
    e == Register(sid) && InPhase(g, sid, {Reserved}) && g.sessions[sid].device == d
  }

  /** The sessions registered for `d`, in the order of their registration. */
  ghost function Registrations(events: seq<Event>, d: Id): seq<nat> {
    if events == [] then []
    else
      var front, e := events[..|events| - 1], events[|events| - 1];
      Registrations(front, d)
      + if e.Register? && Registers(Run(front), e, d, e.session) then [e.session] else []
  }

  ghost predicate IsRegistered(g: Gateway, d: Id, sid: nat) {
    sid in g.sessions && g.sessions[sid].device == d && g.sessions[sid].phase != Reserved
  }

  /** If the device has an entry, it holds the newest connection registered for the device. */
  ghost predicate HoldsNewest(g: Gateway, d: Id) {
    d in g.registry.connections ==> forall sid: nat :: IsRegistered(g, d, sid) ==> sid <= g.registry.connections[d].id
  }

  predicate Increasing(s: seq<nat>) {
    forall i, j :: 0 <= i < j < |s| ==> s[i] < s[j]
  }

  /** What one step does to the registered sessions and to the entry of a device. */
  ghost predicate StepShape(g: Gateway, e: Event, d: Id) {
    var g' := Step(g, e);
    && (forall sid: nat :: IsRegistered(g', d, sid) <==> IsRegistered(g, d, sid) || Registers(g, e, d, sid))
    && (d in g'.registry.connections ==>
          if exists sid: nat :: Registers(g, e, d, sid) then Registers(g, e, d, g'.registry.connections[d].id)
          else d in g.registry.connections && g'.registry.connections[d].id == g.registry.connections[d].id)
    && (forall sid: nat :: Registers(g, e, d, sid) ==> d in g'.registry.connections)
  }

  /** A step that registers nobody, and gives no device a different connection. */
  ghost predicate Quiet(g: Gateway, g': Gateway, d: Id) {
    && (forall sid: nat :: IsRegistered(g', d, sid) <==> IsRegistered(g, d, sid))
    && (d in g'.registry.connections ==>
          d in g.registry.connections && g'.registry.connections[d].id == g.registry.connections[d].id)
  }

  lemma QuietBefore(g: Gateway, t: Ticket, newDevice: Id, d: Id)
    requires RegistryOk(g)
    ensures Quiet(g, AfterOffer(g, t), d) && Quiet(g, AfterReserve(g, newDevice), d)
  {
  }

  lemma QuietFlush(g: Gateway, sid: nat, now: u64, d: Id)
    ensures Quiet(g, AfterPull(g, sid, now), d) && Quiet(g, AfterSendBacklog(g, sid), d)
    ensures Quiet(g, AfterActivate(g, sid), d)
  {
    hide Relay.Pull, Tickets, Unexpired, QueueOf, Flushed, OfferedSoFar, Ids;
  }

  lemma QuietAfter(g: Gateway, sid: nat, d: Id)
    ensures Quiet(g, AfterReceive(g, sid), d) && Quiet(g, AfterLeave(g, sid), d) && Quiet(g, AfterClose(g, sid), d)
  {
  }

  lemma QuietStep(g: Gateway, e: Event, d: Id)
    requires !e.Register? && RegistryOk(g)
    ensures Quiet(g, Step(g, e), d)
  {
    hide Relay.Push, Relay.Pull, Relay.Ack;
    match e
    case Offer(t) => QuietBefore(g, t, 0, d);
    case Reserve(x) => QuietBefore(g, Ticket(0, EncryptedMessage(0, 0, 0, 0, 0, [], [], 0)), x, d);
    case PullBacklog(sid, now) => QuietFlush(g, sid, now, d);
    case SendBacklog(sid) => QuietFlush(g, sid, 0, d);
    case Activate(sid) => QuietFlush(g, sid, 0, d);
    case Receive(sid) => QuietAfter(g, sid, d);
    case Leave(sid) => QuietAfter(g, sid, d);
    case Close(sid) => QuietAfter(g, sid, d);
    case _ =>
  }

  lemma RegisterShape(g: Gateway, sid: nat, d: Id)
    ensures StepShape(g, Register(sid), d)
  {
    if Registers(g, Register(sid), d, sid) {
      assert Step(g, Register(sid)).registry.connections[d].id == sid;
    }
  }

  lemma StepHasShape(g: Gateway, e: Event, d: Id)
    requires RegistryOk(g)
    ensures StepShape(g, e, d)
  {
    hide Step;
    if e.Register? {
      RegisterShape(g, e.session, d);
    } else {
      QuietStep(g, e, d);
    }
  }

  // ----- Over runs -----

  /** The registered sessions of a device are those of its registrations, each once, and its entry holds the last. */
  ghost predicate Tracked(g: Gateway, d: Id, order: seq<nat>) {
    && (forall sid: nat :: sid in order <==> IsRegistered(g, d, sid))
    && (d in g.registry.connections ==> order != [] && order[|order| - 1] == g.registry.connections[d].id)
  }

  lemma StepKeepsTracked(g: Gateway, e: Event, d: Id, order: seq<nat>)
    requires RegistryOk(g) && Tracked(g, d, order)
    ensures Tracked(Step(g, e), d, order + if e.Register? && Registers(g, e, d, e.session) then [e.session] else [])
  {
    StepHasShape(g, e, d);
    hide Step;
    assert order + [] == order;
  }

  lemma {:induction false} RunKeepsTracked(events: seq<Event>, d: Id)
    ensures Tracked(Run(events), d, Registrations(events, d))
  {
    if events == [] {
    } else {
      var front, e := events[..|events| - 1], events[|events| - 1];
      RunKeepsTracked(front, d);
      RunKeepsInv(front);
      RegistryHolds(Run(front));
      hide Tracked, Step, Registers;
      StepKeepsTracked(Run(front), e, d, Registrations(front, d));
    }
  }

  /** A registration leaves the device with its newest connection exactly when every session of the device with
      a later id has not registered yet. */
  lemma RegisterIsNewestExactlyWhen(events: seq<Event>, sid: nat)
    requires InPhase(Run(events), sid, {Reserved})
    ensures var g := Run(events);
            var d := g.sessions[sid].device;
            var g' := Step(g, Register(sid));
            Owns(g'.registry, d, sid) &&
            (HoldsNewest(g', d) <==>
             forall x: nat :: x in g.sessions && g.sessions[x].device == d && x > sid ==>
               g.sessions[x].phase == Reserved)
  {
    var g := Run(events);
    var d := g.sessions[sid].device;
    hide Run;
    RegisterShape(g, sid, d);
    assert Registers(g, Register(sid), d, sid);
    hide Step;
    var g' := Step(g, Register(sid));
    assert forall x: nat :: x in g.sessions && g.sessions[x].device == d && g.sessions[x].phase != Reserved ==>
      IsRegistered(g', d, x);
  }

  /** The entry of a device holds the newest registered connection at every point of a run exactly when the
      connections of the device registered in the order of their ids. */
  lemma {:induction false} EntryIsAlwaysNewestExactlyWhen(events: seq<Event>, d: Id)
    ensures (forall k: nat :: k <= |events| ==> HoldsNewest(Run(events[..k]), d)) <==>
            Increasing(Registrations(events, d))
  {
    hide HoldsNewest, Increasing, Run, Registrations;
    if events == [] {
      NobodyRegistered(d);
      assert forall k: nat :: k <= |events| ==> events[..k] == [];
    } else {
      var front, e := events[..|events| - 1], events[|events| - 1];
      EntryIsAlwaysNewestExactlyWhen(front, d);
      LastStepExactlyWhen(front, e, d);
      assert events == front + [e] && events[..|events|] == events;
      assert forall k: nat :: k <= |front| ==> events[..k] == front[..k];
    }
  }

  lemma NobodyRegistered(d: Id)
    ensures HoldsNewest(Run([]), d) && Registrations([], d) == [] && Increasing([])
  {
  }

  lemma LastStepExactlyWhen(front: seq<Event>, e: Event, d: Id)
    ensures Increasing(Registrations(front + [e], d)) <==>
            Increasing(Registrations(front, d)) && HoldsNewest(Run(front + [e]), d)
  {
    var g, order := Run(front), Registrations(front, d);
    var registers := e.Register? && Registers(g, e, d, e.session);
    RunKeepsInv(front);
    RegistryHolds(g);
    RunKeepsTracked(front, d);
    assert (front + [e])[..|front|] == front;
    assert Run(front + [e]) == Step(g, e);
    assert Registrations(front + [e], d) == order + if registers then [e.session] else [];
    hide Run, Registrations, Step, Tracked, Increasing, HoldsNewest, Registers;
    StepKeepsTracked(g, e, d, order);
    assert order + [] == order;
    if registers {
      RegistersLast(g, e, d, order);
    } else if Increasing(order) {
      IncreasingIsNewest(Step(g, e), d, order);
    }
  }

  lemma RegistersLast(g: Gateway, e: Event, d: Id, order: seq<nat>)
    requires e.Register? && Registers(g, e, d, e.session) && Tracked(g, d, order)
    requires Tracked(Step(g, e), d, order + [e.session])
    ensures Increasing(order + [e.session]) <==> Increasing(order) && HoldsNewest(Step(g, e), d)
  {
    RegisterShape(g, e.session, d);
    hide Step;
    var sid := e.session;
    assert sid !in order;
    assert forall y :: y in order ==> IsRegistered(Step(g, e), d, y);
    IncreasingSnoc(order, sid);
    hide Increasing;
    assert forall y :: y in order + [sid] <==> y in order || y == sid;
  }

  lemma IncreasingIsNewest(g: Gateway, d: Id, order: seq<nat>)
    requires Tracked(g, d, order) && Increasing(order)
    ensures HoldsNewest(g, d)
  {
  }

  lemma IncreasingSnoc(s: seq<nat>, x: nat)
    ensures Increasing(s + [x]) <==> Increasing(s) && forall y :: y in s ==> y < x
  {
    var all := s + [x];
    if Increasing(all) {
      forall i, j | 0 <= i < j < |s| ensures s[i] < s[j] {
        assert all[i] == s[i] && all[j] == s[j];
      }
      forall y | y in s ensures y < x {
        var i :| 0 <= i < |s| && s[i] == y;
        assert all[i] == y && all[|s|] == x;
      }
    } else {
      var i, j :| 0 <= i < j < |all| && all[i] >= all[j];
      assert all[i] == s[i] && (j < |s| ==> all[j] == s[j]) && s[i] in s;
    }
  }
}
