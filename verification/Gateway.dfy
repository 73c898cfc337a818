/** The delivery protocol of the gateway: pushes, live offers and websocket sessions, interleaved freely
    (backend/src/main.rs). Each locked region of the source is one step. */
module Gateway {
  import opened Prelude
  import opened Protocol
  import opened Relay
  import opened Connections

  /** Reserved: id taken, not registered. Greeting: registered, backlog not pulled. Flushing: writing the
      backlog. Live: activated. Leaving: unregistered, receiver still open. Closed: receiver dropped. */
  datatype Phase = Reserved | Greeting | Flushing | Live | Leaving | Closed

  /** `backlog` is the pulled snapshot, `sent` of it handed to the socket; `taken` was received from the channel
      and handed to the socket. History variables: `refused`, the serials this connection had no room for;
      `early`, the serials whose offer had taken effect before the session was activated. */
  datatype Session = Session(
    device: Id, phase: Phase, backlog: seq<Ticket>, sent: nat, taken: seq<Ticket>, refused: set<nat>, early: set<nat>)

  /** `inFlight` holds the messages accepted by the relay whose live offer has not happened yet. */
  datatype Gateway = Gateway(relay: RelayState, inFlight: set<Ticket>, registry: Registry, sessions: map<nat, Session>)

  const START: Gateway := Gateway(Relay.EMPTY, {}, Connections.EMPTY, map[])

  datatype Event =
    | PushMessage(message: EncryptedMessage, now: u64)
    | Offer(ticket: Ticket)
    | Acknowledge(device: Id, messageId: Id)
    | Poll(device: Id, now: u64)
    | Reserve(device: Id)
    | Register(session: nat)
    | PullBacklog(session: nat, now: u64)
    | SendBacklog(session: nat)
    | Activate(session: nat)
    | Receive(session: nat)
    | Leave(session: nat)
    | Close(session: nat)

  function TicketOf(s: Stored): Ticket {
    Ticket(s.serial, s.message)
  }

  function Tickets(q: Queue): seq<Ticket> {
    if q == [] then [] else Tickets(q[..|q| - 1]) + [TicketOf(q[|q| - 1])]
  }

  function Ids(ts: seq<Ticket>): set<Id> {
    set t | t in ts :: t.message.messageId
  }

  function InPhase(g: Gateway, sid: nat, phases: set<Phase>): bool {
    sid in g.sessions && g.sessions[sid].phase in phases
  }

  function SetPhase(s: Session, phase: Phase): Session {
    s.(phase := phase)
  }

  ghost function AfterPush(g: Gateway, m: EncryptedMessage, now: u64): Gateway {
    var (r, result) := Relay.Push(g.relay, m, now);
    g.(relay := r, inFlight := if result == Accepted then g.inFlight + {Ticket(|g.relay.log|, m)} else g.inFlight)
  }

  function AddRefused(sessions: map<nat, Session>, sid: nat, serial: nat): map<nat, Session> {
    if sid !in sessions then sessions
    else
      var s := sessions[sid];
      sessions[sid := s.(refused := s.refused + {serial})]
  }

  function AfterOffer(g: Gateway, t: Ticket): Gateway {
    var d := t.message.recipientDeviceId;
    if t !in g.inFlight then g
    else
      Gateway(g.relay, g.inFlight - {t}, Offered(g.registry, d, t),
              if Refuses(g.registry, d) then AddRefused(g.sessions, g.registry.connections[d].id, t.serial)
              else g.sessions)
  }

  function AfterReserve(g: Gateway, d: Id): Gateway {
    var r := g.registry;
    Gateway(g.relay, g.inFlight, Registry(r.connections, r.channels, r.nextId + 1),
            g.sessions[r.nextId := Session(d, Reserved, [], 0, [], {}, {})])
  }

  function AfterRegister(g: Gateway, sid: nat): Gateway {
    if !InPhase(g, sid, {Reserved}) then g
    else
      Gateway(g.relay, g.inFlight, Registered(g.registry, g.sessions[sid].device, sid),
              g.sessions[sid := SetPhase(g.sessions[sid], Greeting)])
  }

  function AfterPull(g: Gateway, sid: nat, now: u64): Gateway {
    if !InPhase(g, sid, {Greeting}) then g
    else
      var s := g.sessions[sid];
      Gateway(Relay.Pull(g.relay, s.device, now).0, g.inFlight, g.registry,
              g.sessions[sid := s.(phase := Flushing, sent := 0,
                                    backlog := Tickets(Unexpired(QueueOf(g.relay, s.device), now)))])
  }

  function AfterSendBacklog(g: Gateway, sid: nat): Gateway {
    if !InPhase(g, sid, {Flushing}) || g.sessions[sid].sent >= |g.sessions[sid].backlog| then g
    else
      var s := g.sessions[sid];
      Gateway(g.relay, g.inFlight, g.registry,
              g.sessions[sid := s.(sent := s.sent + 1)])
  }

  function Below(n: nat): (s: set<nat>)
    ensures forall k: nat :: k in s <==> k < n
  {
    if n == 0 then {} else Below(n - 1) + {n - 1}
  }

  /** The serials whose offer has taken effect: accepted, and no longer in flight. */
  function OfferedSoFar(g: Gateway): set<nat> {
    Below(|g.relay.log|) - (set t | t in g.inFlight :: t.serial)
  }

  function AfterActivate(g: Gateway, sid: nat): Gateway {
    if !InPhase(g, sid, {Flushing}) || g.sessions[sid].sent < |g.sessions[sid].backlog| then g
    else
      var s := g.sessions[sid];
      if !Owns(g.registry, s.device, sid) then
        Gateway(g.relay, g.inFlight, g.registry, g.sessions[sid := SetPhase(s, Leaving)])
      else
        Gateway(g.relay, g.inFlight, Activated(g.registry, s.device, sid, Ids(s.backlog)),
                g.sessions[sid := s.(phase := Live, early := OfferedSoFar(g))])
  }

  function AfterReceive(g: Gateway, sid: nat): Gateway {
    if !InPhase(g, sid, {Live}) || ChannelOf(g.registry, sid) == [] then g
    else
      var r, s, channel := g.registry, g.sessions[sid], g.registry.channels[sid];
      Gateway(g.relay, g.inFlight, Registry(r.connections, r.channels[sid := channel[1..]], r.nextId),
              g.sessions[sid := s.(taken := s.taken + [channel[0]])])
  }

  function AfterLeave(g: Gateway, sid: nat): Gateway {
    if !InPhase(g, sid, {Greeting, Flushing, Live}) then g
    else
      Gateway(g.relay, g.inFlight, Unregistered(g.registry, g.sessions[sid].device, sid),
              g.sessions[sid := SetPhase(g.sessions[sid], Leaving)])
  }

  function AfterClose(g: Gateway, sid: nat): Gateway {
    if !InPhase(g, sid, {Leaving}) then g
    else
      Gateway(g.relay, g.inFlight, Registry(g.registry.connections, g.registry.channels - {sid}, g.registry.nextId),
              g.sessions[sid := SetPhase(g.sessions[sid], Closed)])
  }

  /** One atomic step. An event that is not enabled changes nothing. */
  ghost function Step(g: Gateway, e: Event): Gateway {
    match e
    case PushMessage(m, now) => AfterPush(g, m, now)
    case Offer(t) => AfterOffer(g, t)
    case Acknowledge(d, id) => Gateway(Relay.Ack(g.relay, d, id).0, g.inFlight, g.registry, g.sessions)
    case Poll(d, now) => Gateway(Relay.Pull(g.relay, d, now).0, g.inFlight, g.registry, g.sessions)
    case Reserve(d) => AfterReserve(g, d)
    case Register(sid) => AfterRegister(g, sid)
    case PullBacklog(sid, now) => AfterPull(g, sid, now)
    case SendBacklog(sid) => AfterSendBacklog(g, sid)
    case Activate(sid) => AfterActivate(g, sid)
    case Receive(sid) => AfterReceive(g, sid)
    case Leave(sid) => AfterLeave(g, sid)
    case Close(sid) => AfterClose(g, sid)
  }

  ghost function Run(events: seq<Event>): Gateway {
    if events == [] then START else Step(Run(events[..|events| - 1]), events[|events| - 1])
  }

  // ----- The invariant, session by session -----

  /** One session with its side of the registry. */
  datatype View = View(
    session: Session, owns: bool, ready: bool, pending: seq<Ticket>, isOpen: bool, channel: seq<Ticket>)

  function ViewOf(g: Gateway, sid: nat): View
    requires sid in g.sessions
  {
    var s, r := g.sessions[sid], g.registry;
    if Owns(r, s.device, sid) then
      View(s, true, r.connections[s.device].ready, r.connections[s.device].pending,
           sid in r.channels, ChannelOf(r, sid))
    else View(s, false, false, [], sid in r.channels, ChannelOf(r, sid))
  }

  function Held(v: View): seq<Ticket> {
    v.pending + v.channel + v.session.taken
  }

  ghost predicate Genuine(t: Ticket, d: Id, log: seq<EncryptedMessage>) {
    t.serial < |log| && log[t.serial] == t.message && t.message.recipientDeviceId == d
  }

  ghost predicate AllGenuine(ts: seq<Ticket>, d: Id, log: seq<EncryptedMessage>) {
    forall t :: t in ts ==> Genuine(t, d, log)
  }

  predicate Distinct(ts: seq<Ticket>) {
    forall i, j :: 0 <= i < j < |ts| ==> ts[i].serial != ts[j].serial
  }

  predicate NotInFlight(ts: seq<Ticket>, inFlight: set<Ticket>) {
    forall t, u :: t in ts && u in inFlight ==> t.serial != u.serial
  }

  /** The connection's two buffers are used one at a time. */
  predicate Buffers(v: View) {
    && (v.owns ==> v.isOpen && v.session.phase in {Greeting, Flushing, Live} && (v.ready <==> v.session.phase == Live))
    && (!v.owns || v.ready ==> v.pending == [])
    && (v.session.phase in {Reserved, Greeting, Flushing} ==> v.channel == [] && v.session.taken == [])
    && |v.pending| <= LIVE_CHANNEL_CAPACITY && |v.channel| <= LIVE_CHANNEL_CAPACITY
    && v.session.sent <= |v.session.backlog|
    && (v.session.phase == Live ==> v.session.sent == |v.session.backlog|)
  }

  ghost predicate TicketsOk(v: View, log: seq<EncryptedMessage>, inFlight: set<Ticket>) {
    && AllGenuine(Held(v), v.session.device, log) && AllGenuine(v.session.backlog, v.session.device, log)
    && Distinct(Held(v)) && Distinct(v.session.backlog)
    && NotInFlight(Held(v), inFlight)
  }

  /** Whatever was offered before activation is not sent live if its id went out with the backlog. */
  ghost predicate EarlyOk(v: View, log: seq<EncryptedMessage>, inFlight: set<Ticket>) {
    && (forall n :: n in v.session.early ==> n < |log| && forall u :: u in inFlight ==> u.serial != n)
    && (forall t :: t in v.channel + v.session.taken && t.serial in v.session.early ==>
          t.message.messageId !in Ids(v.session.backlog))
  }

  /** Whatever is accepted for the device and was not offered before the activation is due, held or refused. */
  ghost predicate LateOk(v: View, log: seq<EncryptedMessage>, inFlight: set<Ticket>) {
    v.owns && v.session.phase == Live ==>
      forall n: nat :: n < |log| && log[n].recipientDeviceId == v.session.device && n !in v.session.early ==>
        Ticket(n, log[n]) in inFlight || Ticket(n, log[n]) in Held(v) || n in v.session.refused
  }

  /** What was refused is not due any more and is never held. */
  ghost predicate RefusedOk(v: View, log: seq<EncryptedMessage>, inFlight: set<Ticket>) {
    forall n :: n in v.session.refused ==>
      n < |log| && (forall u :: u in inFlight ==> u.serial != n) && (forall t :: t in Held(v) ==> t.serial != n)
  }

  /** The stored message `x` will still reach this session, has reached it, or found its buffers full. */
  ghost predicate Accounted(v: View, t: Ticket, inFlight: set<Ticket>) {
    || t.message.messageId in Ids(v.session.backlog)
    || t in inFlight
    || t in Held(v)
    || t.serial in v.session.refused
  }

  ghost predicate NoGap(v: View, q: Queue, inFlight: set<Ticket>) {
    v.owns && v.session.phase in {Flushing, Live} ==> forall x :: x in q ==> Accounted(v, TicketOf(x), inFlight)
  }

  /** While the backlog is written, the stored message itself is accounted for, not just its id. */
  ghost predicate FlushOk(v: View, q: Queue, inFlight: set<Ticket>) {
    v.owns && v.session.phase == Flushing ==>
      forall x :: x in q ==>
        var t := TicketOf(x);
        t in v.session.backlog || t in inFlight || t in Held(v) || t.serial in v.session.refused
  }

  ghost predicate SessionOk(v: View, log: seq<EncryptedMessage>, q: Queue, inFlight: set<Ticket>) {
    && Buffers(v) && TicketsOk(v, log, inFlight) && EarlyOk(v, log, inFlight) && NoGap(v, q, inFlight)
    && FlushOk(v, q, inFlight) && LateOk(v, log, inFlight) && RefusedOk(v, log, inFlight)
  }

  ghost predicate FlightOk(log: seq<EncryptedMessage>, inFlight: set<Ticket>) {
    && (forall t :: t in inFlight ==> Genuine(t, t.message.recipientDeviceId, log))
    && (forall t, u :: t in inFlight && u in inFlight && t.serial == u.serial ==> t == u)
  }

  ghost predicate SessionAt(g: Gateway, sid: nat)
    requires sid in g.sessions
  {
    SessionOk(ViewOf(g, sid), g.relay.log, QueueOf(g.relay, g.sessions[sid].device), g.inFlight)
  }

  ghost predicate RegistryOk(g: Gateway) {
    && (forall d :: d in g.registry.connections ==>
          g.registry.connections[d].id in g.sessions && g.sessions[g.registry.connections[d].id].device == d)
    && (forall sid :: sid in g.sessions ==> sid < g.registry.nextId)
    && (forall id :: id in g.registry.channels ==> id in g.sessions && g.sessions[id].phase != Reserved)
  }

  ghost predicate GatewayInv(g: Gateway) {
    && RelayInv(g.relay) && FlightOk(g.relay.log, g.inFlight) && RegistryOk(g)
    && forall sid :: sid in g.sessions ==> SessionAt(g, sid)
  }
}
