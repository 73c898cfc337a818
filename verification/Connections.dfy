/** Live connections of the gateway: the registry and its channels (backend/src/main.rs). */
module Connections {
  import opened Prelude
  import opened Protocol
  import opened Sums

  const LIVE_CHANNEL_CAPACITY: nat := 256

  /** A message on its way to a live connection. `serial` is a history variable: the number of messages the
      relay accepted before this one. Nothing branches on it. */
  datatype Ticket = Ticket(serial: nat, message: EncryptedMessage)

  datatype Connection = Connection(id: nat, ready: bool, pending: seq<Ticket>)

  /** `channels` holds the contents of each bounded channel whose receiver is still open. */
  datatype Registry = Registry(connections: map<Id, Connection>, channels: map<nat, seq<Ticket>>, nextId: nat)

  const EMPTY: Registry := Registry(map[], map[], 1)

  function ChannelOf(r: Registry, id: nat): seq<Ticket> {
    if id in r.channels then r.channels[id] else []
  }

  function Registered(r: Registry, d: Id, id: nat): Registry {
    Registry(r.connections[d := Connection(id, false, [])], r.channels[id := []], r.nextId)
  }

  predicate Owns(r: Registry, d: Id, id: nat) {
    d in r.connections && r.connections[d].id == id
  }

  function Unregistered(r: Registry, d: Id, id: nat): Registry {
    if Owns(r, d, id) then Registry(r.connections - {d}, r.channels, r.nextId) else r
  }

  predicate HasRoom(r: Registry, id: nat) {
    id in r.channels && |r.channels[id]| < LIVE_CHANNEL_CAPACITY
  }

  /** The receiver of an offer that is neither buffered nor sent. */
  predicate Refuses(r: Registry, d: Id) {
    d in r.connections &&
    if r.connections[d].ready then !HasRoom(r, r.connections[d].id)
    else |r.connections[d].pending| >= LIVE_CHANNEL_CAPACITY
  }

  function Offered(r: Registry, d: Id, t: Ticket): Registry {
    if d !in r.connections || Refuses(r, d) then r
    else if r.connections[d].ready then
      Registry(r.connections, r.channels[r.connections[d].id := r.channels[r.connections[d].id] + [t]], r.nextId)
    else
      Registry(r.connections[d := Connection(r.connections[d].id, false, r.connections[d].pending + [t])],
               r.channels, r.nextId)
  }

  /** Sends what was not already delivered, dropping what does not fit. */
  function Flushed(channel: seq<Ticket>, pending: seq<Ticket>, delivered: set<Id>): seq<Ticket>
    decreases |pending|
  {
    if pending == [] then channel
    else if pending[0].message.messageId in delivered || |channel| >= LIVE_CHANNEL_CAPACITY
    then Flushed(channel, pending[1..], delivered)
    else Flushed(channel + [pending[0]], pending[1..], delivered)
  }

  function Activated(r: Registry, d: Id, id: nat, delivered: set<Id>): Registry {
    if !Owns(r, d, id) then r
    else
      Registry(r.connections[d := Connection(id, true, [])],
               if id in r.channels
               then r.channels[id := Flushed(r.channels[id], r.connections[d].pending, delivered)]
               else r.channels,
               r.nextId)
  }

  /** Ids in use, by an entry or by an open channel, were handed out before. */
  ghost predicate IdsIssued(r: Registry) {
    && (forall d :: d in r.connections ==> r.connections[d].id < r.nextId)
    && (forall id :: id in r.channels ==> id < r.nextId)
  }

  class ConnectionRegistry {
    var connections: map<Id, Connection>
    var channels: map<nat, seq<Ticket>>
    var nextId: nat

    function Value(): Registry
      reads this
    {
      Registry(connections, channels, nextId)
    }

    ghost predicate Valid()
      reads this
    {
      IdsIssued(Value())
    }

    constructor ()
      ensures Valid() && Value() == EMPTY
    {
      connections, channels, nextId := map[], map[], 1;
    }

    /** The id is taken before the lock, so this is a step of its own. No entry and no channel uses the id, and
        later ids are larger. */
    method TakeId() returns (id: nat)
      requires Valid()
      modifies this`nextId
      ensures Valid() && id == old(nextId) && nextId == id + 1
      ensures id !in channels && forall d :: d in connections ==> connections[d].id != id
    {
      id := nextId;
      nextId := nextId + 1;
    }

    method Register(device: Id, id: nat)
      requires Valid() && id < nextId
      modifies this`connections, this`channels
      ensures Valid() && Value() == Registered(old(Value()), device, id)
    {
      channels := channels[id := []];
      connections := connections[device := Connection(id, false, [])];
    }

    method Unregister(device: Id, id: nat)
      requires Valid()
      modifies this`connections
      ensures Valid() && Value() == Unregistered(old(Value()), device, id)
    {
      if device in connections && connections[device].id == id {
        connections := connections - {device};
      }
    }

    method TrySend(device: Id, ticket: Ticket)
      requires Valid()
      modifies this`connections, this`channels
      ensures Valid() && Value() == Offered(old(Value()), device, ticket)
    {
      if device !in connections { return; }
      var state := connections[device];
      if !state.ready {
        if |state.pending| < LIVE_CHANNEL_CAPACITY {
          connections := connections[device := Connection(state.id, false, state.pending + [ticket])];
        }
        return;
      }
      Send(state.id, ticket);
    }

    /** `try_send` on a bounded channel: fails when it is full or its receiver is gone. */
    method Send(id: nat, ticket: Ticket)
      modifies this`channels
      ensures channels == if HasRoom(old(Value()), id) then old(channels)[id := old(channels)[id] + [ticket]]
                          else old(channels)
    {
      if id in channels && |channels[id]| < LIVE_CHANNEL_CAPACITY {
        channels := channels[id := channels[id] + [ticket]];
      }
    }

    method Activate(device: Id, id: nat, delivered: set<Id>) returns (ok: bool)
      requires Valid()
      modifies this`connections, this`channels
      ensures Valid() && ok == Owns(old(Value()), device, id)
      ensures Value() == Activated(old(Value()), device, id, delivered)
    {
      if device !in connections { return false; }
      var state := connections[device];
      if state.id != id { return false; }
      var pending := state.pending;
      connections := connections[device := Connection(id, true, [])];
      ghost var start := channels;
      var i := 0;
      assert pending[0..] == pending;
      while i < |pending|
        invariant 0 <= i <= |pending|
        invariant connections == old(connections)[device := Connection(id, true, [])] && nextId == old(nextId)
        invariant id !in start ==> channels == start
        invariant id in start ==>
          && id in channels && channels == start[id := channels[id]]
          && Flushed(start[id], pending, delivered) == Flushed(channels[id], pending[i..], delivered)
      {
        var ticket := pending[i];
        assert pending[i..][1..] == pending[i + 1..];
        if ticket.message.messageId !in delivered {
          Send(id, ticket);
        }
        i := i + 1;
      }
      ok := true;
    }
  }

  function Undelivered(delivered: set<Id>): Ticket -> bool {
    (t: Ticket) => t.message.messageId !in delivered
  }

  lemma {:induction false} FlushAll(channel: seq<Ticket>, pending: seq<Ticket>, delivered: set<Id>)
    requires |channel| + |pending| <= LIVE_CHANNEL_CAPACITY
    ensures Flushed(channel, pending, delivered) == channel + Filter(pending, Undelivered(delivered))
    decreases |pending|
  {
    if pending == [] {
    } else {
      var first, rest := pending[0], pending[1..];
      FilterFirst(first, rest, Undelivered(delivered));
      assert pending == [first] + rest;
      FlushAll(if Undelivered(delivered)(first) then channel + [first] else channel, rest, delivered);
    }
  }

  lemma {:induction false} FilterFirst<T>(first: T, rest: seq<T>, keep: T -> bool)
    ensures Filter([first] + rest, keep) == (if keep(first) then [first] else []) + Filter(rest, keep)
  {
    var s := [first] + rest;
    if rest == [] {
      assert s[..|s| - 1] == [];
    } else {
      assert s[..|s| - 1] == [first] + rest[..|rest| - 1];
      FilterFirst(first, rest[..|rest| - 1], keep);
    }
  }

  /** From an empty channel and a full buffer at most, activation loses nothing: it sends exactly the pending
      messages that were not delivered with the backlog, in the order they were offered. */
  lemma ActivationLosesNothing(r: Registry, d: Id, id: nat, delivered: set<Id>)
    requires Owns(r, d, id) && id in r.channels && r.channels[id] == []
    requires |r.connections[d].pending| <= LIVE_CHANNEL_CAPACITY
    ensures ChannelOf(Activated(r, d, id, delivered), id) == Filter(r.connections[d].pending, Undelivered(delivered))
  {
    FlushAll([], r.connections[d].pending, delivered);
  }
}
