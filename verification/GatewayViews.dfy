/** How each step acts on one session, seen through its view. */
module GatewayViews {
  import opened Prelude
  import opened Protocol
  import opened Sums
  import opened Relay
  import opened Connections
  import opened Gateway

  lemma ShrinkQueue(v: View, log: seq<EncryptedMessage>, q: Queue, q': Queue, inFlight: set<Ticket>)
    requires SessionOk(v, log, q, inFlight) && forall x :: x in q' ==> x in q
    ensures SessionOk(v, log, q', inFlight)
  {
    hide Buffers, TicketsOk, EarlyOk, Accounted, LateOk, RefusedOk;
  }

  lemma GenuineGrows(ts: seq<Ticket>, d: Id, log: seq<EncryptedMessage>, m: EncryptedMessage)
    requires AllGenuine(ts, d, log)
    ensures AllGenuine(ts, d, log + [m])
  {
  }

  lemma GrowLog(v: View, log: seq<EncryptedMessage>, m: EncryptedMessage, q: Queue, q': Queue, inFlight: set<Ticket>)
    requires SessionOk(v, log, q, inFlight)
    requires forall x :: x in q' ==> x in q || TicketOf(x) == Ticket(|log|, m)
    ensures SessionOk(v, log + [m], q', inFlight + {Ticket(|log|, m)})
  {
    hide Buffers, Distinct, Held;
    var t := Ticket(|log|, m);
    GenuineGrows(Held(v), v.session.device, log, m);
    GenuineGrows(v.session.backlog, v.session.device, log, m);
    assert NotInFlight(Held(v), inFlight + {t}) by {
      forall x, u | x in Held(v) && u in inFlight + {t} ensures x.serial != u.serial {
        assert Genuine(x, v.session.device, log);
      }
    }
  }

  lemma DropFlight(v: View, log: seq<EncryptedMessage>, q: Queue, inFlight: set<Ticket>, t: Ticket)
    requires SessionOk(v, log, q, inFlight)
    requires v.owns ==> t.message.recipientDeviceId != v.session.device && forall x :: x in q ==> TicketOf(x) != t
    ensures SessionOk(v, log, q, inFlight - {t})
  {
    hide Buffers, AllGenuine, Distinct, Held;
  }

  lemma DistinctInsert(a: seq<Ticket>, t: Ticket, b: seq<Ticket>)
    requires Distinct(a + b) && forall x :: x in a + b ==> x.serial != t.serial
    ensures Distinct(a + [t] + b)
  {
    var before, all := a + b, a + [t] + b;
    forall i, j | 0 <= i < j < |all| ensures all[i].serial != all[j].serial {
      var i', j' := if i < |a| then i else i - 1, if j < |a| then j else j - 1;
      if i != |a| && j != |a| {
        assert all[i] == before[i'] && all[j] == before[j'];
      } else if i == |a| {
        assert all[j] == before[j'] && before[j'] in before;
      } else {
        assert all[i] == before[i'] && before[i'] in before;
      }
    }
  }

  function WithPending(v: View, pending: seq<Ticket>): View {
    View(v.session, v.owns, v.ready, pending, v.isOpen, v.channel)
  }

  function WithChannel(v: View, channel: seq<Ticket>): View {
    View(v.session, v.owns, v.ready, v.pending, v.isOpen, channel)
  }

  function WithSession(v: View, s: Session): View {
    View(s, v.owns, v.ready, v.pending, v.isOpen, v.channel)
  }

  /** Facts about an offer to the session's own connection that all three outcomes share. */
  ghost predicate OfferTo(v: View, log: seq<EncryptedMessage>, q: Queue, inFlight: set<Ticket>, t: Ticket) {
    && SessionOk(v, log, q, inFlight) && FlightOk(log, inFlight)
    && v.owns && t in inFlight && t.message.recipientDeviceId == v.session.device
  }

  lemma OfferFacts(v: View, log: seq<EncryptedMessage>, q: Queue, inFlight: set<Ticket>, t: Ticket)
    requires OfferTo(v, log, q, inFlight, t)
    ensures Genuine(t, v.session.device, log) && t.serial !in v.session.early && t.serial !in v.session.refused
    ensures forall x :: x in Held(v) ==> x.serial != t.serial
    ensures NotInFlight(Held(v), inFlight - {t})
    ensures forall u :: u in inFlight - {t} ==> u.serial != t.serial
    ensures EarlyOk(v, log, inFlight - {t})
  {
    hide Buffers, Distinct, Held, AllGenuine;
  }

  lemma OfferPending(v: View, log: seq<EncryptedMessage>, q: Queue, inFlight: set<Ticket>, t: Ticket)
    requires OfferTo(v, log, q, inFlight, t) && !v.ready && |v.pending| < LIVE_CHANNEL_CAPACITY
    ensures SessionOk(WithPending(v, v.pending + [t]), log, q, inFlight - {t})
  {
    OfferFacts(v, log, q, inFlight, t);
    var v' := WithPending(v, v.pending + [t]);
    HeldInsert(v, v', v.pending, t, v.channel + v.session.taken, log, inFlight);
    AccountedMore(v, v', q, inFlight, t);
  }

  lemma OfferChannel(v: View, log: seq<EncryptedMessage>, q: Queue, inFlight: set<Ticket>, t: Ticket)
    requires OfferTo(v, log, q, inFlight, t) && v.ready && |v.channel| < LIVE_CHANNEL_CAPACITY
    ensures SessionOk(WithChannel(v, v.channel + [t]), log, q, inFlight - {t})
  {
    OfferFacts(v, log, q, inFlight, t);
    var v' := WithChannel(v, v.channel + [t]);
    HeldInsert(v, v', v.pending + v.channel, t, v.session.taken, log, inFlight);
    AccountedMore(v, v', q, inFlight, t);
  }

  lemma HeldInsert(v: View, v': View, a: seq<Ticket>, t: Ticket, b: seq<Ticket>,
                   log: seq<EncryptedMessage>, inFlight: set<Ticket>)
    requires TicketsOk(v, log, inFlight) && v'.session == v.session
    requires Held(v) == a + b && Held(v') == a + [t] + b
    requires Genuine(t, v.session.device, log)
    requires forall x :: x in Held(v) ==> x.serial != t.serial
    requires forall u :: u in inFlight - {t} ==> u.serial != t.serial
    ensures TicketsOk(v', log, inFlight - {t})
    ensures forall x :: x in Held(v') <==> x in Held(v) || x == t
  {
    hide Genuine, Held;
    DistinctInsert(a, t, b);
  }

  lemma AccountedMore(v: View, v': View, q: Queue, inFlight: set<Ticket>, t: Ticket)
    requires v'.session == v.session && v'.owns == v.owns && NoGap(v, q, inFlight) && FlushOk(v, q, inFlight)
    requires forall x :: x in Held(v') <==> x in Held(v) || x == t
    ensures NoGap(v', q, inFlight - {t}) && FlushOk(v', q, inFlight - {t})
  {
    hide Held;
  }

  lemma OfferRefused(v: View, log: seq<EncryptedMessage>, q: Queue, inFlight: set<Ticket>, t: Ticket)
    requires OfferTo(v, log, q, inFlight, t)
    ensures var s := v.session;
            var s' := s.(refused := s.refused + {t.serial});
            SessionOk(WithSession(v, s'), log, q, inFlight - {t})
  {
    OfferFacts(v, log, q, inFlight, t);
  }

  // ----- Pulling the backlog -----

  lemma {:induction false} TicketMembers(q: Queue)
    ensures |Tickets(q)| == |q|
    ensures forall i :: 0 <= i < |q| ==> Tickets(q)[i] == TicketOf(q[i])
  {
    if q == [] {
    } else {
      TicketMembers(q[..|q| - 1]);
    }
  }

  lemma BacklogOk(q: Queue, d: Id, log: seq<EncryptedMessage>)
    requires QueueOk(q, d, log)
    ensures AllGenuine(Tickets(q), d, log) && Distinct(Tickets(q))
    ensures forall x :: x in q ==> TicketOf(x) in Tickets(q) && x.message.messageId in Ids(Tickets(q))
  {
    TicketMembers(q);
    QueueEntries(q, d, log);
    forall t | t in Tickets(q) ensures Genuine(t, d, log) {
      var i :| 0 <= i < |q| && Tickets(q)[i] == t;
      assert q[i] in q && StoredOk(q[i], d, log);
    }
    forall x | x in q ensures TicketOf(x) in Tickets(q) && x.message.messageId in Ids(Tickets(q)) {
      var i :| 0 <= i < |q| && q[i] == x;
      assert Tickets(q)[i] in Tickets(q);
    }
  }

  lemma PullHere(v: View, log: seq<EncryptedMessage>, q: Queue, q': Queue, inFlight: set<Ticket>)
    requires SessionOk(v, log, q, inFlight) && v.session.phase == Greeting && QueueOk(q', v.session.device, log)
    ensures var s := v.session;
            SessionOk(WithSession(v, s.(phase := Flushing, backlog := Tickets(q'), sent := 0)),
                      log, q', inFlight)
  {
    hide Tickets;
    BacklogOk(q', v.session.device, log);
  }

  // ----- Activation -----

  lemma {:induction false} FilterDistinct(ts: seq<Ticket>, keep: Ticket -> bool)
    requires Distinct(ts)
    ensures Distinct(Filter(ts, keep))
  {
    if ts == [] {
    } else {
      var front, last := ts[..|ts| - 1], ts[|ts| - 1];
      assert Distinct(front) by {
        forall i, j | 0 <= i < j < |front| ensures front[i].serial != front[j].serial {
          assert front[i] == ts[i] && front[j] == ts[j];
        }
      }
      FilterDistinct(front, keep);
      FilterMembers(front, keep);
      var f := Filter(front, keep);
      forall i | 0 <= i < |f| ensures f[i].serial != last.serial {
        assert f[i] in f && f[i] in front;
      }
    }
  }

  lemma TicketsSubset(v: View, v': View, log: seq<EncryptedMessage>, inFlight: set<Ticket>)
    requires TicketsOk(v, log, inFlight)
    requires v'.session.device == v.session.device && v'.session.backlog == v.session.backlog
    requires Distinct(Held(v')) && forall t :: t in Held(v') ==> t in Held(v)
    ensures TicketsOk(v', log, inFlight)
  {
    hide Held, Distinct, Genuine;
  }

  lemma ActivateHere(v: View, log: seq<EncryptedMessage>, q: Queue, inFlight: set<Ticket>, early: set<nat>)
    requires SessionOk(v, log, q, inFlight) && v.owns && v.session.phase == Flushing
    requires v.session.sent == |v.session.backlog|
    requires forall n :: n in early ==> n < |log| && forall u :: u in inFlight ==> u.serial != n
    requires forall n: nat :: n < |log| && n !in early ==> Ticket(n, log[n]) in inFlight
    ensures var s := v.session;
            SessionOk(View(s.(phase := Live, early := early), true, true, [], true,
                           Filter(v.pending, Undelivered(Ids(s.backlog)))),
                      log, q, inFlight)
  {
    var s, channel := v.session, Filter(v.pending, Undelivered(Ids(v.session.backlog)));
    var s' := s.(phase := Live, early := early);
    var v' := View(s', true, true, [], true, channel);
    FilterMembers(v.pending, Undelivered(Ids(s.backlog)));
    FilterDistinct(v.pending, Undelivered(Ids(s.backlog)));
    assert Held(v) == v.pending && Held(v') == channel && channel + s'.taken == channel;
    assert Buffers(v');
    hide Filter, Distinct, Ids, Held, Buffers;
    TicketsSubset(v, v', log, inFlight);
    assert EarlyOk(v', log, inFlight);
    ActivatedAccounts(v, v', log, q, inFlight);
  }

  lemma ActivatedAccounts(v: View, v': View, log: seq<EncryptedMessage>, q: Queue, inFlight: set<Ticket>)
    requires SessionOk(v, log, q, inFlight) && v.owns && v.session.phase == Flushing
    requires v'.session == v.session.(phase := Live, early := v'.session.early)
    requires forall t :: t in Held(v') <==> t in Held(v) && t.message.messageId !in Ids(v.session.backlog)
    requires forall n: nat :: n < |log| && n !in v'.session.early ==> Ticket(n, log[n]) in inFlight
    ensures NoGap(v', q, inFlight) && LateOk(v', log, inFlight) && RefusedOk(v', log, inFlight)
  {
    hide Held, Ids, TicketsOk, EarlyOk, Buffers;
    forall x | x in q ensures Accounted(v', TicketOf(x), inFlight) {
      assert Accounted(v, TicketOf(x), inFlight);
    }
  }

  // ----- Receiving, leaving, closing, registering -----

  lemma DistinctRotate(a: seq<Ticket>, t: Ticket, b: seq<Ticket>)
    requires Distinct([t] + a + b)
    ensures Distinct(a + (b + [t]))
  {
    var before, all := [t] + a + b, a + (b + [t]);
    forall i, j | 0 <= i < j < |all| ensures all[i].serial != all[j].serial {
      assert all[i] == before[i + 1];
      assert all[j] == if j == |all| - 1 then before[0] else before[j + 1];
    }
  }

  lemma ReceiveHere(v: View, log: seq<EncryptedMessage>, q: Queue, inFlight: set<Ticket>)
    requires SessionOk(v, log, q, inFlight) && v.session.phase == Live && v.channel != []
    ensures var s := v.session;
            SessionOk(View(s.(taken := s.taken + [v.channel[0]]),
                           v.owns, v.ready, v.pending, v.isOpen, v.channel[1..]),
                      log, q, inFlight)
  {
    var s := v.session;
    var s' := s.(taken := s.taken + [v.channel[0]]);
    var v' := View(s', v.owns, v.ready, v.pending, v.isOpen, v.channel[1..]);
    assert v.channel == [v.channel[0]] + v.channel[1..];
    assert Held(v) == [v.channel[0]] + v.channel[1..] + s.taken;
    assert Held(v') == v.channel[1..] + (s.taken + [v.channel[0]]);
    DistinctRotate(v.channel[1..], v.channel[0], s.taken);
    assert forall t :: t in Held(v') <==> t in Held(v);
    assert forall t :: t in v'.channel + s'.taken <==> t in v.channel + s.taken;
    hide Distinct, Held, Ids;
    TicketsSubset(v, v', log, inFlight);
  }

  lemma DistinctSuffix(a: seq<Ticket>, b: seq<Ticket>)
    requires Distinct(a + b)
    ensures Distinct(b)
  {
    forall i, j | 0 <= i < j < |b| ensures b[i].serial != b[j].serial {
      assert b[i] == (a + b)[|a| + i] && b[j] == (a + b)[|a| + j];
    }
  }

  /** A session that no longer owns its device's entry, whatever its next phase. */
  lemma Disown(v: View, log: seq<EncryptedMessage>, q: Queue, inFlight: set<Ticket>, phase: Phase)
    requires SessionOk(v, log, q, inFlight)
    requires phase == v.session.phase || phase == Leaving
    ensures SessionOk(View(SetPhase(v.session, phase), false, false, [], v.isOpen, v.channel), log, q, inFlight)
  {
    var v' := View(SetPhase(v.session, phase), false, false, [], v.isOpen, v.channel);
    assert Held(v) == v.pending + Held(v');
    DistinctSuffix(v.pending, Held(v'));
    hide Distinct, Held, Ids;
    TicketsSubset(v, v', log, inFlight);
  }

  lemma CloseHere(v: View, log: seq<EncryptedMessage>, q: Queue, inFlight: set<Ticket>)
    requires SessionOk(v, log, q, inFlight) && v.session.phase == Leaving
    ensures SessionOk(View(SetPhase(v.session, Closed), false, false, [], false, []), log, q, inFlight)
  {
    var v' := View(SetPhase(v.session, Closed), false, false, [], false, []);
    assert Held(v') == v.session.taken;
    assert Held(v) == (v.pending + v.channel) + v.session.taken;
    DistinctSuffix(v.pending + v.channel, v.session.taken);
    hide Distinct, Held, Ids;
    TicketsSubset(v, v', log, inFlight);
  }

  lemma RegisterHere(v: View, log: seq<EncryptedMessage>, q: Queue, inFlight: set<Ticket>)
    requires SessionOk(v, log, q, inFlight) && v.session.phase == Reserved
    ensures SessionOk(View(SetPhase(v.session, Greeting), true, false, [], true, []), log, q, inFlight)
  {
    var v' := View(SetPhase(v.session, Greeting), true, false, [], true, []);
    assert Held(v') == [];
  }

  lemma NewSessionOk(d: Id, log: seq<EncryptedMessage>, q: Queue, inFlight: set<Ticket>)
    ensures SessionOk(View(Session(d, Reserved, [], 0, [], {}, {}), false, false, [], false, []), log, q, inFlight)
  {
  }
}
