/** The offline message store of the gateway (backend/src/relay.rs). */
module Relay {
  import opened Prelude
  import opened Protocol
  import opened Sums

  const MAX_PER_DEVICE: nat := 256
  const MAX_TOTAL_MESSAGES: nat := 65_536
  const MAX_TOTAL_BYTES: nat := 512 * 1024 * 1024
  const MAX_CIPHERTEXT: nat := 4 * 1024 * 1024
  const MAX_RATCHET_HEADER: nat := 16 * 1024
  const OFFLINE_TTL_MS: u64 := 7 * 24 * 60 * 60 * 1000
  const MAX_CLOCK_SKEW_MS: u64 := 5 * 60 * 1000

  datatype PushResult = Accepted | Duplicate | Invalid | Full

  /** `serial` is a history variable: the number of messages accepted before this one. Nothing branches on it. */
  datatype Stored = Stored(message: EncryptedMessage, expiresAtMs: u64, accountedBytes: usize, serial: nat)

  type Queue = seq<Stored>

  function MessageSize(m: EncryptedMessage): usize {
    if Encodable(m) then 82 + |m.ratchetHeader| + |m.ciphertext| else U64_MAX
  }

  predicate ValidMessage(m: EncryptedMessage) {
    && m.version == PROTOCOL_VERSION
    && m.messageId != 0 && m.conversationId != 0
    && m.senderDeviceId != 0 && m.recipientDeviceId != 0
    && 0 < |m.ratchetHeader| <= MAX_RATCHET_HEADER
    && 0 < |m.ciphertext| <= MAX_CIPHERTEXT
  }

  predicate Timely(m: EncryptedMessage, now: u64) {
    m.sentAtMs <= SatAdd(now, MAX_CLOCK_SKEW_MS) && SatSub(now, m.sentAtMs) <= OFFLINE_TTL_MS
  }

  function LiveAt(now: u64): Stored -> bool {
    (s: Stored) => s.expiresAtMs > now
  }

  function Not(id: Id): Stored -> bool {
    (s: Stored) => s.message.messageId != id
  }

  function Unexpired(q: Queue, now: u64): Queue {
    Filter(q, LiveAt(now))
  }

  function Without(q: Queue, id: Id): Queue {
    Filter(q, Not(id))
  }

  predicate HasId(q: Queue, id: Id) {
    exists i :: 0 <= i < |q| && q[i].message.messageId == id
  }

  function ByteTotal(q: Queue): nat {
    if q == [] then 0 else ByteTotal(q[..|q| - 1]) + q[|q| - 1].accountedBytes
  }

  function Messages(q: Queue): seq<EncryptedMessage> {
    if q == [] then [] else Messages(q[..|q| - 1]) + [q[|q| - 1].message]
  }

  // ----- The simple store: queues only, totals recomputed from them -----

  /** `log` is a history variable: every message ever accepted, in acceptance order. */
  datatype RelayState = RelayState(queues: map<Id, Queue>, log: seq<EncryptedMessage>)

  const EMPTY: RelayState := RelayState(map[], [])

  function QueueOf(r: RelayState, d: Id): Queue {
    if d in r.queues then r.queues[d] else []
  }

  function Counts(queues: map<Id, Queue>): map<Id, nat> {
    map d | d in queues :: |queues[d]|
  }

  function Sizes(queues: map<Id, Queue>): map<Id, nat> {
    map d | d in queues :: ByteTotal(queues[d])
  }

  ghost function TotalMessages(queues: map<Id, Queue>): nat {
    Sum(Counts(queues))
  }

  ghost function TotalBytes(queues: map<Id, Queue>): nat {
    Sum(Sizes(queues))
  }

  function WithQueue(r: RelayState, d: Id, q: Queue): RelayState {
    RelayState(r.queues[d := q], r.log)
  }

  function Purged(r: RelayState, d: Id, now: u64): RelayState {
    if d in r.queues then WithQueue(r, d, Unexpired(r.queues[d], now)) else r
  }

  function DropIfEmpty(r: RelayState, d: Id): RelayState {
    if QueueOf(r, d) == [] then RelayState(r.queues - {d}, r.log) else r
  }

  function NewEntry(r: RelayState, m: EncryptedMessage, now: u64): Stored {
    Stored(m, SatAdd(now, OFFLINE_TTL_MS), MessageSize(m), |r.log|)
  }

  /** The part of a push after pruning: `q` is the pruned queue of the recipient in `p`. */
  ghost function Admit(p: RelayState, q: Queue, m: EncryptedMessage, now: u64): (RelayState, PushResult) {
    if HasId(q, m.messageId) then (p, Duplicate)
    else if |q| >= MAX_PER_DEVICE then (p, Full)
    else if TotalMessages(p.queues) >= MAX_TOTAL_MESSAGES
            || TotalBytes(p.queues) + MessageSize(m) > MAX_TOTAL_BYTES then (p, Full)
    else (RelayState(p.queues[m.recipientDeviceId := q + [NewEntry(p, m, now)]], p.log + [m]), Accepted)
  }

  ghost function Push(r: RelayState, m: EncryptedMessage, now: u64): (RelayState, PushResult) {
    if !ValidMessage(m) || !Timely(m, now) then (r, Invalid)
    else Admit(Purged(r, m.recipientDeviceId, now), Unexpired(QueueOf(r, m.recipientDeviceId), now), m, now)
  }

  function Pull(r: RelayState, d: Id, now: u64): (RelayState, seq<EncryptedMessage>) {
    var p := Purged(r, d, now);
    (DropIfEmpty(p, d), Messages(QueueOf(p, d)))
  }

  function Ack(r: RelayState, d: Id, id: Id): (RelayState, bool) {
    if d !in r.queues then (r, false)
    else (DropIfEmpty(WithQueue(r, d, Without(r.queues[d], id)), d), HasId(r.queues[d], id))
  }

  // ----- The invariant of the simple store -----

  ghost predicate StoredOk(s: Stored, d: Id, log: seq<EncryptedMessage>) {
    && s.serial < |log| && log[s.serial] == s.message
    && s.message.recipientDeviceId == d
    && ValidMessage(s.message)
    && s.accountedBytes == MessageSize(s.message)
  }

  /** Entries are in acceptance order and their message ids are distinct. */
  ghost predicate QueueOk(q: Queue, d: Id, log: seq<EncryptedMessage>) {
    q == [] ||
    (var front, last := q[..|q| - 1], q[|q| - 1];
     && QueueOk(front, d, log)
     && StoredOk(last, d, log)
     && forall s :: s in front ==> s.serial < last.serial && s.message.messageId != last.message.messageId)
  }

  ghost predicate QueueInv(q: Queue, d: Id, log: seq<EncryptedMessage>) {
    |q| <= MAX_PER_DEVICE && QueueOk(q, d, log)
  }

  ghost predicate RelayInv(r: RelayState) {
    && (forall d :: d in r.queues ==> QueueInv(r.queues[d], d, r.log))
    && TotalMessages(r.queues) <= MAX_TOTAL_MESSAGES
    && TotalBytes(r.queues) <= MAX_TOTAL_BYTES
  }

  ghost predicate Entries(q: Queue, d: Id, log: seq<EncryptedMessage>) {
    && (forall s :: s in q ==> StoredOk(s, d, log))
    && (forall s, t :: s in q && t in q && s.message.messageId == t.message.messageId ==> s == t)
    && (forall i, j :: 0 <= i < j < |q| ==> q[i].serial < q[j].serial)
  }

  lemma EntriesMore(front: Queue, last: Stored, d: Id, log: seq<EncryptedMessage>)
    requires Entries(front, d, log) && StoredOk(last, d, log)
    requires forall s :: s in front ==> s.serial < last.serial && s.message.messageId != last.message.messageId
    ensures Entries(front + [last], d, log)
  {
    hide StoredOk;
    assert forall i :: 0 <= i < |front| ==> front[i] in front;
  }

  /** The invariant of a queue, entry by entry. */
  lemma {:induction false} QueueEntries(q: Queue, d: Id, log: seq<EncryptedMessage>)
    requires QueueOk(q, d, log)
    ensures Entries(q, d, log)
  {
    if q != [] {
      var front, last := q[..|q| - 1], q[|q| - 1];
      assert QueueOk(front, d, log) && StoredOk(last, d, log);
      assert forall s :: s in front ==> s.serial < last.serial && s.message.messageId != last.message.messageId;
      hide QueueOk, StoredOk;
      QueueEntries(front, d, log);
      assert Entries(front, d, log);
      hide Entries;
      EntriesMore(front, last, d, log);
      assert q == front + [last];
    }
  }

  lemma {:induction false} FilterKeepsQueueOk(q: Queue, d: Id, log: seq<EncryptedMessage>, keep: Stored -> bool)
    requires QueueOk(q, d, log)
    ensures QueueOk(Filter(q, keep), d, log)
    ensures ByteTotal(Filter(q, keep)) <= ByteTotal(q)
  {
    if q == [] {
    } else {
      var front, last := q[..|q| - 1], q[|q| - 1];
      FilterKeepsQueueOk(front, d, log, keep);
      FilterMembers(front, keep);
      var f := Filter(front, keep);
      assert (f + [last])[..|f|] == f;
    }
  }

  lemma ReplaceCount(queues: map<Id, Queue>, d: Id, q: Queue)
    ensures TotalMessages(queues[d := q]) == TotalMessages(queues - {d}) + |q|
    ensures TotalMessages(queues) == TotalMessages(queues - {d}) + if d in queues then |queues[d]| else 0
  {
    var counts := Counts(queues);
    assert Counts(queues[d := q]) == counts[d := |q|];
    assert Counts(queues - {d}) == counts - {d};
    SumUpdate(counts, d, |q|);
    SumBounds(counts, d);
  }

  lemma ReplaceSize(queues: map<Id, Queue>, d: Id, q: Queue)
    ensures TotalBytes(queues[d := q]) == TotalBytes(queues - {d}) + ByteTotal(q)
    ensures TotalBytes(queues) == TotalBytes(queues - {d}) + if d in queues then ByteTotal(queues[d]) else 0
  {
    var sizes := Sizes(queues);
    assert Sizes(queues[d := q]) == sizes[d := ByteTotal(q)];
    assert Sizes(queues - {d}) == sizes - {d};
    SumUpdate(sizes, d, ByteTotal(q));
    SumBounds(sizes, d);
  }

  lemma Replace(queues: map<Id, Queue>, d: Id, q: Queue)
    ensures TotalMessages(queues[d := q]) == TotalMessages(queues - {d}) + |q|
    ensures TotalBytes(queues[d := q]) == TotalBytes(queues - {d}) + ByteTotal(q)
    ensures TotalMessages(queues) == TotalMessages(queues - {d}) + if d in queues then |queues[d]| else 0
    ensures TotalBytes(queues) == TotalBytes(queues - {d}) + if d in queues then ByteTotal(queues[d]) else 0
  {
    ReplaceCount(queues, d, q);
    ReplaceSize(queues, d, q);
  }

  lemma PurgedKeepsInv(r: RelayState, d: Id, now: u64)
    requires RelayInv(r)
    ensures RelayInv(Purged(r, d, now))
    ensures QueueInv(QueueOf(Purged(r, d, now), d), d, r.log)
    ensures QueueOf(Purged(r, d, now), d) == Unexpired(QueueOf(r, d), now)
  {
    if d in r.queues {
      FilterKeepsQueueOk(r.queues[d], d, r.log, LiveAt(now));
      FilterMembers(r.queues[d], LiveAt(now));
      Replace(r.queues, d, Unexpired(r.queues[d], now));
    }
  }

  lemma DropKeepsInv(r: RelayState, d: Id)
    requires RelayInv(r)
    ensures RelayInv(DropIfEmpty(r, d))
    ensures forall x :: QueueOf(DropIfEmpty(r, d), x) == QueueOf(r, x)
    ensures TotalMessages(DropIfEmpty(r, d).queues) == TotalMessages(r.queues)
    ensures TotalBytes(DropIfEmpty(r, d).queues) == TotalBytes(r.queues)
  {
    Replace(r.queues, d, []);
  }

  lemma {:induction false} LogGrows(q: Queue, d: Id, log: seq<EncryptedMessage>, m: EncryptedMessage)
    requires QueueOk(q, d, log)
    ensures QueueOk(q, d, log + [m])
  {
    if q == [] {
    } else {
      LogGrows(q[..|q| - 1], d, log, m);
    }
  }

  lemma {:induction false} AppendKeepsQueueOk(q: Queue, d: Id, log: seq<EncryptedMessage>, e: Stored)
    requires QueueOk(q, d, log) && !HasId(q, e.message.messageId)
    requires StoredOk(e, d, log + [e.message]) && e.serial == |log|
    ensures QueueOk(q + [e], d, log + [e.message])
    ensures ByteTotal(q + [e]) == ByteTotal(q) + e.accountedBytes
  {
    LogGrows(q, d, log, e.message);
    QueueEntries(q, d, log);
    assert (q + [e])[..|q|] == q;
  }

  lemma AdmitKeepsInv(p: RelayState, q: Queue, m: EncryptedMessage, now: u64)
    requires RelayInv(p) && ValidMessage(m) && q == QueueOf(p, m.recipientDeviceId)
    ensures RelayInv(Admit(p, q, m, now).0)
  {
    hide TotalMessages, TotalBytes;
    if Admit(p, q, m, now).1 == Accepted {
      var d, e := m.recipientDeviceId, NewEntry(p, m, now);
      assert QueueOk(q + [e], d, p.log + [m]) && ByteTotal(q + [e]) == ByteTotal(q) + e.accountedBytes by {
        AppendKeepsQueueOk(q, d, p.log, e);
      }
      Replace(p.queues, d, q + [e]);
      forall x | x in p.queues ensures QueueOk(p.queues[x], x, p.log + [m]) {
        LogGrows(p.queues[x], x, p.log, m);
      }
    }
  }

  lemma PushKeepsInv(r: RelayState, m: EncryptedMessage, now: u64)
    requires RelayInv(r)
    ensures RelayInv(Push(r, m, now).0)
  {
    if ValidMessage(m) {
      PurgedKeepsInv(r, m.recipientDeviceId, now);
      AdmitKeepsInv(Purged(r, m.recipientDeviceId, now), Unexpired(QueueOf(r, m.recipientDeviceId), now), m, now);
    }
  }

  lemma PullKeepsInv(r: RelayState, d: Id, now: u64)
    requires RelayInv(r)
    ensures RelayInv(Pull(r, d, now).0)
  {
    PurgedKeepsInv(r, d, now);
    DropKeepsInv(Purged(r, d, now), d);
  }

  lemma AckKeepsInv(r: RelayState, d: Id, id: Id)
    requires RelayInv(r)
    ensures RelayInv(Ack(r, d, id).0)
  {
    if d in r.queues {
      FilterKeepsQueueOk(r.queues[d], d, r.log, Not(id));
      FilterMembers(r.queues[d], Not(id));
      Replace(r.queues, d, Without(r.queues[d], id));
      DropKeepsInv(WithQueue(r, d, Without(r.queues[d], id)), d);
    }
  }

  /** Ids are distinct, so removing an id removes at most one entry, and its size. */
  lemma {:induction false} WithoutRemovesOne(q: Queue, d: Id, log: seq<EncryptedMessage>, id: Id)
    requires QueueOk(q, d, log)
    ensures !HasId(q, id) ==> Without(q, id) == q
    ensures forall s :: s in q && s.message.messageId == id ==>
              |Without(q, id)| == |q| - 1 && ByteTotal(Without(q, id)) == ByteTotal(q) - s.accountedBytes
  {
    if q == [] {
    } else {
      var front, last := q[..|q| - 1], q[|q| - 1];
      assert q == front + [last];
      WithoutRemovesOne(front, d, log, id);
      if last.message.messageId == id {
        assert !HasId(front, id);
      } else {
        var w := Without(front, id);
        assert (w + [last])[..|w|] == w;
        if HasId(front, id) {
          var i :| 0 <= i < |front| && front[i].message.messageId == id;
          assert q[i].message.messageId == id;
        }
      }
    }
  }
}
