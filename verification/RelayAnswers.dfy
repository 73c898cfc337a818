/** What the relay answers, over every run: when a push is refused and why, and what an acknowledgement finds. */
module RelayAnswers {
  import opened Prelude
  import opened Protocol
  import opened Sums
  import opened Relay
  import opened RelayRuns

  /** The fields are within the relay's limits: version 1, no zero identifier, and both parts present, with at most
      16 KiB of header and 4 MiB of ciphertext. */
  predicate FieldsOk(m: EncryptedMessage) {
    && m.version == 1
    && 0 !in {m.messageId, m.conversationId, m.senderDeviceId, m.recipientDeviceId}
    && 1 <= |m.ratchetHeader| <= 16_384
    && 1 <= |m.ciphertext| <= 4_194_304
  }

  /** Sent at most five minutes in the future, and at most seven days ago. */
  predicate SentInTime(m: EncryptedMessage, now: u64) {
    now <= m.sentAtMs + 604_800_000 && m.sentAtMs <= now + 300_000
  }

  /** The messages of a queue that are still alive at `now`. */
  function AliveAt(q: Queue, now: u64): Queue {
    if q == [] then []
    else AliveAt(q[..|q| - 1], now) + if now < q[|q| - 1].expiresAtMs then [q[|q| - 1]] else []
  }

  lemma {:induction false} AliveIsUnexpired(q: Queue, now: u64)
    ensures AliveAt(q, now) == Unexpired(q, now)
    ensures forall s :: s in AliveAt(q, now) <==> s in q && now < s.expiresAtMs
  {
    FilterMembers(q, LiveAt(now));
    if q != [] {
      AliveIsUnexpired(q[..|q| - 1], now);
      assert AliveAt(q[..|q| - 1], now) + [] == AliveAt(q[..|q| - 1], now);
    }
  }

  /** One of the messages has the id of `m`. */
  predicate Repeats(q: Queue, m: EncryptedMessage) {
    exists s :: s in q && s.message.messageId == m.messageId
  }

  /** No room, once what has expired in the recipient's queue is gone: 256 messages for the device, or 65536 messages
      in all, or more than 512 MiB of encoded messages in all. */
  ghost predicate NoRoom(r: RelayState, waiting: Queue, alive: Queue, size: nat) {
    || |alive| >= 256
    || TotalMessages(r.queues) - |waiting| + |alive| >= 65_536
    || TotalBytes(r.queues) - ByteTotal(waiting) + ByteTotal(alive) + size > 536_870_912
  }

  lemma PurgedTotals(r: RelayState, d: Id, now: u64)
    ensures var q, alive := QueueOf(r, d), Unexpired(QueueOf(r, d), now);
            var p := Purged(r, d, now);
            && TotalMessages(p.queues) == TotalMessages(r.queues) - |q| + |alive|
            && TotalBytes(p.queues) == TotalBytes(r.queues) - ByteTotal(q) + ByteTotal(alive)
  {
    hide TotalMessages, TotalBytes;
    if d in r.queues {
      Replace(r.queues, d, Unexpired(r.queues[d], now));
      Replace(r.queues, d, r.queues[d]);
      assert r.queues[d := r.queues[d]] == r.queues;
    }
  }

  lemma ChecksMean(m: EncryptedMessage, now: u64)
    ensures ValidMessage(m) && Timely(m, now) <==> FieldsOk(m) && SentInTime(m, now)
    ensures FieldsOk(m) ==> MessageSize(m) == 82 + |m.ratchetHeader| + |m.ciphertext|
  {
  }

  lemma RepeatsMeans(q: Queue, m: EncryptedMessage)
    ensures HasId(q, m.messageId) <==> Repeats(q, m)
  {
    if s :| s in q && s.message.messageId == m.messageId {
      var i :| 0 <= i < |q| && q[i] == s;
    }
  }

  lemma AdmitAnswers(r: RelayState, m: EncryptedMessage, now: u64)
    ensures var waiting := QueueOf(r, m.recipientDeviceId);
            var alive := AliveAt(waiting, now);
            var ok, size := FieldsOk(m) && SentInTime(m, now), 82 + |m.ratchetHeader| + |m.ciphertext|;
            Push(r, m, now).1 ==
              if !ok then Invalid
              else if Repeats(alive, m) then Duplicate
              else if NoRoom(r, waiting, alive, size) then Full
              else Accepted
  {
    var waiting := QueueOf(r, m.recipientDeviceId);
    AliveIsUnexpired(waiting, now);
    ChecksMean(m, now);
    PurgedTotals(r, m.recipientDeviceId, now);
    RepeatsMeans(Unexpired(waiting, now), m);
    hide TotalMessages, TotalBytes, ByteTotal, HasId, Repeats, ValidMessage, Timely, FieldsOk, SentInTime, AliveAt,
      Unexpired, Purged, MessageSize, QueueOf;
  }

  /** The four answers of a push after any run, by what the log says is waiting for the recipient. */
  lemma PushAnswersExactlyWhen(events: seq<RelayEvent>, m: EncryptedMessage, now: u64)
    ensures var waiting := Waiting(History(events), m.recipientDeviceId);
            var alive := AliveAt(waiting, now);
            var ok, size := FieldsOk(m) && SentInTime(m, now), 82 + |m.ratchetHeader| + |m.ciphertext|;
            var full := NoRoom(Run(events), waiting, alive, size);
            var answer := Push(Run(events), m, now).1;
            && (answer == Invalid <==> !ok)
            && (answer == Duplicate <==> ok && Repeats(alive, m))
            && (answer == Full <==> ok && !Repeats(alive, m) && full)
            && (answer == Accepted <==> ok && !Repeats(alive, m) && !full)
  {
    hide *;
    QueueRefinesLog(events, m.recipientDeviceId);
    AdmitAnswers(Run(events), m, now);
  }

  /** What a push leaves in the recipient's queue: nothing changes for a message that fails the checks; otherwise
      what has expired goes, and an accepted message is added at the end, for seven days. */
  lemma PushLeaves(events: seq<RelayEvent>, m: EncryptedMessage, now: u64)
    ensures var d := m.recipientDeviceId;
            var waiting := Waiting(History(events), d);
            var (r', answer) := Push(Run(events), m, now);
            var size := 82 + |m.ratchetHeader| + |m.ciphertext|;
            var expiry := if now + 604_800_000 > U64_MAX then U64_MAX else now + 604_800_000;
            QueueOf(r', d) ==
              if answer == Invalid then waiting
              else if answer == Accepted then AliveAt(waiting, now) + [Stored(m, expiry, size, |Run(events).log|)]
              else AliveAt(waiting, now)
  {
    var r, d := Run(events), m.recipientDeviceId;
    QueueRefinesLog(events, d);
    QueueAfterPush(r, m, now, d);
    AliveIsUnexpired(QueueOf(r, d), now);
    AdmitAnswers(r, m, now);
    ChecksMean(m, now);
    hide Push, Run, QueueOf, Waiting, AliveAt, Unexpired, Repeats, NoRoom, FieldsOk, SentInTime, MessageSize;
    assert AliveAt(Waiting(History(events), d), now) + [] == AliveAt(Waiting(History(events), d), now);
  }

  /** An acknowledgement answers true exactly when the log says a message with that id is waiting, expired or not. */
  lemma AckAnswersExactlyWhen(events: seq<RelayEvent>, d: Id, id: Id)
    ensures Ack(Run(events), d, id).1 <==>
            exists s :: s in Waiting(History(events), d) && s.message.messageId == id
  {
    QueueRefinesLog(events, d);
    hide Run, Waiting;
    var q := QueueOf(Run(events), d);
    if s :| s in q && s.message.messageId == id {
      var i :| 0 <= i < |q| && q[i] == s;
    }
  }

  /** A device whose queue a pull or an acknowledgement empties has no queue any more. */
  lemma EmptyQueuesGo(r: RelayState, d: Id, now: u64, id: Id)
    ensures d in Pull(r, d, now).0.queues <==> exists s :: s in QueueOf(r, d) && now < s.expiresAtMs
    ensures d in r.queues ==>
              (d in Ack(r, d, id).0.queues <==> exists s :: s in QueueOf(r, d) && s.message.messageId != id)
  {
    var q := QueueOf(r, d);
    FilterMembers(q, LiveAt(now));
    FilterMembers(q, Not(id));
    hide Filter;
    if Unexpired(q, now) != [] { assert Unexpired(q, now)[0] in Unexpired(q, now); }
    if Without(q, id) != [] { assert Without(q, id)[0] in Without(q, id); }
  }
}
