/** The store as the gateway runs it: cached totals, saturating arithmetic, in-place queues. */
module RelayStore {
  import opened Prelude
  import opened Protocol
  import opened Sums
  import opened Relay

  method RemoveExpired(queue: Queue, now: u64) returns (kept: Queue, removedMessages: usize, removedBytes: usize)
    requires |queue| <= U64_MAX && ByteTotal(queue) <= U64_MAX
    ensures kept == Unexpired(queue, now)
    ensures removedMessages == |queue| - |kept|
    ensures removedBytes == ByteTotal(queue) - ByteTotal(kept)
  {
    kept, removedMessages, removedBytes := [], 0, 0;
    var i := 0;
    while i < |queue|
      invariant 0 <= i <= |queue|
      invariant kept == Unexpired(queue[..i], now)
      invariant removedMessages == i - |kept|
      invariant removedBytes == ByteTotal(queue[..i]) - ByteTotal(kept)
      invariant ByteTotal(queue[..i]) <= ByteTotal(queue)
    {
      var s := queue[i];
      PrefixStep(queue, i, now);
      if s.expiresAtMs <= now {
        removedMessages := removedMessages + 1;
        removedBytes := SatAdd(removedBytes, s.accountedBytes);
      } else {
        assert (kept + [s])[..|kept|] == kept;
        kept := kept + [s];
      }
      i := i + 1;
    }
    assert queue[..i] == queue;
  }

  lemma {:induction false} ByteTotalPrefix(q: Queue, i: nat)
    requires i <= |q|
    ensures ByteTotal(q[..i]) <= ByteTotal(q)
  {
    if i == |q| {
      assert q[..i] == q;
    } else {
      ByteTotalPrefix(q[..|q| - 1], i);
      assert q[..|q| - 1][..i] == q[..i];
    }
  }

  lemma PrefixStep(q: Queue, i: nat, now: u64)
    requires i < |q|
    ensures Unexpired(q[..i + 1], now) == Unexpired(q[..i], now) + if q[i].expiresAtMs > now then [q[i]] else []
    ensures ByteTotal(q[..i + 1]) == ByteTotal(q[..i]) + q[i].accountedBytes
    ensures ByteTotal(q[..i + 1]) <= ByteTotal(q)
  {
    hide *;
    TakeOneMore(q, i);
    UnexpiredAppend(q[..i], q[i], now);
    ByteTotalAppend(q[..i], q[i]);
    ByteTotalPrefix(q, i + 1);
  }

  lemma TakeOneMore<T>(s: seq<T>, i: nat)
    requires i < |s|
    ensures s[..i + 1] == s[..i] + [s[i]]
  {
  }

  lemma UnexpiredAppend(q: Queue, e: Stored, now: u64)
    ensures Unexpired(q + [e], now) == Unexpired(q, now) + if e.expiresAtMs > now then [e] else []
  {
    hide Filter;
    FilterAppend(q, e, LiveAt(now));
  }

  lemma ByteTotalAppend(q: Queue, e: Stored)
    ensures ByteTotal(q + [e]) == ByteTotal(q) + e.accountedBytes
  {
    assert (q + [e])[..|q|] == q;
  }

  /** `retain` of an acknowledgement, which remembers the size of the last entry it removes. */
  method RemoveId(queue: Queue, id: Id, ghost device: Id, ghost log: seq<EncryptedMessage>)
    returns (kept: Queue, removedBytes: usize)
    requires QueueOk(queue, device, log)
    ensures kept == Without(queue, id)
    ensures |kept| == |queue| - if HasId(queue, id) then 1 else 0
    ensures HasId(queue, id) ==> removedBytes == ByteTotal(queue) - ByteTotal(kept)
    ensures !HasId(queue, id) ==> kept == queue
  {
    kept, removedBytes := [], 0;
    var i := 0;
    while i < |queue|
      invariant 0 <= i <= |queue|
      invariant kept == Without(queue[..i], id)
      invariant (exists j :: 0 <= j < i && queue[j].message.messageId == id) ==>
                  exists s :: s in queue && s.message.messageId == id && removedBytes == s.accountedBytes
    {
      var s := queue[i];
      assert queue[..i + 1] == queue[..i] + [s];
      FilterAppend(queue[..i], s, Not(id));
      if s.message.messageId == id {
        removedBytes := s.accountedBytes;
      } else {
        kept := kept + [s];
      }
      i := i + 1;
    }
    assert queue[..i] == queue;
    WithoutRemovesOne(queue, device, log, id);
  }

  /** The totals a queue contributes, before and after pruning; no saturation is possible. */
  lemma TakeFacts(r: RelayState, d: Id, now: u64)
    requires RelayInv(r) && d in r.queues
    ensures QueueOk(r.queues[d], d, r.log)
    ensures TotalMessages(r.queues) == TotalMessages(r.queues - {d}) + |r.queues[d]| <= MAX_TOTAL_MESSAGES
    ensures TotalBytes(r.queues) == TotalBytes(r.queues - {d}) + ByteTotal(r.queues[d]) <= MAX_TOTAL_BYTES
    ensures |Unexpired(r.queues[d], now)| <= |r.queues[d]|
    ensures ByteTotal(Unexpired(r.queues[d], now)) <= ByteTotal(r.queues[d])
  {
    Replace(r.queues, d, []);
    FilterMembers(r.queues[d], LiveAt(now));
    FilterKeepsQueueOk(r.queues[d], d, r.log, LiveAt(now));
  }

  lemma PutBackTotals(queues: map<Id, Queue>, d: Id, q: Queue)
    requires d !in queues
    ensures TotalMessages(queues[d := q]) == TotalMessages(queues) + |q|
    ensures TotalBytes(queues[d := q]) == TotalBytes(queues) + ByteTotal(q)
  {
    hide Sum;
    Replace(queues, d, q);
    assert queues - {d} == queues;
  }

  lemma TakeThenPut(queues: map<Id, Queue>, d: Id, q: Queue)
    ensures (queues - {d})[d := q] == queues[d := q]
    ensures queues[d := q] - {d} == queues - {d}
  {
  }

  lemma AppendTotals(queues: map<Id, Queue>, d: Id, q: Queue, e: Stored)
    requires q == if d in queues then queues[d] else []
    ensures TotalMessages(queues[d := q + [e]]) == TotalMessages(queues) + 1
    ensures TotalBytes(queues[d := q + [e]]) == TotalBytes(queues) + e.accountedBytes
  {
    Replace(queues, d, q + [e]);
    assert (q + [e])[..|q|] == q;
  }

  lemma PurgedAbsent(r: RelayState, d: Id, now: u64)
    requires d !in r.queues
    ensures Purged(r, d, now) == r && Unexpired(QueueOf(r, d), now) == []
  {
  }

  method AccountedSize(message: EncryptedMessage) returns (size: usize)
    ensures size == MessageSize(message)
  {
    var encoded := Encode(message);
    size := if encoded.Ok? then |encoded.value| else U64_MAX;
  }

  class RelayStore {
    var queues: map<Id, Queue>
    var totalMessages: usize
    var totalBytes: usize
    var log: seq<EncryptedMessage>  // history variable

    function State(): RelayState
      reads this
    {
      RelayState(queues, log)
    }

    /** The cached totals are the sums over all queues, so all the limits hold of the real contents. */
    ghost predicate Valid()
      reads this
    {
      RelayInv(State()) && totalMessages == TotalMessages(queues) && totalBytes == TotalBytes(queues)
    }

    constructor ()
      ensures Valid() && State() == EMPTY
    {
      queues, totalMessages, totalBytes, log := map[], 0, 0, [];
    }

    /** Takes the queue of `device` out of the map, prunes it and settles the totals. */
    method TakePruned(device: Id, now: u64) returns (queue: Queue)
      requires Valid() && device in queues
      modifies this
      ensures log == old(log) && queues == old(queues) - {device}
      ensures queue == Unexpired(old(queues[device]), now)
      ensures totalMessages == TotalMessages(queues) + |queue|
      ensures totalBytes == TotalBytes(queues) + ByteTotal(queue)
    {
      TakeFacts(State(), device, now);
      hide RelayInv, QueueOk, TotalMessages, TotalBytes, ByteTotal, Unexpired;
      var removedMessages, removedBytes;
      queue := queues[device];
      queues := queues - {device};
      queue, removedMessages, removedBytes := RemoveExpired(queue, now);
      totalMessages := SatSub(totalMessages, removedMessages);
      totalBytes := SatSub(totalBytes, removedBytes);
    }

    /** Puts a queue back under its device. */
    method PutBack(device: Id, queue: Queue)
      requires device !in queues
      requires totalMessages == TotalMessages(queues) + |queue|
      requires totalBytes == TotalBytes(queues) + ByteTotal(queue)
      modifies this`queues
      ensures queues == old(queues)[device := queue]
      ensures totalMessages == TotalMessages(queues) && totalBytes == TotalBytes(queues)
    {
      PutBackTotals(queues, device, queue);
      queues := queues[device := queue];
    }

    method Prune(device: Id, now: u64)
      requires Valid() && device in queues
      modifies this
      ensures Valid() && State() == Purged(old(State()), device, now)
    {
      hide Sum, RelayInv, Filter;
      PurgedKeepsInv(State(), device, now);
      var queue := TakePruned(device, now);
      PutBack(device, queue);
      assert queues == old(queues)[device := queue];
    }

    method Append(device: Id, entry: Stored)
      requires totalMessages == TotalMessages(queues) < MAX_TOTAL_MESSAGES
      requires totalBytes == TotalBytes(queues) <= MAX_TOTAL_BYTES - entry.accountedBytes
      modifies this
      ensures queues == old(queues)[device := QueueOf(old(State()), device) + [entry]]
      ensures log == old(log) + [entry.message]
      ensures totalMessages == TotalMessages(queues) && totalBytes == TotalBytes(queues)
    {
      var queue := if device in queues then queues[device] else [];
      AppendTotals(queues, device, queue, entry);
      queues := queues[device := queue + [entry]];
      totalMessages := totalMessages + 1;
      totalBytes := totalBytes + entry.accountedBytes;
      log := log + [entry.message];
    }

    method Push(message: EncryptedMessage, now: u64) returns (result: PushResult)
      requires Valid()
      modifies this
      ensures Valid()
      ensures (State(), result) == Relay.Push(old(State()), message, now)
    {
      hide Sum, RelayInv, Filter, TotalMessages, TotalBytes;
      PushKeepsInv(State(), message, now);
      if !ValidMessage(message) { return Invalid; }
      if message.sentAtMs > SatAdd(now, MAX_CLOCK_SKEW_MS) || SatSub(now, message.sentAtMs) > OFFLINE_TTL_MS {
        return Invalid;
      }
      var accountedBytes := AccountedSize(message);
      var expiresAtMs := SatAdd(now, OFFLINE_TTL_MS);
      var device := message.recipientDeviceId;
      if device in queues {
        Prune(device, now);
        if HasId(queues[device], message.messageId) { return Duplicate; }
        if |queues[device]| >= MAX_PER_DEVICE { return Full; }
      } else {
        PurgedAbsent(State(), device, now);
      }
      if totalMessages >= MAX_TOTAL_MESSAGES || SatAdd(totalBytes, accountedBytes) > MAX_TOTAL_BYTES { return Full; }
      Append(device, Stored(message, expiresAtMs, accountedBytes, |log|));
      result := Accepted;
    }

    method Pull(device: Id, now: u64) returns (messages: seq<EncryptedMessage>)
      requires Valid()
      modifies this
      ensures Valid()
      ensures (State(), messages) == Relay.Pull(old(State()), device, now)
    {
      hide Sum, RelayInv, Filter;
      PullKeepsInv(State(), device, now);
      if device !in queues {
        assert queues - {device} == queues;
        return [];
      }
      var queue := TakePruned(device, now);
      messages := Messages(queue);
      TakeThenPut(old(queues), device, queue);
      if queue != [] {
        PutBack(device, queue);
      }
    }

    method Ack(device: Id, messageId: Id) returns (removed: bool)
      requires Valid()
      modifies this
      ensures Valid()
      ensures (State(), removed) == Relay.Ack(old(State()), device, messageId)
    {
      hide RelayInv, TotalMessages, TotalBytes, HasId, Filter;
      AckKeepsInv(State(), device, messageId);
      if device !in queues { return false; }
      var queue := queues[device];
      TakeFacts(State(), device, 0);
      queues := queues - {device};
      var before := |queue|;
      var removedBytes;
      queue, removedBytes := RemoveId(queue, messageId, device, log);
      removed := |queue| != before;
      if removed {
        totalMessages := SatSub(totalMessages, 1);
        totalBytes := SatSub(totalBytes, removedBytes);
      }
      TakeThenPut(old(queues), device, queue);
      if queue != [] {
        PutBack(device, queue);
      }
    }
  }
}
