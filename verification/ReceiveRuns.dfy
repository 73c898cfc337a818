/** The receive ratchet refines "the set of consumed counters", over whole runs. */
module ReceiveRuns {
  import opened Prelude
  import opened Crypto
  import opened Ratchet
  import opened Receive

  /** The simple receiver: which counters are used up, and the first counter never reached. */
  datatype Consumed = Consumed(expected: u64, used: set<u64>)

  const NOTHING: Consumed := Consumed(0, {})

  ghost predicate Tight(a: Consumed) {
    && (forall c :: c in a.used ==> c < a.expected)
    && (a.expected > 0 ==> a.expected - 1 in a.used)
  }

  function KeysBetween(kdf: Kdf, root: Key, from: u64, to: u64): map<u64, Key> {
    map c: u64 | from <= c < to :: MessageKeyAt(kdf, root, c)
  }

  /** The concrete receiver that stands for `a`: the right keys for exactly the unused counters passed over. */
  function StateOf(kdf: Kdf, root: Key, a: Consumed): Receiver {
    Receiver(Chain(ChainAt(kdf, root, a.expected), a.expected), KeysBetween(kdf, root, 0, a.expected) - a.used)
  }

  function SpecDecrypt(kdf: Kdf, aead: Aead, root: Key, a: Consumed, counter: u64, packet: Bytes, aad: Bytes)
    : (Consumed, Result<Bytes, ReceiveError>)
  {
    if counter in a.used then (a, Err(Replay))
    else if counter > a.expected + MAX_SKIP then (a, Err(TooFarAhead))
    else if counter == U64_MAX then (a, Err(DecryptionFailed))
    else
      match DecryptOnce(aead, MessageKeyAt(kdf, root, counter), packet, aad)
      case Err(_) => (a, Err(DecryptionFailed))
      case Ok(text) =>
        (Consumed(if counter < a.expected then a.expected else counter + 1, a.used + {counter}), Ok(text))
  }

  lemma NoKeys(kdf: Kdf, root: Key, n: u64, kept: map<u64, Key>)
    ensures kept + KeysBetween(kdf, root, n, n) == kept
  {
  }

  lemma KeysStep(kdf: Kdf, root: Key, n: u64, kept: map<u64, Key>, target: u64)
    requires n < target
    ensures kept[n := MessageKeyAt(kdf, root, n)] + KeysBetween(kdf, root, n + 1, target)
            == kept + KeysBetween(kdf, root, n, target)
  {
    hide MessageKeyAt;
  }

  /** Advancing from position `n` collects the keys of `[n, target)` and returns key `target`. */
  lemma {:induction false} AdvanceCollects(kdf: Kdf, root: Key, n: u64, kept: map<u64, Key>, target: u64)
    requires n <= target
    ensures var (s, key) := Advance(kdf, Receiver(Chain(ChainAt(kdf, root, n), n), kept), target);
            if target == U64_MAX then key == Err(DecryptionFailed)
            else s == Receiver(Chain(ChainAt(kdf, root, target + 1), target + 1),
                               kept + KeysBetween(kdf, root, n, target))
                 && key == Ok(MessageKeyAt(kdf, root, target))
    decreases target - n
  {
    hide KeysBetween;
    if n == target {
      NoKeys(kdf, root, n, kept);
    } else {
      var kept' := kept[n := MessageKeyAt(kdf, root, n)];
      AdvanceCollects(kdf, root, n + 1, kept', target);
      KeysStep(kdf, root, n, kept, target);
    }
  }

  lemma KeysAfterOld(kdf: Kdf, root: Key, a: Consumed, counter: u64)
    ensures KeysBetween(kdf, root, 0, a.expected) - a.used - {counter}
            == KeysBetween(kdf, root, 0, a.expected) - (a.used + {counter})
  {
    hide MessageKeyAt;
  }

  lemma KeysAfterNew(kdf: Kdf, root: Key, a: Consumed, counter: u64)
    requires Tight(a) && a.expected <= counter < U64_MAX
    ensures (KeysBetween(kdf, root, 0, a.expected) - a.used) + KeysBetween(kdf, root, a.expected, counter)
            == KeysBetween(kdf, root, 0, counter + 1) - (a.used + {counter})
  {
    hide MessageKeyAt;
  }

  lemma StepRefines(kdf: Kdf, aead: Aead, root: Key, a: Consumed, counter: u64, packet: Bytes, aad: Bytes)
    requires Tight(a)
    ensures var (a', r) := SpecDecrypt(kdf, aead, root, a, counter, packet, aad);
            && Tight(a')
            && Decrypted(kdf, aead, StateOf(kdf, root, a), counter, packet, aad) == (StateOf(kdf, root, a'), r)
  {
    hide MessageKeyAt, DecryptOnce, ChainAt, Advance;
    var s := StateOf(kdf, root, a);
    if counter < a.expected {
      KeysAfterOld(kdf, root, a, counter);
    } else if counter - a.expected <= MAX_SKIP {
      AdvanceCollects(kdf, root, a.expected, s.skipped, counter);
      if counter < U64_MAX {
        KeysAfterNew(kdf, root, a, counter);
      }
    }
  }

  // ----- Runs -----

  datatype Packet = Packet(counter: u64, body: Bytes, aad: Bytes)

  function Run(kdf: Kdf, aead: Aead, root: Key, packets: seq<Packet>): Receiver {
    if packets == [] then Fresh(kdf, root)
    else
      var last := packets[|packets| - 1];
      Decrypted(kdf, aead, Run(kdf, aead, root, packets[..|packets| - 1]), last.counter, last.body, last.aad).0
  }

  function Answer(kdf: Kdf, aead: Aead, root: Key, earlier: seq<Packet>, p: Packet): Result<Bytes, ReceiveError> {
    Decrypted(kdf, aead, Run(kdf, aead, root, earlier), p.counter, p.body, p.aad).1
  }

  function SpecRun(kdf: Kdf, aead: Aead, root: Key, packets: seq<Packet>): Consumed {
    if packets == [] then NOTHING
    else
      var last := packets[|packets| - 1];
      SpecDecrypt(kdf, aead, root, SpecRun(kdf, aead, root, packets[..|packets| - 1]),
                  last.counter, last.body, last.aad).0
  }

  lemma {:induction false} RunRefines(kdf: Kdf, aead: Aead, root: Key, packets: seq<Packet>)
    ensures Tight(SpecRun(kdf, aead, root, packets))
    ensures Run(kdf, aead, root, packets) == StateOf(kdf, root, SpecRun(kdf, aead, root, packets))
  {
    if packets == [] {
      assert StateOf(kdf, root, NOTHING).skipped == map[];
    } else {
      var front, last := packets[..|packets| - 1], packets[|packets| - 1];
      RunRefines(kdf, aead, root, front);
      StepRefines(kdf, aead, root, SpecRun(kdf, aead, root, front), last.counter, last.body, last.aad);
    }
  }

  /** What the cipher makes of a packet: its first 12 bytes are the nonce, the rest is the sealed text. */
  function Opened(aead: Aead, key: Key, packet: Bytes, aad: Bytes): Option<Bytes> {
    if |packet| < 12 then None else aead.open(key, packet[..12], packet[12..], aad)
  }

  /** After any run: a packet decrypts, to what the cipher gives, exactly when its counter is unused, at most 256 past
      the expected one and not the last 64-bit number, and the cipher opens it under the key of that counter. Whatever
      fails is reported and changes nothing. */
  lemma DecryptsExactlyWhen(kdf: Kdf, aead: Aead, root: Key, earlier: seq<Packet>, p: Packet)
    ensures var a := SpecRun(kdf, aead, root, earlier);
            var plain := Opened(aead, MessageKeyAt(kdf, root, p.counter), p.body, p.aad);
            var r := Answer(kdf, aead, root, earlier, p);
            && (r.Ok? <==> p.counter !in a.used && p.counter <= a.expected + 256
                           && p.counter != U64_MAX && plain.Some?)
            && (r.Ok? ==> r.value == plain.value)
            && (r == Err(Replay) <==> p.counter in a.used)
            && (r == Err(TooFarAhead) <==> p.counter > a.expected + 256)
            && (r.Err? ==> Run(kdf, aead, root, earlier + [p]) == Run(kdf, aead, root, earlier))
  {
    RunRefines(kdf, aead, root, earlier);
    StepRefines(kdf, aead, root, SpecRun(kdf, aead, root, earlier), p.counter, p.body, p.aad);
    assert (earlier + [p])[..|earlier|] == earlier;
  }

  lemma {:induction false} InitialSegmentSize(s: set<u64>, n: u64)
    requires forall c: u64 :: c in s <==> c < n
    ensures |s| == n
  {
    if n == 0 {
      assert s == {};
    } else {
      InitialSegmentSize(s - {n - 1}, n - 1);
    }
  }

  /** No key is lost and none is invented: every counter passed over is either used or still held. */
  lemma SkippedPlusUsed(kdf: Kdf, aead: Aead, root: Key, packets: seq<Packet>)
    ensures var a := SpecRun(kdf, aead, root, packets);
            var s := Run(kdf, aead, root, packets);
            && s.chain.counter == a.expected
            && |s.skipped| + |a.used| == a.expected
            && (forall c: u64 :: c in s.skipped <==> c < a.expected && c !in a.used)
            && (forall c :: c in s.skipped ==> s.skipped[c] == MessageKeyAt(kdf, root, c))
  {
    RunRefines(kdf, aead, root, packets);
    var a, s := SpecRun(kdf, aead, root, packets), Run(kdf, aead, root, packets);
    InitialSegmentSize(s.skipped.Keys + a.used, a.expected);
    assert |s.skipped.Keys + a.used| == |s.skipped.Keys| + |a.used|;
  }

  /** Two runs that use up the same counters end in the same receiver, whatever the order and the failures. */
  lemma SameCountersSameState(kdf: Kdf, aead: Aead, root: Key, first: seq<Packet>, second: seq<Packet>)
    requires SpecRun(kdf, aead, root, first).used == SpecRun(kdf, aead, root, second).used
    ensures Run(kdf, aead, root, first) == Run(kdf, aead, root, second)
  {
    RunRefines(kdf, aead, root, first);
    RunRefines(kdf, aead, root, second);
    hide Run, SpecRun, StateOf;
    var a, b := SpecRun(kdf, aead, root, first), SpecRun(kdf, aead, root, second);
    assert a.expected <= b.expected && b.expected <= a.expected;
  }

  // ----- One sender, any delivery order -----

  datatype Sent = Sent(nonce: Bytes, text: Bytes, aad: Bytes)

  /** What the sender's chain produces for its messages, in order. */
  function Wired(kdf: Kdf, aead: Aead, root: Key, sent: seq<Sent>, n: u64): Packet
    requires n < |sent|
  {
    Packet(n, SealedPacket(kdf, aead, root, n, sent[n].nonce, sent[n].text, sent[n].aad), sent[n].aad)
  }

  /** The sender's chain after it encrypted the first `n` messages. */
  function SenderAfter(kdf: Kdf, aead: Aead, root: Key, sent: seq<Sent>, n: nat): Chain
    requires n <= |sent|
  {
    if n == 0 then Chain(ChainAt(kdf, root, 0), 0)
    else Encrypted(kdf, aead, SenderAfter(kdf, aead, root, sent, n - 1), sent[n - 1].nonce, sent[n - 1].text,
                   sent[n - 1].aad).0
  }

  /** The sender's `n`-th call produces packet `n`: the nonce, and what the cipher opens under message key `n` to the
      text of that call. */
  lemma {:induction false} SenderProduces(kdf: Kdf, aead: Aead, root: Key, sent: seq<Sent>, n: nat)
    requires n < |sent| <= U64_MAX
    ensures SenderAfter(kdf, aead, root, sent, n) == Chain(ChainAt(kdf, root, n), n)
    ensures Encrypted(kdf, aead, SenderAfter(kdf, aead, root, sent, n), sent[n].nonce, sent[n].text, sent[n].aad).1
            == Ok(Wired(kdf, aead, root, sent, n).body)
    ensures OpensWhatItSeals(aead) && |sent[n].nonce| == 12 ==>
              var body := Wired(kdf, aead, root, sent, n).body;
              body[..12] == sent[n].nonce
              && Opened(aead, MessageKeyAt(kdf, root, n), body, sent[n].aad) == Some(sent[n].text)
  {
    if n > 0 {
      SenderProduces(kdf, aead, root, sent, n - 1);
    }
    var body := Wired(kdf, aead, root, sent, n).body;
    if |sent[n].nonce| == 12 {
      assert body[..12] == sent[n].nonce;
      assert body[12..] == aead.seal(MessageKeyAt(kdf, root, n), sent[n].nonce, sent[n].text, sent[n].aad);
    }
  }

  predicate Known(sent: seq<Sent>, order: seq<u64>) {
    forall k :: 0 <= k < |order| ==> order[k] < |sent|
  }

  /** Delivers the messages with the given numbers, in that order, repeats included. */
  function Delivered(kdf: Kdf, aead: Aead, root: Key, sent: seq<Sent>, order: seq<u64>): seq<Packet>
    requires Known(sent, order)
  {
    if order == [] then []
    else Delivered(kdf, aead, root, sent, order[..|order| - 1]) + [Wired(kdf, aead, root, sent, order[|order| - 1])]
  }

  /** One past the largest number delivered so far. */
  function Frontier(order: seq<u64>): (n: nat)
    ensures forall c :: c in order ==> c < n
    ensures n > 0 ==> n - 1 in order
  {
    if order == [] then 0
    else
      var n, last: nat := Frontier(order[..|order| - 1]), order[|order| - 1];
      assert order == order[..|order| - 1] + [order[|order| - 1]];
      if last < n then n else last + 1
  }

  predicate NeverJumpsTooFar(order: seq<u64>) {
    forall k :: 0 <= k < |order| ==> order[k] <= Frontier(order[..k]) + MAX_SKIP
  }

  ghost predicate Sendable(sent: seq<Sent>) {
    |sent| <= U64_MAX && forall n :: 0 <= n < |sent| ==> |sent[n].nonce| == NONCE_LEN
  }

  lemma NeverJumpsBefore(order: seq<u64>, n: u64)
    requires NeverJumpsTooFar(order + [n])
    ensures NeverJumpsTooFar(order) && n <= Frontier(order) + MAX_SKIP
  {
    var all := order + [n];
    forall k | 0 <= k < |order| ensures order[k] <= Frontier(order[..k]) + MAX_SKIP {
      assert all[k] == order[k] && all[..k] == order[..k];
    }
    assert all[|order|] == n && all[..|order|] == order;
  }

  lemma FrontierStep(order: seq<u64>, n: u64)
    ensures Frontier(order + [n]) == if n < Frontier(order) then Frontier(order) else n as nat + 1
  {
    assert (order + [n])[..|order|] == order;
  }

  /** One more delivery, in terms of the simple receiver. */
  lemma DeliverOne(kdf: Kdf, aead: Aead, root: Key, sent: seq<Sent>, a: Consumed, n: u64)
    requires OpensWhatItSeals(aead) && Sendable(sent) && n < |sent| && Tight(a) && n <= a.expected + MAX_SKIP
    ensures var p := Wired(kdf, aead, root, sent, n);
            var (a', r) := SpecDecrypt(kdf, aead, root, a, p.counter, p.body, p.aad);
            && a'.used == a.used + {n}
            && a'.expected == (if n < a.expected then a.expected else n + 1)
            && r == if n in a.used then Err(Replay) else Ok(sent[n].text)
  {
    hide SealedPacket, MessageKeyAt, DecryptOnce;
    SealedPacketOpens(kdf, aead, root, n, sent[n].nonce, sent[n].text, sent[n].aad);
    if n in a.used {
      assert a.used + {n} == a.used;
    }
  }

  lemma SpecRunDelivered(kdf: Kdf, aead: Aead, root: Key, sent: seq<Sent>, order: seq<u64>, n: u64)
    requires Known(sent, order) && n < |sent| && Known(sent, order + [n])
    ensures var p := Wired(kdf, aead, root, sent, n);
            SpecRun(kdf, aead, root, Delivered(kdf, aead, root, sent, order + [n]))
            == SpecDecrypt(kdf, aead, root, SpecRun(kdf, aead, root, Delivered(kdf, aead, root, sent, order)),
                           p.counter, p.body, p.aad).0
  {
    hide SpecDecrypt, Wired;
    assert (order + [n])[..|order|] == order;
    var packets := Delivered(kdf, aead, root, sent, order);
    assert (packets + [Wired(kdf, aead, root, sent, n)])[..|packets|] == packets;
  }

  lemma KnownSplit(sent: seq<Sent>, front: seq<u64>, n: u64)
    requires Known(sent, front + [n])
    ensures Known(sent, front) && n < |sent|
  {
    forall k | 0 <= k < |front| ensures front[k] < |sent| {
      assert (front + [n])[k] == front[k];
    }
    assert (front + [n])[|front|] == n;
  }

  lemma ConsumeOneMore(kdf: Kdf, aead: Aead, root: Key, sent: seq<Sent>, front: seq<u64>, n: u64)
    requires OpensWhatItSeals(aead) && Sendable(sent) && Known(sent, front) && n < |sent|
    requires n <= Frontier(front) + MAX_SKIP && Known(sent, front + [n])
    requires var a := SpecRun(kdf, aead, root, Delivered(kdf, aead, root, sent, front));
             a.expected == Frontier(front) && forall c: u64 :: c in a.used <==> c in front
    ensures var a := SpecRun(kdf, aead, root, Delivered(kdf, aead, root, sent, front + [n]));
            a.expected == Frontier(front + [n]) && forall c: u64 :: c in a.used <==> c in front + [n]
  {
    hide SpecDecrypt, Frontier, Wired, SpecRun, Delivered, OpensWhatItSeals, Sendable, Tight;
    FrontierStep(front, n);
    var packets := Delivered(kdf, aead, root, sent, front);
    RunRefines(kdf, aead, root, packets);
    DeliverOne(kdf, aead, root, sent, SpecRun(kdf, aead, root, packets), n);
    SpecRunDelivered(kdf, aead, root, sent, front, n);
  }

  lemma NothingDelivered(kdf: Kdf, aead: Aead, root: Key, sent: seq<Sent>)
    ensures SpecRun(kdf, aead, root, Delivered(kdf, aead, root, sent, [])) == Consumed(Frontier([]), {})
  {
  }

  lemma {:induction false} DeliveryConsumes(kdf: Kdf, aead: Aead, root: Key, sent: seq<Sent>, order: seq<u64>)
    requires OpensWhatItSeals(aead) && Sendable(sent) && NeverJumpsTooFar(order) && Known(sent, order)
    ensures var a := SpecRun(kdf, aead, root, Delivered(kdf, aead, root, sent, order));
            a.expected == Frontier(order) && forall c: u64 :: c in a.used <==> c in order
  {
    if order == [] {
      NothingDelivered(kdf, aead, root, sent);
      hide *;
    } else {
      hide *;
      var front, n := order[..|order| - 1], order[|order| - 1];
      assert order == front + [n];
      NeverJumpsBefore(front, n);
      KnownSplit(sent, front, n);
      DeliveryConsumes(kdf, aead, root, sent, front);
      ConsumeOneMore(kdf, aead, root, sent, front, n);
    }
  }

  /** Each message decrypts to the sent text on its first delivery and is a replay afterwards, in every
      delivery order that never jumps more than 256 past the largest number seen. */
  lemma EachMessageOnce(kdf: Kdf, aead: Aead, root: Key, sent: seq<Sent>, earlier: seq<u64>, n: u64)
    requires OpensWhatItSeals(aead) && Sendable(sent) && NeverJumpsTooFar(earlier)
    requires Known(sent, earlier) && n < |sent| && n <= Frontier(earlier) + MAX_SKIP
    ensures Answer(kdf, aead, root, Delivered(kdf, aead, root, sent, earlier), Wired(kdf, aead, root, sent, n))
            == if n in earlier then Err(Replay) else Ok(sent[n].text)
  {
    DeliveryConsumes(kdf, aead, root, sent, earlier);
    SealedPacketOpens(kdf, aead, root, n, sent[n].nonce, sent[n].text, sent[n].aad);
    DecryptsExactlyWhen(kdf, aead, root, Delivered(kdf, aead, root, sent, earlier), Wired(kdf, aead, root, sent, n));
  }

  /** The final receiver depends on which messages arrived, not on the order of arrival. */
  lemma OrderDoesNotMatter(kdf: Kdf, aead: Aead, root: Key, sent: seq<Sent>, one: seq<u64>, other: seq<u64>)
    requires OpensWhatItSeals(aead) && Sendable(sent) && NeverJumpsTooFar(one) && NeverJumpsTooFar(other)
    requires Known(sent, one) && Known(sent, other) && (forall m :: m in one <==> m in other)
    ensures Run(kdf, aead, root, Delivered(kdf, aead, root, sent, one))
            == Run(kdf, aead, root, Delivered(kdf, aead, root, sent, other))
  {
    DeliveryConsumes(kdf, aead, root, sent, one);
    DeliveryConsumes(kdf, aead, root, sent, other);
    SameCountersSameState(kdf, aead, root, Delivered(kdf, aead, root, sent, one),
                          Delivered(kdf, aead, root, sent, other));
  }
}
