/** Which receivers a run of packets can reach, and which snapshots restore to one of them. */
module Reachable {
  import opened Prelude
  import opened Crypto
  import opened Ratchet
  import opened Receive
  import opened ReceiveRuns
  import opened Sums
  import BigEndian
  import Snapshot

  /** The chain and every skipped key come from `root`, and the newest counter passed over is used up. */
  ghost predicate Authentic(kdf: Kdf, root: Key, s: Receiver) {
    && s.chain.key == ChainAt(kdf, root, s.chain.counter)
    && (forall c :: c in s.skipped ==> c < s.chain.counter && s.skipped[c] == MessageKeyAt(kdf, root, c))
    && (s.chain.counter > 0 ==> s.chain.counter - 1 !in s.skipped)
  }

  /** 257 skipped counters in a row. */
  ghost predicate WideGap(skipped: map<u64, Key>, from: u64) {
    forall c: u64 :: from <= c <= from + MAX_SKIP ==> c in skipped
  }

  ghost predicate CanBeReached(kdf: Kdf, aead: Aead, root: Key, s: Receiver) {
    exists packets :: ReceiveRuns.Run(kdf, aead, root, packets) == s
  }

  // ----- Runs leave no wide gap -----

  ghost predicate UsedNear(used: set<u64>, from: u64) {
    exists c :: c in used && from <= c <= from + MAX_SKIP
  }

  ghost predicate NoWideGap(a: Consumed) {
    forall from: u64 :: from + MAX_SKIP < a.expected ==> UsedNear(a.used, from)
  }

  lemma StepLeavesNoGap(kdf: Kdf, aead: Aead, root: Key, a: Consumed, p: Packet)
    requires Tight(a) && NoWideGap(a)
    ensures NoWideGap(SpecDecrypt(kdf, aead, root, a, p.counter, p.body, p.aad).0)
  {
    hide MessageKeyAt, DecryptOnce;
    var a' := SpecDecrypt(kdf, aead, root, a, p.counter, p.body, p.aad).0;
    forall from: u64 | from + MAX_SKIP < a'.expected ensures UsedNear(a'.used, from) {
      if from + MAX_SKIP < a.expected {
        assert UsedNear(a.used, from);
      } else if from + MAX_SKIP == p.counter {
        assert p.counter in a'.used;
      } else {
        assert a.expected - 1 in a'.used;
      }
    }
  }

  lemma {:induction false} RunLeavesNoGap(kdf: Kdf, aead: Aead, root: Key, packets: seq<Packet>)
    ensures NoWideGap(SpecRun(kdf, aead, root, packets))
  {
    if packets == [] {
    } else {
      var front := packets[..|packets| - 1];
      RunLeavesNoGap(kdf, aead, root, front);
      RunRefines(kdf, aead, root, front);
      hide NoWideGap, Tight, SpecDecrypt;
      StepLeavesNoGap(kdf, aead, root, SpecRun(kdf, aead, root, front), packets[|packets| - 1]);
    }
  }

  lemma RunIsAuthentic(kdf: Kdf, aead: Aead, root: Key, packets: seq<Packet>, from: u64)
    ensures var s := ReceiveRuns.Run(kdf, aead, root, packets);
            Authentic(kdf, root, s) && !WideGap(s.skipped, from)
  {
    RunRefines(kdf, aead, root, packets);
    SkippedPlusUsed(kdf, aead, root, packets);
    RunLeavesNoGap(kdf, aead, root, packets);
    hide ReceiveRuns.Run, SpecRun, MessageKeyAt, ChainAt;
    var a, s := SpecRun(kdf, aead, root, packets), ReceiveRuns.Run(kdf, aead, root, packets);
    if from + MAX_SKIP < a.expected {
      assert UsedNear(a.used, from);
      var c :| c in a.used && from <= c <= from + MAX_SKIP;
      assert c !in s.skipped;
    } else {
      var c: u64 := if from <= a.expected then a.expected else from;
      assert c !in s.skipped;
    }
  }

  // ----- Without a wide gap, delivering the used counters in ascending order gets there -----

  /** The used counters below `n`, ascending. */
  function UsedBelow(used: set<u64>, n: u64): seq<u64> {
    if n == 0 then [] else UsedBelow(used, n - 1) + if n - 1 in used then [n - 1] else []
  }

  lemma {:induction false} UsedBelowMembers(used: set<u64>, n: u64)
    ensures forall c: u64 :: c in UsedBelow(used, n) <==> c in used && c < n
  {
    if n > 0 {
      UsedBelowMembers(used, n - 1);
    }
  }

  lemma NeverJumpsAfter(order: seq<u64>, n: u64)
    requires NeverJumpsTooFar(order) && n <= Frontier(order) + MAX_SKIP
    ensures NeverJumpsTooFar(order + [n])
  {
    var all := order + [n];
    forall k | 0 <= k < |all| ensures all[k] <= Frontier(all[..k]) + MAX_SKIP {
      assert all[..k] == order[..k];
      assert order[..|order|] == order;
    }
  }

  lemma EmptyNeverJumps(used: set<u64>)
    ensures NeverJumpsTooFar(UsedBelow(used, 0))
  {
  }

  lemma NeverJumpsAtNext(a: Consumed, n: u64)
    requires NoWideGap(a) && n < a.expected && NeverJumpsTooFar(UsedBelow(a.used, n))
    ensures NeverJumpsTooFar(UsedBelow(a.used, n + 1))
  {
    var order := UsedBelow(a.used, n);
    assert UsedBelow(a.used, n + 1) == order + if n in a.used then [n] else [];
    UsedBelowMembers(a.used, n);
    hide *;
    if n in a.used {
      NextIsNear(a, order, n);
      NeverJumpsAfter(order, n);
    } else {
      assert order + [] == order;
    }
  }

  lemma {:induction false} UsedBelowNeverJumps(a: Consumed, n: u64)
    requires NoWideGap(a) && n <= a.expected
    ensures NeverJumpsTooFar(UsedBelow(a.used, n))
  {
    hide *;
    if n == 0 {
      EmptyNeverJumps(a.used);
    } else {
      UsedBelowNeverJumps(a, n - 1);
      NeverJumpsAtNext(a, n - 1);
    }
  }

  lemma NextIsNear(a: Consumed, order: seq<u64>, n: u64)
    requires NoWideGap(a) && n < a.expected && forall c: u64 :: c in order <==> c in a.used && c < n
    ensures n <= Frontier(order) + MAX_SKIP
  {
    hide Frontier;
    var f := Frontier(order);
    forall c | c in a.used && f <= c ensures n <= c {
      assert c in order ==> c < f;
    }
    assert f + MAX_SKIP < a.expected ==> UsedNear(a.used, f);
  }

  /** Delivering the used counters of `a` in ascending order uses up exactly those. */
  lemma ReachConsumed(kdf: Kdf, aead: Aead, root: Key, a: Consumed) returns (packets: seq<Packet>)
    requires OpensWhatItSeals(aead) && Tight(a) && NoWideGap(a)
    ensures SpecRun(kdf, aead, root, packets) == a
  {
    hide SpecRun, Delivered, UsedBelow, NeverJumpsTooFar, OpensWhatItSeals, NoWideGap, Frontier;
    var nonce: Bytes := [0, 0, 0, 0, 0, 0, 0, 0, 0, 0, 0, 0];
    var sent: seq<Sent> := seq(a.expected, _ => Sent(nonce, [], []));
    var order := UsedBelow(a.used, a.expected);
    UsedBelowMembers(a.used, a.expected);
    UsedBelowNeverJumps(a, a.expected);
    forall k | 0 <= k < |order| ensures order[k] < |sent| {
      assert order[k] in order;
    }
    forall n | 0 <= n < |sent| ensures |sent[n].nonce| == NONCE_LEN {
      assert sent[n] == Sent(nonce, [], []);
    }
    packets := Delivered(kdf, aead, root, sent, order);
    DeliveryConsumes(kdf, aead, root, sent, order);
    SameConsumed(a, SpecRun(kdf, aead, root, packets), order);
  }

  lemma SameConsumed(a: Consumed, b: Consumed, order: seq<u64>)
    requires Tight(a) && b.expected == Frontier(order)
    requires forall c: u64 :: c in order <==> c in a.used
    requires forall c: u64 :: c in b.used <==> c in order
    ensures a == b
  {
    hide Frontier;
    assert a.used == b.used;
    assert a.expected > 0 ==> a.expected - 1 in order;
  }

  function UsedOf(s: Receiver): set<u64> {
    set c: u64 | 0 <= c < s.chain.counter && c !in s.skipped
  }

  lemma AuthenticStandsFor(kdf: Kdf, root: Key, s: Receiver)
    requires Authentic(kdf, root, s)
    ensures var a := Consumed(s.chain.counter, UsedOf(s));
            Tight(a) && StateOf(kdf, root, a) == s
  {
    hide MessageKeyAt, ChainAt;
    var a := Consumed(s.chain.counter, UsedOf(s));
    assert StateOf(kdf, root, a).skipped == s.skipped;
  }

  lemma NoGapStandsFor(s: Receiver)
    requires forall from: u64 :: !WideGap(s.skipped, from)
    ensures NoWideGap(Consumed(s.chain.counter, UsedOf(s)))
  {
    forall from: u64 | from + MAX_SKIP < s.chain.counter ensures UsedNear(UsedOf(s), from) {
      assert !WideGap(s.skipped, from);
      var c: u64 :| from <= c <= from + MAX_SKIP && c !in s.skipped;
      assert c in UsedOf(s);
    }
  }

  /** A receiver can be reached from `root` exactly when its keys come from `root`, the newest counter passed over
      is used up, and no 257 counters in a row are skipped. */
  lemma ReachableExactlyWhen(kdf: Kdf, aead: Aead, root: Key, s: Receiver)
    requires OpensWhatItSeals(aead)
    ensures CanBeReached(kdf, aead, root, s) <==>
            Authentic(kdf, root, s) && forall from: u64 :: !WideGap(s.skipped, from)
  {
    hide ReceiveRuns.Run, Authentic, WideGap, NoWideGap, Tight, StateOf, UsedOf;
    if CanBeReached(kdf, aead, root, s) {
      var packets :| ReceiveRuns.Run(kdf, aead, root, packets) == s;
      RunIsAuthentic(kdf, aead, root, packets, 0);
      forall from: u64 ensures !WideGap(s.skipped, from) {
        RunIsAuthentic(kdf, aead, root, packets, from);
      }
    }
    if Authentic(kdf, root, s) && forall from: u64 :: !WideGap(s.skipped, from) {
      AuthenticStandsFor(kdf, root, s);
      NoGapStandsFor(s);
      var packets := ReachConsumed(kdf, aead, root, Consumed(s.chain.counter, UsedOf(s)));
      RunRefines(kdf, aead, root, packets);
    }
  }

  // ----- What a snapshot restores to -----

  lemma {:induction false} ParsedSize(b: Bytes, seen: map<u64, Key>)
    requires |b| % Snapshot.SNAPSHOT_ENTRY_LEN == 0
    ensures var m := Snapshot.ParseEntries(b, seen);
            m.Ok? ==> |m.value| * Snapshot.SNAPSHOT_ENTRY_LEN == |seen| * Snapshot.SNAPSHOT_ENTRY_LEN + |b|
    decreases |b|
  {
    hide BigEndian.ReadU64, BigEndian.ReadKey;
    if b != [] {
      var counter := BigEndian.ReadU64(b[..8]);
      if counter !in seen {
        var seen' := seen[counter := BigEndian.ReadKey(b[8..40])];
        assert seen'.Keys == seen.Keys + {counter};
        ParsedSize(b[40..], seen');
      }
    }
  }

  lemma RestoredSize(b: Bytes, s: Receiver)
    requires Snapshot.Restored(b) == Ok(s)
    ensures |s.skipped| <= MAX_SKIP
  {
    ParsedSize(b[48..], map[]);
  }

  function Interval(from: u64, n: nat): (s: set<u64>)
    requires from + n <= U64_MAX
    ensures |s| == n && forall c: u64 :: c in s <==> from <= c < from + n
  {
    if n == 0 then {} else Interval(from, n - 1) + {from + n - 1}
  }

  lemma FewSkippedNoGap(kdf: Kdf, root: Key, s: Receiver, from: u64)
    requires Authentic(kdf, root, s) && |s.skipped| <= MAX_SKIP
    ensures !WideGap(s.skipped, from)
  {
    hide MessageKeyAt, ChainAt;
    assert |s.skipped.Keys| == |s.skipped| && U64_MAX !in s.skipped;
    if from + MAX_SKIP < U64_MAX {
      var row := Interval(from, MAX_SKIP + 1);
      if row <= s.skipped.Keys {
        SubsetCount(row, s.skipped.Keys);
      } else {
        var c :| c in row && c !in s.skipped.Keys;
      }
    }
  }

  /** Restoring accepts every well-formed snapshot. The receiver it gives can be reached from `root` exactly when
      its chain and keys come from `root`, below the chain, with the newest counter used up. */
  lemma RestoredIsReachableExactlyWhen(kdf: Kdf, aead: Aead, root: Key, b: Bytes, s: Receiver)
    requires OpensWhatItSeals(aead) && Snapshot.Restored(b) == Ok(s)
    ensures CanBeReached(kdf, aead, root, s) <==> Authentic(kdf, root, s)
  {
    hide *;
    RestoredSize(b, s);
    ReachableExactlyWhen(kdf, aead, root, s);
    if Authentic(kdf, root, s) {
      forall from: u64 ensures !WideGap(s.skipped, from) {
        FewSkippedNoGap(kdf, root, s, from);
      }
    }
  }

  /** A run can lead to a receiver that a restart loses: the one that has used every counter it can. */
  lemma ExhaustedReceiverIsLost(kdf: Kdf, aead: Aead, root: Key)
    requires OpensWhatItSeals(aead)
    ensures exists packets ::
              var s := ReceiveRuns.Run(kdf, aead, root, packets);
              s.chain.counter == U64_MAX && s.skipped == map[] && Snapshot.AfterRestart(s) == None
  {
    hide ReceiveRuns.Run, Snapshot.Saved, Snapshot.Restored;
    var s := Receiver(Chain(ChainAt(kdf, root, U64_MAX), U64_MAX), map[]);
    forall from: u64 ensures !WideGap(s.skipped, from) {
      assert from !in s.skipped;
    }
    ReachableExactlyWhen(kdf, aead, root, s);
    assert CanBeReached(kdf, aead, root, s);
    Snapshot.RestoreInvertsSave(s);
  }
}
