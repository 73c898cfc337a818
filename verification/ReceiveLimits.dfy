/** Where the receive ratchet promises less than one might expect. */
module ReceiveLimits {
  import opened Prelude
  import opened Crypto
  import opened Ratchet
  import opened Receive
  import opened ReceiveRuns
  import opened Snapshot

  /** The limit of 256 holds for each jump, not for the number of skipped keys: two jumps leave 512 of them,
      and such a receiver cannot be saved. */
  lemma SkippedKeysCanExceedASnapshot(kdf: Kdf, aead: Aead, root: Key, sent: seq<Sent>)
    requires OpensWhatItSeals(aead) && ReceiveRuns.Sendable(sent) && |sent| >= 514
    ensures var s := ReceiveRuns.Run(kdf, aead, root, Delivered(kdf, aead, root, sent, [256, 513]));
            |s.skipped| == 512 && Saved(s) == Err(TooManySkipped)
  {
    var order: seq<u64> := [256, 513];
    TwoJumps();
    assert Known(sent, order);
    DeliveryConsumes(kdf, aead, root, sent, order);
    var packets := Delivered(kdf, aead, root, sent, order);
    SkippedPlusUsed(kdf, aead, root, packets);
    TooManyToSave(ReceiveRuns.Run(kdf, aead, root, packets));
    hide *;
    var used := SpecRun(kdf, aead, root, packets).used;
    assert used == {256, 513};
  }

  lemma TooManyToSave(s: Receiver)
    ensures |s.skipped| > MAX_SKIP ==> Saved(s) == Err(TooManySkipped)
  {
  }

  lemma TwoJumps()
    ensures Frontier([256, 513]) == 514 && NeverJumpsTooFar([256, 513])
  {
    var order: seq<u64> := [256, 513];
    assert Frontier([]) == 0;
    hide Frontier;
    FrontierStep([], 256);
    FrontierStep([256], 513);
    assert [] + [256] == [256] && [256] + [513] == order;
    forall k | 0 <= k < |order| ensures order[k] <= Frontier(order[..k]) + MAX_SKIP {
      assert order[..k] == if k == 0 then [] else [256];
    }
  }

  /** Restoring does not check that the saved counters lie below the chain: it accepts receivers that no run
      of packets can reach. */
  lemma RestoreAcceptsUnreachableReceivers(kdf: Kdf, aead: Aead, root: Key, key: Key, packets: seq<Packet>)
    ensures var s := Receiver(Chain(key, 0), map[5 := key]);
            Saved(s).Ok? && Restored(Saved(s).value) == Ok(s) && ReceiveRuns.Run(kdf, aead, root, packets) != s
  {
    var s := Receiver(Chain(key, 0), map[5 := key]);
    RestoreInvertsSave(s);
    SkippedPlusUsed(kdf, aead, root, packets);
    assert 5 in s.skipped;
  }
}
