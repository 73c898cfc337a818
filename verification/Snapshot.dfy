/** Saving and restoring a receive ratchet (core/ratchet/src/receive.rs). */
module Snapshot {
  import opened Prelude
  import opened BigEndian
  import opened Crypto
  import opened Ratchet
  import opened Receive

  const SNAPSHOT_VERSION: u16 := 1
  const SNAPSHOT_MAGIC: Bytes := [0x4D, 0x52, 0x53, 0x31]  // "MRS1"
  const SNAPSHOT_HEADER_LEN: nat := 16
  const SNAPSHOT_ENTRY_LEN: nat := 40
  const MAX_SNAPSHOT_SKIPPED: nat := 256

  datatype SnapshotError = Truncated | InvalidMagic | InvalidVersion | InvalidLength | TooManySkipped | DuplicateCounter

  lemma {:induction false} FindLeast(keys: set<u64>) returns (c: u64)
    requires keys != {}
    ensures c in keys && forall k :: k in keys ==> c <= k
  {
    var x :| x in keys;
    if keys == {x} {
      c := x;
    } else {
      var rest := keys - {x};
      var other := FindLeast(rest);
      c := if other < x then other else x;
      assert forall k :: k in keys ==> k == x || k in rest;
    }
  }

  ghost function Least(keys: set<u64>): (c: u64)
    requires keys != {}
    ensures c in keys && forall k :: k in keys ==> c <= k
  {
    assert exists c :: c in keys && forall k :: k in keys ==> c <= k by { var c := FindLeast(keys); }
    var c :| c in keys && forall k :: k in keys ==> c <= k; c
  }

  function Entry(counter: u64, key: Key): (b: Bytes)
    ensures |b| == SNAPSHOT_ENTRY_LEN
  {
    ToBE(counter, 8) + ToBE(key, 32)
  }

  /** The skipped keys in ascending order of their counters. */
  ghost function Entries(m: map<u64, Key>): (b: Bytes)
    ensures |b| == |m| * SNAPSHOT_ENTRY_LEN
    decreases |m|
  {
    if m == map[] then []
    else
      var c := Least(m.Keys);
      Entry(c, m[c]) + Entries(m - {c})
  }

  function Header(s: Receiver): Bytes
    requires |s.skipped| <= MAX_SNAPSHOT_SKIPPED
  {
    SNAPSHOT_MAGIC + ToBE(SNAPSHOT_VERSION, 2) + ToBE(s.chain.counter, 8) + ToBE(|s.skipped|, 2)
    + ToBE(s.chain.key, 32)
  }

  ghost function Saved(s: Receiver): Result<Bytes, SnapshotError> {
    if |s.skipped| > MAX_SNAPSHOT_SKIPPED then Err(TooManySkipped) else Ok(Header(s) + Entries(s.skipped))
  }

  function ParseEntries(b: Bytes, seen: map<u64, Key>): Result<map<u64, Key>, SnapshotError>
    requires |b| % SNAPSHOT_ENTRY_LEN == 0
    decreases |b|
  {
    if b == [] then Ok(seen)
    else
      var counter := ReadU64(b[..8]);
      if counter in seen then Err(DuplicateCounter)
      else ParseEntries(b[40..], seen[counter := ReadKey(b[8..40])])
  }

  function Restored(b: Bytes): Result<Receiver, SnapshotError> {
    if |b| < SNAPSHOT_HEADER_LEN + 32 then Err(Truncated)
    else if b[..4] != SNAPSHOT_MAGIC then Err(InvalidMagic)
    else if ReadU16(b[4..6]) != SNAPSHOT_VERSION then Err(InvalidVersion)
    else
      var counter := ReadU64(b[6..14]);
      var count := ReadU16(b[14..16]);
      if count > MAX_SNAPSHOT_SKIPPED then Err(TooManySkipped)
      else if |b| != SNAPSHOT_HEADER_LEN + 32 + count * SNAPSHOT_ENTRY_LEN then Err(InvalidLength)
      else
        match ParseEntries(b[48..], map[])
        case Err(e) => Err(e)
        case Ok(skipped) =>
          if counter == U64_MAX then Err(InvalidLength)
          else Ok(Receiver(Chain(ReadKey(b[16..48]), counter), skipped))
  }

  method TakeSnapshot(r: ReceiveRatchet) returns (out: Result<Bytes, SnapshotError>)
    ensures out == Saved(r.Value())
  {
    if |r.skipped| > MAX_SNAPSHOT_SKIPPED { return Err(TooManySkipped); }
    var bytes := SNAPSHOT_MAGIC;
    bytes := bytes + ToBE(SNAPSHOT_VERSION, 2);
    bytes := bytes + ToBE(r.state.nextCounter, 8);
    bytes := bytes + ToBE(|r.skipped|, 2);
    bytes := bytes + ToBE(r.state.chainKey, 32);
    var rest := r.skipped;
    while rest != map[]
      invariant bytes + Entries(rest) == Header(r.Value()) + Entries(r.skipped)
      decreases |rest|
    {
      ghost var least := FindLeast(rest.Keys);
      var counter :| counter in rest.Keys && forall k :: k in rest.Keys ==> counter <= k;
      assert counter == Least(rest.Keys);
      assert bytes + (Entry(counter, rest[counter]) + Entries(rest - {counter}))
          == bytes + Entry(counter, rest[counter]) + Entries(rest - {counter});
      bytes := bytes + Entry(counter, rest[counter]);
      rest := rest - {counter};
    }
    assert bytes + Entries(map[]) == bytes;
    out := Ok(bytes);
  }

  lemma Slices<T>(s: seq<T>, at: nat, len: nat, i: nat, j: nat)
    requires at + len <= |s| && i <= j <= len
    ensures s[at..][i..j] == s[at..at + len][i..j]
  {
    var left, right := s[at..][i..j], s[at..at + len][i..j];
    forall k | 0 <= k < j - i ensures left[k] == right[k] {
      assert left[k] == s[at + i + k];
    }
  }

  lemma ParseStep(b: Bytes, offset: nat, seen: map<u64, Key>)
    requires offset + SNAPSHOT_ENTRY_LEN <= |b| && (|b| - offset) % SNAPSHOT_ENTRY_LEN == 0
    ensures var entry, end := b[offset..offset + SNAPSHOT_ENTRY_LEN], offset + SNAPSHOT_ENTRY_LEN;
            ParseEntries(b[offset..], seen) ==
              if ReadU64(entry[..8]) in seen then Err(DuplicateCounter)
              else ParseEntries(b[end..], seen[ReadU64(entry[..8]) := ReadKey(entry[8..40])])
  {
    hide ReadU64, ReadKey;
    var entry, end := b[offset..offset + SNAPSHOT_ENTRY_LEN], offset + SNAPSHOT_ENTRY_LEN;
    Slices(b, offset, SNAPSHOT_ENTRY_LEN, 0, 8);
    Slices(b, offset, SNAPSHOT_ENTRY_LEN, 8, 40);
    assert b[offset..][40..] == b[end..];
  }

  method ReadEntries(b: Bytes, count: nat) returns (out: Result<map<u64, Key>, SnapshotError>)
    requires |b| == 48 + count * SNAPSHOT_ENTRY_LEN
    ensures out == ParseEntries(b[48..], map[])
  {
    hide ReadU64, ReadKey, ParseEntries;
    var skipped: map<u64, Key> := map[];
    var offset := 48;
    for i := 0 to count
      invariant offset == 48 + i * SNAPSHOT_ENTRY_LEN
      invariant ParseEntries(b[48..], map[]) == ParseEntries(b[offset..], skipped)
    {
      var end := offset + SNAPSHOT_ENTRY_LEN;
      ParseStep(b, offset, skipped);
      var entry := b[offset..end];
      var entryCounter := ReadU64(entry[..8]);
      if entryCounter in skipped { return Err(DuplicateCounter); }
      skipped := skipped[entryCounter := ReadKey(entry[8..40])];
      offset := end;
    }
    ParseNothing(skipped);
    assert b[offset..] == [];
    out := Ok(skipped);
  }

  method RestoreSnapshot(kdf: Kdf, b: Bytes) returns (out: Result<ReceiveRatchet, SnapshotError>)
    ensures match Restored(b)
            case Err(e) => out == Err(e)
            case Ok(s) => out.Ok? && fresh(out.value) && fresh(out.value.state)
                          && out.value.state.kdf == kdf && out.value.Value() == s
  {
    if |b| < SNAPSHOT_HEADER_LEN + 32 { return Err(Truncated); }
    if b[..4] != SNAPSHOT_MAGIC { return Err(InvalidMagic); }
    if ReadU16(b[4..6]) != SNAPSHOT_VERSION { return Err(InvalidVersion); }
    var counter := ReadU64(b[6..14]);
    var count := ReadU16(b[14..16]);
    if count > MAX_SNAPSHOT_SKIPPED { return Err(TooManySkipped); }
    if |b| != SNAPSHOT_HEADER_LEN + 32 + count * SNAPSHOT_ENTRY_LEN { return Err(InvalidLength); }
    var skipped := ReadEntries(b, count);
    if skipped.Err? { return Err(skipped.error); }
    if counter == U64_MAX { return Err(InvalidLength); }
    var r := new ReceiveRatchet.FromParts(kdf, ReadKey(b[16..48]), counter, skipped.value);
    out := Ok(r);
  }

  lemma EntryFirst(c: u64, key: Key, rest: Bytes)
    ensures var b := Entry(c, key) + rest;
            ReadU64(b[..8]) == c && ReadKey(b[8..40]) == key && b[40..] == rest
  {
    hide ToBE, FromBE, ReadU64, ReadKey;
    RoundTripU64(c);
    RoundTripKey(key);
    var b := Entry(c, key) + rest;
    assert b[..8] == ToBE(c, 8) && b[8..40] == ToBE(key, 32) && b[40..] == rest;
  }

  lemma ParseFirst(c: u64, key: Key, rest: Bytes, seen: map<u64, Key>)
    requires c !in seen && |rest| % SNAPSHOT_ENTRY_LEN == 0
    ensures ParseEntries(Entry(c, key) + rest, seen) == ParseEntries(rest, seen[c := key])
  {
    hide Entry, ReadU64, ReadKey;
    EntryFirst(c, key, rest);
  }

  lemma MergeOne(m: map<u64, Key>, seen: map<u64, Key>, c: u64)
    requires c in m && c !in seen
    ensures seen[c := m[c]] + (m - {c}) == seen + m
  {
  }

  lemma {:induction false} ParseInvertsEntries(m: map<u64, Key>, seen: map<u64, Key>)
    requires m.Keys !! seen.Keys
    ensures ParseEntries(Entries(m), seen) == Ok(seen + m)
    decreases |m|
  {
    hide Entry, ParseEntries;
    if m == map[] {
      ParseNothing(seen);
      assert seen + m == seen;
    } else {
      var c := Least(m.Keys);
      ParseFirst(c, m[c], Entries(m - {c}), seen);
      ParseInvertsEntries(m - {c}, seen[c := m[c]]);
      MergeOne(m, seen, c);
    }
  }

  lemma ParseNothing(seen: map<u64, Key>)
    ensures ParseEntries([], seen) == Ok(seen)
  {
  }

  lemma HeaderFields(s: Receiver, rest: Bytes)
    requires |s.skipped| <= MAX_SNAPSHOT_SKIPPED
    ensures var b := Header(s) + rest;
            && |b| == 48 + |rest| && b[..4] == SNAPSHOT_MAGIC && b[4..6] == ToBE(SNAPSHOT_VERSION, 2)
            && b[6..14] == ToBE(s.chain.counter, 8) && b[14..16] == ToBE(|s.skipped|, 2)
            && b[16..48] == ToBE(s.chain.key, 32) && b[48..] == rest
  {
  }

  /** A snapshot restores to the receiver it was taken from, unless the chain is exhausted. */
  lemma RestoreInvertsSave(s: Receiver)
    ensures Saved(s).Ok? <==> |s.skipped| <= MAX_SNAPSHOT_SKIPPED
    ensures Saved(s).Ok? ==>
      Restored(Saved(s).value) == if s.chain.counter == U64_MAX then Err(InvalidLength) else Ok(s)
  {
    if |s.skipped| <= MAX_SNAPSHOT_SKIPPED {
      hide Header, ParseEntries, Entries, ToBE, FromBE;
      HeaderFields(s, Entries(s.skipped));
      ParseInvertsEntries(s.skipped, map[]);
      assert map[] + s.skipped == s.skipped;
      RoundTripU16(SNAPSHOT_VERSION);
      RoundTripU16(|s.skipped|);
      RoundTripU64(s.chain.counter);
      RoundTripKey(s.chain.key);
    }
  }

  // ----- Which byte strings restore -----

  /** Entry `i` of a snapshot with `n` entries: its counter and its key. */
  function CounterAt(b: Bytes, n: nat, i: nat): u64
    requires |b| == 48 + 40 * n && i < n
  {
    ReadU64(b[48 + 40 * i..56 + 40 * i])
  }

  function KeyAt(b: Bytes, n: nat, i: nat): Key
    requires |b| == 48 + 40 * n && i < n
  {
    ReadKey(b[56 + 40 * i..88 + 40 * i])
  }

  /** From entry `i` on, no counter occurs twice, nor among those in `seen`. */
  ghost predicate NewFrom(b: Bytes, n: nat, i: nat, seen: map<u64, Key>)
    requires |b| == 48 + 40 * n
  {
    && (forall k :: i <= k < n ==> CounterAt(b, n, k) !in seen)
    && (forall k, l :: i <= k < l < n ==> CounterAt(b, n, k) != CounterAt(b, n, l))
  }

  /** `m` is `seen` with the entries from `i` on. */
  ghost predicate HoldsFrom(b: Bytes, n: nat, i: nat, seen: map<u64, Key>, m: map<u64, Key>)
    requires |b| == 48 + 40 * n
  {
    && (forall c :: c in m <==> c in seen || exists k :: i <= k < n && CounterAt(b, n, k) == c)
    && (forall c :: c in seen ==> c in m && m[c] == seen[c])
    && (forall k :: i <= k < n ==> CounterAt(b, n, k) in m && m[CounterAt(b, n, k)] == KeyAt(b, n, k))
  }

  lemma EntryAt(b: Bytes, n: nat, i: nat, seen: map<u64, Key>)
    requires |b| == 48 + 40 * n && i < n
    ensures ParseEntries(b[48 + 40 * i..], seen) ==
              if CounterAt(b, n, i) in seen then Err(DuplicateCounter)
              else ParseEntries(b[48 + 40 * (i + 1)..], seen[CounterAt(b, n, i) := KeyAt(b, n, i)])
  {
    hide ReadU64, ReadKey, ParseEntries;
    ParseStep(b, 48 + 40 * i, seen);
    var entry := b[48 + 40 * i..88 + 40 * i];
    assert entry[..8] == b[48 + 40 * i..56 + 40 * i] && entry[8..40] == b[56 + 40 * i..88 + 40 * i];
  }

  lemma {:induction false} ParsesExactlyWhen(b: Bytes, n: nat, i: nat, seen: map<u64, Key>)
    requires |b| == 48 + 40 * n && i <= n
    ensures var m := ParseEntries(b[48 + 40 * i..], seen);
            && (m.Ok? <==> NewFrom(b, n, i, seen))
            && (m.Ok? ==> HoldsFrom(b, n, i, seen, m.value))
            && (m.Err? ==> m == Err(DuplicateCounter))
    decreases n - i
  {
    hide CounterAt, KeyAt, ParseEntries;
    if i == n {
      assert b[48 + 40 * i..] == [];
      ParseNothing(seen);
    } else {
      EntryAt(b, n, i, seen);
      var c := CounterAt(b, n, i);
      if c !in seen {
        var seen' := seen[c := KeyAt(b, n, i)];
        ParsesExactlyWhen(b, n, i + 1, seen');
        NewStep(b, n, i, seen);
        var m := ParseEntries(b[48 + 40 * (i + 1)..], seen');
        if m.Ok? { HoldsStep(b, n, i, seen, m.value); }
      }
    }
  }

  lemma NewStep(b: Bytes, n: nat, i: nat, seen: map<u64, Key>)
    requires |b| == 48 + 40 * n && i < n && CounterAt(b, n, i) !in seen
    ensures NewFrom(b, n, i, seen) <==> NewFrom(b, n, i + 1, seen[CounterAt(b, n, i) := KeyAt(b, n, i)])
  {
    hide CounterAt, KeyAt;
  }

  lemma HoldsStep(b: Bytes, n: nat, i: nat, seen: map<u64, Key>, m: map<u64, Key>)
    requires |b| == 48 + 40 * n && i < n && CounterAt(b, n, i) !in seen
    requires HoldsFrom(b, n, i + 1, seen[CounterAt(b, n, i) := KeyAt(b, n, i)], m)
    ensures HoldsFrom(b, n, i, seen, m)
  {
    hide CounterAt, KeyAt;
  }

  /** A byte string restores exactly when it has the mark "MRS1", version 1, a chain counter below 2^64-1, at most 256
      entries and nothing else, and no entry counter twice. The receiver then has that chain and those entries. */
  lemma RestoresExactlyWhen(b: Bytes)
    ensures Restored(b).Ok? <==>
            && |b| >= 48 && b[..4] == [0x4D, 0x52, 0x53, 0x31] && b[4..6] == [0, 1]
            && ReadU64(b[6..14]) < U64_MAX
            && ReadU16(b[14..16]) <= 256 && |b| == 48 + 40 * ReadU16(b[14..16])
            && NewFrom(b, ReadU16(b[14..16]), 0, map[])
    ensures Restored(b).Ok? ==>
              var s := Restored(b).value;
              && s.chain == Chain(ReadKey(b[16..48]), ReadU64(b[6..14]))
              && |b| == 48 + 40 * ReadU16(b[14..16]) && HoldsFrom(b, ReadU16(b[14..16]), 0, map[], s.skipped)
  {
    hide ParseEntries, NewFrom, HoldsFrom, ReadU64, ReadKey;
    assert SNAPSHOT_MAGIC == [0x4D, 0x52, 0x53, 0x31];
    if |b| >= 48 {
      OneIsOne(b[4..6]);
      var n: nat := ReadU16(b[14..16]);
      if |b| == 48 + 40 * n {
        ParsesExactlyWhen(b, n, 0, map[]);
      }
    }
  }

  // ----- Restarts anywhere in a run -----

  datatype Event = Deliver(counter: u64, body: Bytes, aad: Bytes) | Restart

  /** A restart writes a snapshot and continues from what it restores. Too many skipped keys: the write
      is refused and the live receiver goes on. An unreadable snapshot: there is no receiver left. */
  ghost function Play(kdf: Kdf, aead: Aead, s: Option<Receiver>, events: seq<Event>)
    : (Option<Receiver>, seq<Result<Bytes, ReceiveError>>)
    decreases |events|
  {
    if events == [] || s.None? then (s, [])
    else
      match events[0]
      case Deliver(counter, body, aad) =>
        var (s', r) := Decrypted(kdf, aead, s.value, counter, body, aad);
        var (end, answers) := Play(kdf, aead, Some(s'), events[1..]);
        (end, [r] + answers)
      case Restart => Play(kdf, aead, AfterRestart(s.value), events[1..])
  }

  ghost function AfterRestart(s: Receiver): Option<Receiver> {
    match Saved(s)
    case Err(_) => Some(s)
    case Ok(b) => match Restored(b) case Err(_) => None case Ok(s') => Some(s')
  }

  /** A restart changes nothing, except that an exhausted chain with a writable snapshot is lost. */
  lemma RestartIsIdentityExactlyWhen(s: Receiver)
    ensures AfterRestart(s) == Some(s) <==> s.chain.counter != U64_MAX || |s.skipped| > MAX_SNAPSHOT_SKIPPED
  {
    RestoreInvertsSave(s);
  }

  function WithoutRestarts(events: seq<Event>): seq<Event> {
    if events == [] then []
    else if events[0].Restart? then WithoutRestarts(events[1..])
    else [events[0]] + WithoutRestarts(events[1..])
  }

  lemma {:induction false} AdvanceStops(kdf: Kdf, s: Receiver, target: u64)
    requires s.chain.counter <= target
    ensures var (s', key) := Advance(kdf, s, target);
            key.Ok? ==> s'.chain.counter == target + 1
    decreases target - s.chain.counter
  {
    var (chain, key) := Stepped(kdf, s.chain);
    if key.Ok? && s.chain.counter < target {
      AdvanceStops(kdf, Receiver(chain, s.skipped[s.chain.counter := key.value]), target);
    }
  }

  lemma NotExhausted(kdf: Kdf, aead: Aead, s: Receiver, counter: u64, body: Bytes, aad: Bytes)
    requires s.chain.counter < U64_MAX && counter != U64_MAX - 1
    ensures Decrypted(kdf, aead, s, counter, body, aad).0.chain.counter < U64_MAX
  {
    hide Advance;
    if s.chain.counter <= counter {
      AdvanceStops(kdf, s, counter);
      var (s', key) := Advance(kdf, s, counter);
      assert s'.chain.counter <= U64_MAX;
    }
  }

  /** No restart of the run meets an exhausted chain whose snapshot can be written. */
  ghost predicate RestartsAreSafe(kdf: Kdf, aead: Aead, s: Receiver, events: seq<Event>)
    decreases |events|
  {
    events == [] ||
    match events[0]
    case Deliver(counter, body, aad) =>
      RestartsAreSafe(kdf, aead, Decrypted(kdf, aead, s, counter, body, aad).0, events[1..])
    case Restart =>
      && (s.chain.counter != U64_MAX || |s.skipped| > MAX_SNAPSHOT_SKIPPED)
      && RestartsAreSafe(kdf, aead, s, events[1..])
  }

  lemma {:induction false} PlayWithoutRestarts(kdf: Kdf, aead: Aead, s: Receiver, events: seq<Event>)
    ensures Play(kdf, aead, Some(s), WithoutRestarts(events)).0.Some?
    decreases |events|
  {
    if events != [] {
      hide Decrypted;
      if events[0].Restart? {
        PlayWithoutRestarts(kdf, aead, s, events[1..]);
      } else {
        var Deliver(counter, body, aad) := events[0];
        PlayWithoutRestarts(kdf, aead, Decrypted(kdf, aead, s, counter, body, aad).0, events[1..]);
        var rest := WithoutRestarts(events[1..]);
        assert ([events[0]] + rest)[1..] == rest;
      }
    }
  }

  lemma RestartStep(kdf: Kdf, aead: Aead, s: Receiver, rest: seq<Event>)
    ensures Play(kdf, aead, Some(s), [Restart] + rest)
            == if s.chain.counter != U64_MAX || |s.skipped| > MAX_SNAPSHOT_SKIPPED then Play(kdf, aead, Some(s), rest)
               else (None, [])
  {
    hide Saved, Restored;
    RestoreInvertsSave(s);
    assert ([Restart] + rest)[1..] == rest;
  }

  /** Restarts put in anywhere change no answer and not the final receiver, exactly when none of them meets an
      exhausted chain with at most 256 skipped keys. */
  lemma {:induction false} RestartsAreInvisibleExactlyWhen(kdf: Kdf, aead: Aead, s: Receiver, events: seq<Event>)
    ensures Play(kdf, aead, Some(s), events) == Play(kdf, aead, Some(s), WithoutRestarts(events))
            <==> RestartsAreSafe(kdf, aead, s, events)
    decreases |events|
  {
    if events == [] {
    } else {
      hide Decrypted, AfterRestart;
      assert events == [events[0]] + events[1..];
      if events[0].Restart? {
        RestartStep(kdf, aead, s, events[1..]);
        PlayWithoutRestarts(kdf, aead, s, events[1..]);
        RestartsAreInvisibleExactlyWhen(kdf, aead, s, events[1..]);
      } else {
        var Deliver(counter, body, aad) := events[0];
        var s' := Decrypted(kdf, aead, s, counter, body, aad).0;
        RestartsAreInvisibleExactlyWhen(kdf, aead, s', events[1..]);
        var rest := WithoutRestarts(events[1..]);
        assert ([events[0]] + rest)[1..] == rest;
        SameAnswers(Decrypted(kdf, aead, s, counter, body, aad).1,
                    Play(kdf, aead, Some(s'), events[1..]), Play(kdf, aead, Some(s'), rest));
      }
    }
  }

  lemma SameAnswers<A, B>(first: B, one: (A, seq<B>), other: (A, seq<B>))
    ensures (one.0, [first] + one.1) == (other.0, [first] + other.1) <==> one == other
  {
    assert ([first] + one.1)[1..] == one.1 && ([first] + other.1)[1..] == other.1;
  }

  /** While message 2^64 - 2 is never delivered, no chain is exhausted, so every restart is safe. */
  lemma {:induction false} RestartsAreInvisible(kdf: Kdf, aead: Aead, s: Receiver, events: seq<Event>)
    requires s.chain.counter < U64_MAX
    requires forall i :: 0 <= i < |events| && events[i].Deliver? ==> events[i].counter != U64_MAX - 1
    ensures Play(kdf, aead, Some(s), events) == Play(kdf, aead, Some(s), WithoutRestarts(events))
  {
    NeverExhausted(kdf, aead, s, events);
    RestartsAreInvisibleExactlyWhen(kdf, aead, s, events);
  }

  lemma {:induction false} NeverExhausted(kdf: Kdf, aead: Aead, s: Receiver, events: seq<Event>)
    requires s.chain.counter < U64_MAX
    requires forall i :: 0 <= i < |events| && events[i].Deliver? ==> events[i].counter != U64_MAX - 1
    ensures RestartsAreSafe(kdf, aead, s, events)
    decreases |events|
  {
    if events != [] {
      hide Decrypted;
      forall i | 0 <= i < |events[1..]| && events[1..][i].Deliver?
        ensures events[1..][i].counter != U64_MAX - 1
      {
        assert events[1..][i] == events[i + 1];
      }
      if events[0].Restart? {
        NeverExhausted(kdf, aead, s, events[1..]);
      } else {
        var Deliver(counter, body, aad) := events[0];
        NotExhausted(kdf, aead, s, counter, body, aad);
        NeverExhausted(kdf, aead, Decrypted(kdf, aead, s, counter, body, aad).0, events[1..]);
      }
    }
  }
}
