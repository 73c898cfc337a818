/** A receive ratchet kept in a journal: deliveries, saves stopped anywhere, and restarts
    (core/storage/src/lib.rs, core/ratchet/src/receive.rs). */
module DeviceRuns {
  import opened Prelude
  import opened Crypto
  import opened Ratchet
  import opened Receive
  import opened ReceiveRuns
  import opened JournalNames
  import opened Journal
  import opened JournalRuns
  import Snapshot

  // ----- What a directory answers is determined -----

  function GenerationsOf(prefix: string, dir: Dir): set<u64> {
    set name | name in dir && ParseGeneration(prefix, name).Some? :: ParseGeneration(prefix, name).value
  }

  lemma NextExists(prefix: string, dir: Dir) returns (next: Option<u64>)
    ensures IsNext(prefix, dir, next)
  {
    hide ParseGeneration;
    var gs := GenerationsOf(prefix, dir);
    assert forall g: u64 :: HasGeneration(prefix, dir, g) <==> g in gs;
    hide HasGeneration;
    if gs == {} {
      next := Some(0);
    } else {
      var largest := FindLargest(gs);
      next := if largest == U64_MAX then None else Some(largest + 1);
    }
  }

  ghost function NextOf(prefix: string, dir: Dir): (next: Option<u64>)
    ensures IsNext(prefix, dir, next)
  {
    assert exists n :: IsNext(prefix, dir, n) by { var n := NextExists(prefix, dir); }
    var n :| IsNext(prefix, dir, n); n
  }

  lemma LoadExists(j: Journal, dir: Dir) returns (r: Result<(u64, Bytes), StorageError>)
    ensures LoadsTo(j, dir, r)
  {
    hide ReadAs, FinalName;
    var gs := set g | g in GenerationsOf(j.prefix, dir) && Intact(j, dir, g);
    forall g: u64 | Intact(j, dir, g) ensures g in gs {
      PresentHasGeneration(j.prefix, dir, g);
    }
    if gs == {} {
      r := Err(NoValidRecord);
    } else {
      var g := FindLargest(gs);
      r := Ok((g, ReadAs(j, dir[FinalName(j.prefix, g)], g).value));
    }
  }

  ghost function Loaded(j: Journal, dir: Dir): (r: Result<(u64, Bytes), StorageError>)
    ensures LoadsTo(j, dir, r)
  {
    assert exists r :: LoadsTo(j, dir, r) by { var r := LoadExists(j, dir); }
    var r :| LoadsTo(j, dir, r); r
  }

  // ----- Runs of a device -----

  datatype Setup = Setup(kdf: Kdf, aead: Aead, root: Key, journal: Journal, dir: Dir)

  /** `live` is the receiver in memory: none after a save that stopped the process, or a failed restart. */
  datatype Device = Device(dir: Dir, live: Option<Receiver>)

  datatype Event = Deliver(packet: Packet) | Save(nonce: Bytes, stop: Stop) | Restart

  ghost function Saving(u: Setup, d: Device, nonce: Bytes, text: Bytes, stop: Stop): (Dir, SaveResult) {
    AfterSave(u.journal, d.dir, NextOf(u.journal.prefix, d.dir), nonce, text, stop)
  }

  function Received(u: Setup, s: Receiver, p: Packet): (Receiver, Result<Bytes, ReceiveError>) {
    Decrypted(u.kdf, u.aead, s, p.counter, p.body, p.aad)
  }

  /** Without a record the receiver starts from the root. */
  ghost function Recovered(u: Setup, dir: Dir): Option<Receiver> {
    match Loaded(u.journal, dir)
    case Err(_) => Some(Fresh(u.kdf, u.root))
    case Ok((_, text)) => match Snapshot.Restored(text) case Ok(s) => Some(s) case Err(_) => None
  }

  ghost function Step(u: Setup, d: Device, e: Event): Device {
    match e
    case Deliver(p) => if d.live.None? then d else d.(live := Some(Received(u, d.live.value, p).0))
    case Restart => d.(live := Recovered(u, d.dir))
    case Save(nonce, stop) =>
      if d.live.None? || Snapshot.Saved(d.live.value).Err? then d
      else
        var (dir, r) := Saving(u, d, nonce, Snapshot.Saved(d.live.value).value, stop);
        Device(dir, if r == Stopped then None else d.live)
  }

  ghost function Run(u: Setup, events: seq<Event>): Device {
    if events == [] then Device(u.dir, Some(Fresh(u.kdf, u.root)))
    else Step(u, Run(u, events[..|events| - 1]), events[|events| - 1])
  }

  /** The event is a save that reaches the rename. */
  ghost predicate Commits(u: Setup, d: Device, e: Event) {
    && e.Save? && d.live.Some? && Snapshot.Saved(d.live.value).Ok?
    && Committed(e.stop, Saving(u, d, e.nonce, Snapshot.Saved(d.live.value).value, e.stop).1)
  }

  /** The receiver in memory at the last committed save. */
  ghost function LastCommitted(u: Setup, events: seq<Event>): Option<Receiver> {
    if events == [] then None
    else
      var front := events[..|events| - 1];
      if Commits(u, Run(u, front), events[|events| - 1]) then Run(u, front).live else LastCommitted(u, front)
  }

  /** Lawful primitives, a directory without a record, and nonces of the right length. */
  ghost predicate Proper(u: Setup, events: seq<Event>) {
    && Lawful(u.journal) && LoadsTo(u.journal, u.dir, Err(NoValidRecord))
    && forall i :: 0 <= i < |events| && events[i].Save? ==> |events[i].nonce| == NONCE_LEN
  }

  // ----- A restart gives the last committed receiver -----

  ghost predicate Holds(j: Journal, dir: Dir, committed: Option<Receiver>) {
    match committed
    case None => LoadsTo(j, dir, Err(NoValidRecord))
    case Some(s) =>
      Snapshot.Saved(s).Ok? && exists g: u64 :: LoadsTo(j, dir, Ok((g, Snapshot.Saved(s).value)))
  }

  lemma SaveHolds(u: Setup, d: Device, nonce: Bytes, stop: Stop, committed: Option<Receiver>)
    requires Lawful(u.journal) && |nonce| == NONCE_LEN && Holds(u.journal, d.dir, committed)
    ensures Holds(u.journal, Step(u, d, Save(nonce, stop)).dir,
                  if Commits(u, d, Save(nonce, stop)) then d.live else committed)
  {
    hide LoadsTo, Lawful, Snapshot.Saved, AfterSave, IsNext;
    if d.live.Some? && Snapshot.Saved(d.live.value).Ok? {
      var next, text := NextOf(u.journal.prefix, d.dir), Snapshot.Saved(d.live.value).value;
      var before := Loaded(u.journal, d.dir);
      SaveIsCrashSafe(u.journal, d.dir, next, nonce, text, stop, before);
      match committed
      case None => LoadIsUnique(u.journal, d.dir, before, Err(NoValidRecord));
      case Some(s) =>
        var g: u64 :| LoadsTo(u.journal, d.dir, Ok((g, Snapshot.Saved(s).value)));
        LoadIsUnique(u.journal, d.dir, before, Ok((g, Snapshot.Saved(s).value)));
    }
  }

  lemma ProperFront(u: Setup, front: seq<Event>, e: Event)
    requires Proper(u, front + [e])
    ensures Proper(u, front) && (e.Save? ==> |e.nonce| == NONCE_LEN)
  {
    hide Lawful, LoadsTo;
    var all := front + [e];
    assert all[|front|] == e;
    forall i | 0 <= i < |front| && front[i].Save? ensures |front[i].nonce| == NONCE_LEN {
      assert all[i] == front[i];
    }
  }

  lemma {:induction false} JournalHoldsLastCommitted(u: Setup, events: seq<Event>)
    requires Proper(u, events)
    ensures Holds(u.journal, Run(u, events).dir, LastCommitted(u, events))
  {
    if events == [] {
      hide Lawful, LoadsTo;
    } else {
      var front, e := events[..|events| - 1], events[|events| - 1];
      assert events == front + [e];
      ProperFront(u, front, e);
      JournalHoldsLastCommitted(u, front);
      assert Lawful(u.journal);
      hide Proper, Holds, Lawful, Snapshot.Saved, Saving;
      if e.Save? {
        SaveHolds(u, Run(u, front), e.nonce, e.stop, LastCommitted(u, front));
      }
    }
  }

  /** Wherever saves stopped: a restart gives the receiver of the last committed save, or the fresh one when there is
      none. Only a receiver that was saved with an exhausted chain cannot come back. */
  lemma RestartGivesLastCommitted(u: Setup, events: seq<Event>)
    requires Proper(u, events)
    ensures Step(u, Run(u, events), Restart).live ==
            match LastCommitted(u, events)
            case None => Some(Fresh(u.kdf, u.root))
            case Some(s) => if s.chain.counter == U64_MAX then None else Some(s)
  {
    JournalHoldsLastCommitted(u, events);
    hide Run, LastCommitted, Proper, LoadsTo, Snapshot.Saved, Snapshot.Restored;
    var j, dir := u.journal, Run(u, events).dir;
    match LastCommitted(u, events)
    case None => LoadIsUnique(j, dir, Loaded(j, dir), Err(NoValidRecord));
    case Some(s) =>
      var g: u64 :| LoadsTo(j, dir, Ok((g, Snapshot.Saved(s).value)));
      LoadIsUnique(j, dir, Loaded(j, dir), Ok((g, Snapshot.Saved(s).value)));
      Snapshot.RestoreInvertsSave(s);
  }

  // ----- Which counters the device remembers as used -----

  predicate Used(s: Receiver, c: u64) {
    c < s.chain.counter && c !in s.skipped
  }

  /** The receiver stands for a set of used counters (the refinement of the receive ratchet). */
  ghost predicate Stands(u: Setup, s: Receiver) {
    exists a :: Tight(a) && StateOf(u.kdf, u.root, a) == s
  }

  predicate Opens(u: Setup, p: Packet) {
    DecryptOnce(u.aead, MessageKeyAt(u.kdf, u.root, p.counter), p.body, p.aad).Ok?
  }

  lemma FreshStands(u: Setup, c: u64)
    ensures Stands(u, Fresh(u.kdf, u.root)) && !Used(Fresh(u.kdf, u.root), c)
  {
    RunRefines(u.kdf, u.aead, u.root, []);
    assert StateOf(u.kdf, u.root, NOTHING) == Fresh(u.kdf, u.root);
  }

  lemma UsedMeans(u: Setup, a: Consumed, c: u64)
    requires Tight(a)
    ensures Used(StateOf(u.kdf, u.root, a), c) <==> c in a.used
  {
    hide MessageKeyAt, ChainAt;
  }

  lemma ReceivedMeans(u: Setup, s: Receiver, p: Packet, c: u64)
    requires Stands(u, s)
    ensures var (s', r) := Received(u, s, p);
            && Stands(u, s')
            && (r.Ok? <==> !Used(s, p.counter) && p.counter <= s.chain.counter + MAX_SKIP
                           && p.counter != U64_MAX && Opens(u, p))
            && (Used(s', c) <==> Used(s, c) || (r.Ok? && c == p.counter))
  {
    var a :| Tight(a) && StateOf(u.kdf, u.root, a) == s;
    StepRefines(u.kdf, u.aead, u.root, a, p.counter, p.body, p.aad);
    hide StateOf, Decrypted, MessageKeyAt, DecryptOnce, Tight, Used;
    var a' := SpecDecrypt(u.kdf, u.aead, u.root, a, p.counter, p.body, p.aad).0;
    UsedMeans(u, a, c);
    UsedMeans(u, a, p.counter);
    UsedMeans(u, a', c);
    ExpectedMeans(u, a);
  }

  lemma ExpectedMeans(u: Setup, a: Consumed)
    ensures StateOf(u.kdf, u.root, a).chain.counter == a.expected
  {
  }

  /** The delivery of `p` is answered with the text. */
  ghost predicate Answers(u: Setup, d: Device, p: Packet) {
    d.live.Some? && Received(u, d.live.value, p).1.Ok?
  }

  /** Counter `c` was answered, and no restart since has gone back behind that answer. */
  ghost function Kept(u: Setup, events: seq<Event>, c: u64): bool {
    if events == [] then false
    else
      var front, e := events[..|events| - 1], events[|events| - 1];
      match e
      case Deliver(p) => Kept(u, front, c) || (p.counter == c && Answers(u, Run(u, front), p))
      case Save(_, _) => Kept(u, front, c)
      case Restart => KeptByJournal(u, front, c)
  }

  /** The last committed save was made with counter `c` answered. */
  ghost function KeptByJournal(u: Setup, events: seq<Event>, c: u64): bool {
    if events == [] then false
    else
      var front, e := events[..|events| - 1], events[|events| - 1];
      if Commits(u, Run(u, front), e) then Kept(u, front, c) else KeptByJournal(u, front, c)
  }

  lemma {:induction false} JournalKeepsNoMore(u: Setup, events: seq<Event>, c: u64)
    ensures KeptByJournal(u, events, c) ==> Kept(u, events, c)
  {
    if events == [] {
    } else {
      JournalKeepsNoMore(u, events[..|events| - 1], c);
    }
  }

  /** A receiver, if there is one, stands for used counters, and `c` is among them exactly when `kept`. */
  ghost predicate Remembers(u: Setup, r: Option<Receiver>, c: u64, kept: bool) {
    r.Some? ==> Stands(u, r.value) && (Used(r.value, c) <==> kept)
  }

  lemma KeptMore(u: Setup, front: seq<Event>, e: Event, c: u64)
    ensures Kept(u, front + [e], c) ==
              if e.Restart? then KeptByJournal(u, front, c)
              else Kept(u, front, c) || (e.Deliver? && e.packet.counter == c && Answers(u, Run(u, front), e.packet))
    ensures KeptByJournal(u, front + [e], c) ==
              if Commits(u, Run(u, front), e) then Kept(u, front, c) else KeptByJournal(u, front, c)
    ensures Commits(u, Run(u, front), e) ==> e.Save?
  {
    assert (front + [e])[..|front|] == front;
    hide Run, Answers, Snapshot.Saved, Saving;
  }

  lemma LiveAfterSave(u: Setup, d: Device, nonce: Bytes, stop: Stop)
    ensures Step(u, d, Save(nonce, stop)).live in {d.live, None}
  {
    hide Snapshot.Saved, Saving;
  }

  lemma LiveRemembers(u: Setup, front: seq<Event>, e: Event, c: u64)
    requires Proper(u, front)
    requires Remembers(u, Run(u, front).live, c, Kept(u, front, c))
    requires Remembers(u, LastCommitted(u, front), c, KeptByJournal(u, front, c))
    requires LastCommitted(u, front).None? ==> !KeptByJournal(u, front, c)
    ensures Remembers(u, Step(u, Run(u, front), e).live, c, Kept(u, front + [e], c))
  {
    FreshStands(u, c);
    KeptMore(u, front, e, c);
    var d := Run(u, front);
    hide Proper, Stands, Used, Received, Run, Kept, KeptByJournal, LastCommitted, Snapshot.Saved, Saving, Recovered;
    match e
    case Deliver(p) => if d.live.Some? { ReceivedMeans(u, d.live.value, p, c); }
    case Save(nonce, stop) => LiveAfterSave(u, d, nonce, stop);
    case Restart => RestartGivesLastCommitted(u, front);
  }

  lemma {:induction false} DeviceRemembers(u: Setup, events: seq<Event>, c: u64)
    requires Proper(u, events)
    ensures Remembers(u, Run(u, events).live, c, Kept(u, events, c))
    ensures Remembers(u, LastCommitted(u, events), c, KeptByJournal(u, events, c))
    ensures LastCommitted(u, events).None? ==> !KeptByJournal(u, events, c)
  {
    if events == [] {
      FreshStands(u, c);
    } else {
      var front, e := events[..|events| - 1], events[|events| - 1];
      assert events == front + [e];
      ProperFront(u, front, e);
      DeviceRemembers(u, front, c);
      LiveRemembers(u, front, e, c);
      KeptMore(u, front, e, c);
      hide Proper, Remembers, Step, Kept, KeptByJournal, Snapshot.Saved, Saving;
    }
  }

  // ----- When a counter is answered twice -----

  ghost predicate CommitIn(u: Setup, start: seq<Event>, between: seq<Event>) {
    exists m :: 0 <= m < |between| && Commits(u, Run(u, start + between[..m]), between[m])
  }

  /** A restart of `between` comes before any committed save of `between`. */
  ghost predicate Forgets(u: Setup, start: seq<Event>, between: seq<Event>) {
    exists r :: 0 <= r < |between| && between[r].Restart? && !CommitIn(u, start, between[..r])
  }

  /** No packet with counter `c` is answered with a text during `between`. */
  ghost predicate NotAnswered(u: Setup, start: seq<Event>, between: seq<Event>, c: u64) {
    forall m :: 0 <= m < |between| && between[m].Deliver? && between[m].packet.counter == c ==>
      !Answers(u, Run(u, start + between[..m]), between[m].packet)
  }

  lemma CommitInMore(u: Setup, start: seq<Event>, front: seq<Event>, e: Event)
    ensures CommitIn(u, start, front + [e]) <==> CommitIn(u, start, front) || Commits(u, Run(u, start + front), e)
  {
    hide Commits, Run;
    var all := front + [e];
    assert all[..|front|] == front;
    if CommitIn(u, start, front) {
      var m :| 0 <= m < |front| && Commits(u, Run(u, start + front[..m]), front[m]);
      assert all[..m] == front[..m] && all[m] == front[m];
    }
    if CommitIn(u, start, all) {
      var m :| 0 <= m < |all| && Commits(u, Run(u, start + all[..m]), all[m]);
      assert m < |front| ==> all[..m] == front[..m] && all[m] == front[m];
    }
    assert Commits(u, Run(u, start + front), e) ==> Commits(u, Run(u, start + all[..|front|]), all[|front|]);
  }

  lemma ForgetsMore(u: Setup, start: seq<Event>, front: seq<Event>, e: Event)
    ensures Forgets(u, start, front + [e]) <==>
            Forgets(u, start, front) || (e.Restart? && !CommitIn(u, start, front))
  {
    hide CommitIn;
    var all := front + [e];
    assert all[..|front|] == front;
    if Forgets(u, start, front) {
      var r :| 0 <= r < |front| && front[r].Restart? && !CommitIn(u, start, front[..r]);
      assert all[..r] == front[..r] && all[r] == front[r];
    }
    if Forgets(u, start, all) {
      var r :| 0 <= r < |all| && all[r].Restart? && !CommitIn(u, start, all[..r]);
      assert r < |front| ==> all[..r] == front[..r] && all[r] == front[r];
    }
    assert e.Restart? && !CommitIn(u, start, front) ==> all[|front|].Restart? && !CommitIn(u, start, all[..|front|]);
  }

  lemma NotAnsweredMore(u: Setup, start: seq<Event>, front: seq<Event>, e: Event, c: u64)
    requires NotAnswered(u, start, front + [e], c)
    ensures NotAnswered(u, start, front, c)
    ensures e.Deliver? && e.packet.counter == c ==> !Answers(u, Run(u, start + front), e.packet)
  {
    hide Answers, Run;
    var all := front + [e];
    assert all[..|front|] == front && all[|front|] == e;
    forall m | 0 <= m < |front| && front[m].Deliver? && front[m].packet.counter == c
      ensures !Answers(u, Run(u, start + front[..m]), front[m].packet)
    {
      assert all[..m] == front[..m] && all[m] == front[m];
    }
  }

  lemma NothingForgotten(u: Setup, start: seq<Event>)
    ensures !Forgets(u, start, []) && !CommitIn(u, start, []) && start + [] == start
  {
  }

  lemma {:induction false} KeptUnlessForgotten(u: Setup, start: seq<Event>, between: seq<Event>, c: u64)
    requires Kept(u, start, c) && !KeptByJournal(u, start, c) && NotAnswered(u, start, between, c)
    ensures Kept(u, start + between, c) <==> !Forgets(u, start, between)
    ensures KeptByJournal(u, start + between, c) <==> !Forgets(u, start, between) && CommitIn(u, start, between)
  {
    hide *;
    if between == [] {
      NothingForgotten(u, start);
    } else {
      var front, e := between[..|between| - 1], between[|between| - 1];
      assert between == front + [e] && start + between == start + front + [e];
      NotAnsweredMore(u, start, front, e, c);
      KeptUnlessForgotten(u, start, front, c);
      KeptMore(u, start + front, e, c);
      CommitInMore(u, start, front, e);
      ForgetsMore(u, start, front, e);
    }
  }

  /** Exactly-once across restarts: a packet that was answered, and whose counter was not answered again since, is
      answered again if and only if a restart came before any save committed after the first answer - and the
      receiver that came back can reach that far. */
  lemma AnsweredAgainExactlyWhen(u: Setup, before: seq<Event>, p: Packet, between: seq<Event>)
    requires Proper(u, before + [Deliver(p)] + between)
    requires Answers(u, Run(u, before), p) && NotAnswered(u, before + [Deliver(p)], between, p.counter)
    ensures var d := Run(u, before + [Deliver(p)] + between);
            Answers(u, d, p) <==>
            && d.live.Some? && p.counter <= d.live.value.chain.counter + MAX_SKIP
            && Forgets(u, before + [Deliver(p)], between)
  {
    var start := before + [Deliver(p)];
    var d := Run(u, start + between);
    assert start[..|before|] == before;
    ProperPrefix(u, start, between);
    ProperFront(u, before, Deliver(p));
    DeviceRemembers(u, before, p.counter);
    DeviceRemembers(u, start + between, p.counter);
    JournalKeepsNoMore(u, before, p.counter);
    ReceivedMeans(u, Run(u, before).live.value, p, p.counter);
    assert Kept(u, start, p.counter) && !KeptByJournal(u, start, p.counter);
    KeptUnlessForgotten(u, start, between, p.counter);
    hide Kept, KeptByJournal, Run, Forgets, NotAnswered, Proper, Used, Stands, Received, Opens, CommitIn;
    if d.live.Some? {
      ReceivedMeans(u, d.live.value, p, p.counter);
    }
  }

  lemma {:induction false} ProperPrefix(u: Setup, front: seq<Event>, more: seq<Event>)
    requires Proper(u, front + more)
    ensures Proper(u, front)
  {
    hide Lawful, LoadsTo;
    forall i | 0 <= i < |front| && front[i].Save? ensures |front[i].nonce| == NONCE_LEN {
      assert (front + more)[i] == front[i];
    }
  }
}
