/** Crash safety and recovery of the journal, for one save and over whole runs. */
module JournalRuns {
  import opened Prelude
  import opened Crypto
  import opened JournalNames
  import opened Journal

  // ----- One save, stopped anywhere -----

  lemma NextNameIsFree(j: Journal, dir: Dir, g: u64)
    requires IsNext(j.prefix, dir, Some(g))
    ensures forall h: u64 :: h >= g ==> FinalName(j.prefix, h) !in dir
  {
    forall h: u64 | h >= g ensures FinalName(j.prefix, h) !in dir {
      if FinalName(j.prefix, h) in dir {
        PresentHasGeneration(j.prefix, dir, h);
      }
    }
  }

  /** Temporary files and other journals' files play no part in what is intact. */
  lemma SameFinalsSameLoad(j: Journal, dir: Dir, dir': Dir, r: Result<(u64, Bytes), StorageError>)
    requires forall h: u64 :: FinalName(j.prefix, h) in dir <==> FinalName(j.prefix, h) in dir'
    requires forall h: u64 :: FinalName(j.prefix, h) in dir ==>
               dir'[FinalName(j.prefix, h)] == dir[FinalName(j.prefix, h)]
    requires LoadsTo(j, dir, r)
    ensures LoadsTo(j, dir', r)
  {
    assert forall h: u64 :: Intact(j, dir', h) <==> Intact(j, dir, h);
  }

  /** Did this save reach the rename? */
  predicate Committed(stop: Stop, r: SaveResult) {
    r.SavedAs? || (r == Stopped && stop == AfterRename)
  }

  lemma RenamedLoads(j: Journal, dir: Dir, g: u64, nonce: Bytes, text: Bytes)
    requires Lawful(j) && |nonce| == NONCE_LEN && IsNext(j.prefix, dir, Some(g))
    ensures LoadsTo(j, (dir - {TempName(j.prefix, g)})[FinalName(j.prefix, g) := Sealed(j, g, nonce, text)],
                    Ok((g, text)))
  {
    RecordIsBoundToGeneration(j, g, nonce, text, g);
    NextNameIsFree(j, dir, g);
    hide Sealed, ReadAs, Lawful, IsNext, FinalName, TempName;
    var dir' := (dir - {TempName(j.prefix, g)})[FinalName(j.prefix, g) := Sealed(j, g, nonce, text)];
    forall h: u64 | h > g ensures FinalName(j.prefix, h) !in dir' {
      FinalNamesDiffer(j.prefix, h, g);
      assert FinalName(j.prefix, h) !in dir;
    }
  }

  lemma LeftoverIsInvisible(j: Journal, dir: Dir, g: u64, content: Bytes, before: Result<(u64, Bytes), StorageError>)
    requires LoadsTo(j, dir, before)
    ensures LoadsTo(j, dir[TempName(j.prefix, g) := content], before)
  {
    hide FinalName, TempName, LoadsTo;
    forall h: u64 ensures FinalName(j.prefix, h) != TempName(j.prefix, g) {
      FinalNamesDiffer(j.prefix, h, g);
    }
    SameFinalsSameLoad(j, dir, dir[TempName(j.prefix, g) := content], before);
  }

  /** Wherever a save stops, and from whatever directory it started, `load` answers either exactly what it
      answered before or the new record; the new one if and only if the rename happened. */
  lemma SaveIsCrashSafe(j: Journal, dir: Dir, next: Option<u64>, nonce: Bytes, text: Bytes, stop: Stop,
                        before: Result<(u64, Bytes), StorageError>)
    requires Lawful(j) && |nonce| == NONCE_LEN && IsNext(j.prefix, dir, next) && LoadsTo(j, dir, before)
    ensures var (dir', r) := AfterSave(j, dir, next, nonce, text, stop);
            if Committed(stop, r) then next.Some? && LoadsTo(j, dir', Ok((next.value, text)))
            else LoadsTo(j, dir', before)
  {
    hide LoadsTo, Lawful, IsNext, Sealed, FinalName, TempName;
    if next.Some? {
      var g := next.value;
      RenamedLoads(j, dir, g, nonce, text);
      LeftoverIsInvisible(j, dir, g, [], before);
      if stop.AfterWriting? {
        LeftoverIsInvisible(j, dir, g, Prefix(Sealed(j, g, nonce, text), stop.bytes), before);
      }
    }
  }

  lemma SameGenerations(prefix: string, dir: Dir, dir': Dir)
    requires forall name :: ParseGeneration(prefix, name).Some? ==> (name in dir <==> name in dir')
    ensures forall g: u64 :: HasGeneration(prefix, dir, g) <==> HasGeneration(prefix, dir', g)
    ensures forall n :: IsNext(prefix, dir, n) <==> IsNext(prefix, dir', n)
  {
    forall g: u64 ensures HasGeneration(prefix, dir, g) <==> HasGeneration(prefix, dir', g) {
      if HasGeneration(prefix, dir, g) {
        var name :| name in dir && ParseGeneration(prefix, name) == Some(g);
        assert name in dir';
      }
      if HasGeneration(prefix, dir', g) {
        var name :| name in dir' && ParseGeneration(prefix, name) == Some(g);
        assert name in dir;
      }
    }
  }

  /** A save that stops between creating and renaming its file leaves the next generation the same, and its
      temporary name taken. */
  lemma LeftoverKeepsNext(j: Journal, dir: Dir, next: Option<u64>, nonce: Bytes, text: Bytes, stop: Stop)
    requires IsNext(j.prefix, dir, next) && (stop.AfterCreate? || stop.AfterWriting?)
    requires AfterSave(j, dir, next, nonce, text, stop).1 == Stopped
    ensures var dir' := AfterSave(j, dir, next, nonce, text, stop).0;
            next.Some? && IsNext(j.prefix, dir', next) && TempName(j.prefix, next.value) in dir'
  {
    TempNameNeverParses(j.prefix, j.prefix, next.value);
    hide ParseGeneration, IsNext, TempName, FinalName;
    SameGenerations(j.prefix, dir, AfterSave(j, dir, next, nonce, text, stop).0);
  }

  // ----- Runs: saves, crashes, tampering, other programs -----

  /** A record that was completely written to a file. */
  datatype Written = Written(generation: u64, nonce: Bytes, text: Bytes)

  datatype Event =
    | SaveEvent(nonce: Bytes, text: Bytes, stop: Stop)
    | Overwrite(name: string, content: Bytes)  // any existing file gets any content
    | Other(name: string, content: Bytes)      // another program writes a file of its own

  datatype State = State(dir: Dir, written: seq<Written>)

  function RecordOf(j: Journal, w: Written): Bytes {
    Sealed(j, w.generation, w.nonce, w.text)
  }

  predicate FullyWritten(stop: Stop, r: SaveResult, record: Bytes) {
    Committed(stop, r) || (r == Stopped && stop.AfterWriting? && stop.bytes >= |record|)
  }

  ghost predicate Steps(j: Journal, s: State, e: Event, s': State) {
    match e
    case SaveEvent(nonce, text, stop) =>
      exists next :: IsNext(j.prefix, s.dir, next) &&
        var (dir', r) := AfterSave(j, s.dir, next, nonce, text, stop);
        s' == State(dir', s.written +
                if next.Some? && FullyWritten(stop, r, Sealed(j, next.value, nonce, text))
                then [Written(next.value, nonce, text)] else [])
    case Overwrite(name, content) =>
      s' == State(if name in s.dir then s.dir[name := content] else s.dir, s.written)
    case Other(name, content) =>
      s' == State(s.dir[name := content], s.written)
  }

  /** Nonces have their length, other programs keep to foreign names, and an overwritten file opens under the
      storage key only if its content is a record that was written before (authenticity of the cipher). */
  ghost predicate Honest(j: Journal, s: State, e: Event) {
    match e
    case SaveEvent(nonce, _, _) => |nonce| == NONCE_LEN
    case Overwrite(_, content) => OpenRecord(j, content).Ok? ==> Known(j, s.written, content)
    case Other(name, _) => Foreign(j.prefix, name)
  }

  ghost predicate Known(j: Journal, written: seq<Written>, content: Bytes) {
    exists i :: 0 <= i < |written| && RecordOf(j, written[i]) == content
  }

  ghost predicate IsRun(j: Journal, states: seq<State>, events: seq<Event>) {
    && |states| == |events| + 1
    && states[0].written == [] && (forall name :: name in states[0].dir ==> Foreign(j.prefix, name))
    && forall i :: 0 <= i < |events| ==>
         Honest(j, states[i], events[i]) && Steps(j, states[i], events[i], states[i + 1])
  }

  /** Where the record of a written generation is: under its final name, or left over under its temporary name. */
  ghost predicate Placed(j: Journal, s: State, w: Written) {
    FinalName(j.prefix, w.generation) in s.dir
    || (TempName(j.prefix, w.generation) in s.dir && IsNext(j.prefix, s.dir, Some(w.generation)))
  }

  predicate Ascending(written: seq<Written>) {
    forall i, k :: 0 <= i < k < |written| ==> written[i].generation < written[k].generation
  }

  ghost predicate JournalInv(j: Journal, s: State) {
    && Ascending(s.written)
    && (forall i :: 0 <= i < |s.written| ==> |s.written[i].nonce| == NONCE_LEN && Placed(j, s, s.written[i]))
    && (forall name :: name in s.dir && ParseGeneration(j.prefix, name).Some? ==>
          var g := ParseGeneration(j.prefix, name).value;
          && name == FinalName(j.prefix, g)
          && (exists i :: 0 <= i < |s.written| && s.written[i].generation == g)
          && (OpenRecord(j, s.dir[name]).Ok? ==> Known(j, s.written, s.dir[name])))
  }

  lemma KnownGrows(j: Journal, written: seq<Written>, more: seq<Written>, content: Bytes)
    requires Known(j, written, content)
    ensures Known(j, written + more, content)
  {
    var i :| 0 <= i < |written| && RecordOf(j, written[i]) == content;
    assert (written + more)[i] == written[i];
  }

  /** Steps that leave the finished files alone, apart from contents that are allowed. */
  lemma QuietStepKeepsInv(j: Journal, s: State, dir': Dir)
    requires JournalInv(j, s)
    requires forall name :: name in s.dir ==> name in dir'
    requires forall name :: name in dir' && ParseGeneration(j.prefix, name).Some? ==>
               && name in s.dir
               && (dir'[name] == s.dir[name] || (OpenRecord(j, dir'[name]).Ok? ==> Known(j, s.written, dir'[name])))
    ensures JournalInv(j, State(dir', s.written))
  {
    hide Known, OpenRecord, ParseGeneration;
    SameGenerations(j.prefix, s.dir, dir');
  }

  /** A new generation is above every generation written before. */
  lemma NewGenerationIsHigher(j: Journal, s: State, g: u64)
    requires JournalInv(j, s) && IsNext(j.prefix, s.dir, Some(g)) && TempName(j.prefix, g) !in s.dir
    ensures forall i :: 0 <= i < |s.written| ==>
              s.written[i].generation < g && FinalName(j.prefix, s.written[i].generation) in s.dir
  {
    hide Known, OpenRecord, ParseGeneration;
    forall i | 0 <= i < |s.written|
      ensures s.written[i].generation < g && FinalName(j.prefix, s.written[i].generation) in s.dir
    {
      var w := s.written[i];
      assert Placed(j, s, w);
      if FinalName(j.prefix, w.generation) in s.dir {
        PresentHasGeneration(j.prefix, s.dir, w.generation);
      } else {
        NextIsUnique(j.prefix, s.dir, Some(g), Some(w.generation));
      }
    }
  }

  lemma LeftoverKeepsInv(j: Journal, s: State, g: u64, nonce: Bytes, text: Bytes, content: Bytes)
    requires JournalInv(j, s) && IsNext(j.prefix, s.dir, Some(g)) && TempName(j.prefix, g) !in s.dir
    requires |nonce| == NONCE_LEN
    ensures JournalInv(j, State(s.dir[TempName(j.prefix, g) := content], s.written))
    ensures JournalInv(j, State(s.dir[TempName(j.prefix, g) := content], s.written + [Written(g, nonce, text)]))
  {
    var temp := TempName(j.prefix, g);
    var dir' := s.dir[temp := content];
    TempNameNeverParses(j.prefix, j.prefix, g);
    hide Known, OpenRecord, ParseGeneration;
    QuietStepKeepsInv(j, s, dir');
    SameGenerations(j.prefix, s.dir, dir');
    NewGenerationIsHigher(j, s, g);
    AppendWritten(j, State(dir', s.written), Written(g, nonce, text));
  }

  lemma AppendWritten(j: Journal, s: State, w: Written)
    requires JournalInv(j, s) && Placed(j, s, w) && |w.nonce| == NONCE_LEN
    requires forall i :: 0 <= i < |s.written| ==> s.written[i].generation < w.generation
    ensures JournalInv(j, State(s.dir, s.written + [w]))
  {
    hide OpenRecord, ParseGeneration, Known, IsNext;
    var s' := State(s.dir, s.written + [w]);
    forall name | name in s.dir && ParseGeneration(j.prefix, name).Some?
      ensures exists i :: 0 <= i < |s'.written| && s'.written[i].generation == ParseGeneration(j.prefix, name).value
      ensures OpenRecord(j, s.dir[name]).Ok? ==> Known(j, s'.written, s.dir[name])
    {
      var i :| 0 <= i < |s.written| && s.written[i].generation == ParseGeneration(j.prefix, name).value;
      assert s'.written[i] == s.written[i];
      if OpenRecord(j, s.dir[name]).Ok? {
        KnownGrows(j, s.written, [w], s.dir[name]);
      }
    }
    forall i | 0 <= i < |s'.written| ensures Placed(j, s', s'.written[i]) {
      assert i < |s.written| ==> Placed(j, s, s.written[i]);
    }
  }

  lemma RenameKeepsInv(j: Journal, s: State, g: u64, nonce: Bytes, text: Bytes)
    requires Lawful(j) && |nonce| == NONCE_LEN
    requires JournalInv(j, s) && IsNext(j.prefix, s.dir, Some(g)) && TempName(j.prefix, g) !in s.dir
    ensures JournalInv(j, State(s.dir[FinalName(j.prefix, g) := Sealed(j, g, nonce, text)],
                                s.written + [Written(g, nonce, text)]))
  {
    var final, record, w := FinalName(j.prefix, g), Sealed(j, g, nonce, text), Written(g, nonce, text);
    var s' := State(s.dir[final := record], s.written + [w]);
    ParseInvertsFinalName(j.prefix, g);
    NewGenerationIsHigher(j, s, g);
    assert s'.written[|s.written|] == w && RecordOf(j, w) == record;
    assert Known(j, s'.written, record);
    hide OpenRecord, ParseGeneration, Known, IsNext, FinalName, TempName;
    forall name | name in s'.dir && ParseGeneration(j.prefix, name).Some?
      ensures name == FinalName(j.prefix, ParseGeneration(j.prefix, name).value)
      ensures exists i :: 0 <= i < |s'.written| && s'.written[i].generation == ParseGeneration(j.prefix, name).value
      ensures OpenRecord(j, s'.dir[name]).Ok? ==> Known(j, s'.written, s'.dir[name])
    {
      if name != final {
        var i :| 0 <= i < |s.written| && s.written[i].generation == ParseGeneration(j.prefix, name).value;
        assert s'.written[i] == s.written[i];
        if OpenRecord(j, s.dir[name]).Ok? {
          KnownGrows(j, s.written, [w], s.dir[name]);
        }
      }
    }
  }

  lemma StepKeepsInv(j: Journal, s: State, e: Event, s': State)
    requires Lawful(j) && JournalInv(j, s) && Honest(j, s, e) && Steps(j, s, e, s')
    ensures JournalInv(j, s')
  {
    hide JournalInv;
    match e
    case SaveEvent(nonce, text, stop) =>
      var next :| IsNext(j.prefix, s.dir, next) &&
        var (dir', r) := AfterSave(j, s.dir, next, nonce, text, stop);
        s' == State(dir', s.written +
                if next.Some? && FullyWritten(stop, r, Sealed(j, next.value, nonce, text))
                then [Written(next.value, nonce, text)] else []);
      assert s.written + [] == s.written;
      if next.Some? && TempName(j.prefix, next.value) !in s.dir && stop != BeforeCreate {
        var g := next.value;
        assert s.dir - {TempName(j.prefix, g)} == s.dir;
        if stop.Never? || stop.AfterRename? {
          RenameKeepsInv(j, s, g, nonce, text);
        } else {
          LeftoverKeepsInv(j, s, g, nonce, text,
                           if stop.AfterWriting? then Prefix(Sealed(j, g, nonce, text), stop.bytes) else []);
        }
      }
    case Overwrite(name, content) => QuietStepKeepsInv(j, s, s'.dir);
    case Other(name, content) => QuietStepKeepsInv(j, s, s'.dir);
  }

  lemma {:induction false} RunKeepsInv(j: Journal, states: seq<State>, events: seq<Event>, k: nat)
    requires Lawful(j) && IsRun(j, states, events) && k <= |events|
    ensures JournalInv(j, states[k])
  {
    if k == 0 {
    } else {
      RunKeepsInv(j, states, events, k - 1);
      StepKeepsInv(j, states[k - 1], events[k - 1], states[k]);
    }
  }

  // ----- What recovery finds -----

  /** The final file of the `i`-th written record still holds that record. */
  ghost predicate InPlace(j: Journal, s: State, i: nat)
    requires i < |s.written|
  {
    var name := FinalName(j.prefix, s.written[i].generation);
    name in s.dir && s.dir[name] == RecordOf(j, s.written[i])
  }

  ghost predicate NewestInPlace(j: Journal, s: State, r: Result<(u64, Bytes), StorageError>) {
    match r
    case Ok((g, text)) =>
      exists i :: 0 <= i < |s.written| && InPlace(j, s, i)
                  && s.written[i].generation == g && s.written[i].text == text
                  && forall k :: i < k < |s.written| ==> !InPlace(j, s, k)
    case Err(e) => e == NoValidRecord && forall i :: 0 <= i < |s.written| ==> !InPlace(j, s, i)
  }

  lemma InPlaceIsIntact(j: Journal, s: State, i: nat)
    requires Lawful(j) && JournalInv(j, s) && i < |s.written| && InPlace(j, s, i)
    ensures var w := s.written[i];
            Intact(j, s.dir, w.generation)
            && ReadAs(j, s.dir[FinalName(j.prefix, w.generation)], w.generation) == Ok(w.text)
  {
    var w := s.written[i];
    RecordIsBoundToGeneration(j, w.generation, w.nonce, w.text, w.generation);
  }

  lemma IntactIsInPlace(j: Journal, s: State, g: u64) returns (i: nat)
    requires Lawful(j) && JournalInv(j, s) && Intact(j, s.dir, g)
    ensures i < |s.written| && InPlace(j, s, i) && s.written[i].generation == g
    ensures ReadAs(j, s.dir[FinalName(j.prefix, g)], g) == Ok(s.written[i].text)
  {
    ParseInvertsFinalName(j.prefix, g);
    var content := s.dir[FinalName(j.prefix, g)];
    assert Known(j, s.written, content);
    i :| 0 <= i < |s.written| && RecordOf(j, s.written[i]) == content;
    RecordIsBoundToGeneration(j, s.written[i].generation, s.written[i].nonce, s.written[i].text, g);
  }

  /** After every run with any crashes, corruptions and swaps, `load` answers the newest record that is still in
      its own file, with the text and the generation it was saved under, and nothing else. */
  lemma LoadFindsNewestInPlace(j: Journal, states: seq<State>, events: seq<Event>, k: nat,
                               r: Result<(u64, Bytes), StorageError>)
    requires Lawful(j) && IsRun(j, states, events) && k <= |events|
    ensures LoadsTo(j, states[k].dir, r) <==> NewestInPlace(j, states[k], r)
  {
    RunKeepsInv(j, states, events, k);
    LoadMeansNewest(j, states[k], r);
  }

  lemma LoadIsNewest(j: Journal, s: State, r: Result<(u64, Bytes), StorageError>)
    requires Lawful(j) && JournalInv(j, s) && LoadsTo(j, s.dir, r)
    ensures NewestInPlace(j, s, r)
  {
    forall k | 0 <= k < |s.written| && InPlace(j, s, k) ensures Intact(j, s.dir, s.written[k].generation) {
      InPlaceIsIntact(j, s, k);
    }
    if r.Ok? {
      var i := IntactIsInPlace(j, s, r.value.0);
      assert Ascending(s.written);
      hide Intact, InPlace, JournalInv, ReadAs, Lawful;
      assert forall k :: i < k < |s.written| ==> !InPlace(j, s, k);
    }
  }

  lemma NewestIsLoad(j: Journal, s: State, r: Result<(u64, Bytes), StorageError>)
    requires Lawful(j) && JournalInv(j, s) && NewestInPlace(j, s, r)
    ensures LoadsTo(j, s.dir, r)
  {
    hide Intact, InPlace, JournalInv, ReadAs, Lawful;
    if r.Ok? {
      var i :| 0 <= i < |s.written| && InPlace(j, s, i)
               && s.written[i].generation == r.value.0 && s.written[i].text == r.value.1
               && forall k :: i < k < |s.written| ==> !InPlace(j, s, k);
      InPlaceIsIntact(j, s, i);
      forall h: u64 | Intact(j, s.dir, h) ensures h <= r.value.0 {
        IntactIsNotNewer(j, s, i, h);
      }
    } else {
      forall h: u64 | Intact(j, s.dir, h) ensures false {
        var k := IntactIsInPlace(j, s, h);
        assert false;
      }
    }
  }

  lemma IntactIsNotNewer(j: Journal, s: State, i: nat, h: u64)
    requires Lawful(j) && JournalInv(j, s) && Intact(j, s.dir, h)
    requires i < |s.written| && forall k :: i < k < |s.written| ==> !InPlace(j, s, k)
    ensures h <= s.written[i].generation
  {
    assert Ascending(s.written);
    hide Intact, InPlace, JournalInv, ReadAs, Lawful;
    var k := IntactIsInPlace(j, s, h);
  }

  lemma LoadMeansNewest(j: Journal, s: State, r: Result<(u64, Bytes), StorageError>)
    requires Lawful(j) && JournalInv(j, s)
    ensures LoadsTo(j, s.dir, r) <==> NewestInPlace(j, s, r)
  {
    hide JournalInv, LoadsTo, NewestInPlace, Lawful;
    if LoadsTo(j, s.dir, r) {
      LoadIsNewest(j, s, r);
    }
    if NewestInPlace(j, s, r) {
      NewestIsLoad(j, s, r);
    }
  }

  lemma {:induction false} WrittenGrows(j: Journal, states: seq<State>, events: seq<Event>, i: nat, k: nat)
    requires IsRun(j, states, events) && i <= k <= |events|
    ensures states[i].written <= states[k].written
  {
    if i == k {
    } else {
      WrittenGrows(j, states, events, i, k - 1);
      assert Steps(j, states[k - 1], events[k - 1], states[k]);
    }
  }

  /** Later completed saves of a run have higher generations. */
  lemma GenerationsIncrease(j: Journal, states: seq<State>, events: seq<Event>, i: nat, k: nat, a: Written, b: Written)
    requires Lawful(j) && IsRun(j, states, events) && i < k < |events|
    requires states[i + 1].written == states[i].written + [a] && states[k + 1].written == states[k].written + [b]
    ensures a.generation < b.generation
  {
    WrittenGrows(j, states, events, i + 1, k);
    RunKeepsInv(j, states, events, k + 1);
    assert Ascending(states[k + 1].written);
    hide IsRun, JournalInv, Lawful;
    var all := states[k + 1].written;
    assert all[|states[i].written|] == a && all[|states[k].written|] == b;
  }

  // ----- Progress: which saves of a run succeed -----

  /** A save whose process stops after it created its temporary file and before it renamed it. */
  predicate StopsMidway(e: Event) {
    e.SaveEvent? && (e.stop.AfterCreate? || e.stop.AfterWriting?)
  }

  predicate Interrupted(events: seq<Event>) {
    exists i :: 0 <= i < |events| && StopsMidway(events[i])
  }

  ghost predicate NoLeftover(j: Journal, dir: Dir) {
    forall g: u64 :: TempName(j.prefix, g) !in dir
  }

  /** There is no next generation, or its temporary name is taken. */
  ghost predicate Blocked(j: Journal, dir: Dir) {
    IsNext(j.prefix, dir, None)
    || exists g: u64 :: IsNext(j.prefix, dir, Some(g)) && TempName(j.prefix, g) in dir
  }

  lemma BlockedSaveFails(j: Journal, dir: Dir, next: Option<u64>, nonce: Bytes, text: Bytes, stop: Stop)
    requires Blocked(j, dir) && IsNext(j.prefix, dir, next)
    ensures var (dir', r) := AfterSave(j, dir, next, nonce, text, stop);
            dir' == dir && r == if next.None? then SaveFailed(GenerationOverflow)
                                else if stop == BeforeCreate then Stopped else SaveFailed(Io)
  {
    hide IsNext, TempName, FinalName, Sealed;
    if next.Some? {
      if IsNext(j.prefix, dir, None) {
        NextIsUnique(j.prefix, dir, next, None);
      } else {
        var g: u64 :| IsNext(j.prefix, dir, Some(g)) && TempName(j.prefix, g) in dir;
        NextIsUnique(j.prefix, dir, next, Some(g));
      }
    }
  }

  lemma BlockedStays(j: Journal, s: State, e: Event, s': State)
    requires Blocked(j, s.dir) && Honest(j, s, e) && Steps(j, s, e, s')
    ensures Blocked(j, s'.dir) && s'.written == s.written
  {
    hide IsNext, TempName, FinalName, ParseGeneration, Sealed;
    match e
    case SaveEvent(nonce, text, stop) =>
      forall next | IsNext(j.prefix, s.dir, next)
        ensures AfterSave(j, s.dir, next, nonce, text, stop).0 == s.dir
        ensures !Committed(stop, AfterSave(j, s.dir, next, nonce, text, stop).1)
        ensures stop.AfterWriting? ==> AfterSave(j, s.dir, next, nonce, text, stop).1 != Stopped
      {
        BlockedSaveFails(j, s.dir, next, nonce, text, stop);
      }
      hide AfterSave;
      assert s.written + [] == s.written;
    case _ => SameGenerations(j.prefix, s.dir, s'.dir);
  }

  lemma FreeStays(j: Journal, s: State, e: Event, s': State)
    requires NoLeftover(j, s.dir) && Honest(j, s, e) && Steps(j, s, e, s')
    ensures if StopsMidway(e) then Blocked(j, s'.dir) else NoLeftover(j, s'.dir)
  {
    hide IsNext, TempName, FinalName, ParseGeneration, Sealed;
    match e
    case SaveEvent(nonce, text, stop) =>
      forall next | IsNext(j.prefix, s.dir, next)
        ensures var dir' := AfterSave(j, s.dir, next, nonce, text, stop).0;
                if StopsMidway(e) then Blocked(j, dir') else NoLeftover(j, dir')
      {
        FreeSave(j, s.dir, next, nonce, text, stop);
      }
      hide AfterSave, Blocked, NoLeftover;
    case _ =>
  }

  lemma FreeSave(j: Journal, dir: Dir, next: Option<u64>, nonce: Bytes, text: Bytes, stop: Stop)
    requires NoLeftover(j, dir) && IsNext(j.prefix, dir, next)
    ensures var dir' := AfterSave(j, dir, next, nonce, text, stop).0;
            if stop.AfterCreate? || stop.AfterWriting? then Blocked(j, dir') else NoLeftover(j, dir')
  {
    hide IsNext, TempName, FinalName, ParseGeneration, Sealed;
    if next.Some? {
      if stop.AfterCreate? || stop.AfterWriting? {
        LeftoverKeepsNext(j, dir, next, nonce, text, stop);
      } else {
        forall g: u64 ensures TempName(j.prefix, g) != FinalName(j.prefix, next.value) {
          FinalNamesDiffer(j.prefix, next.value, g);
        }
      }
    }
  }

  lemma {:induction false} RunProgress(j: Journal, states: seq<State>, events: seq<Event>, k: nat)
    requires IsRun(j, states, events) && k <= |events|
    ensures if Interrupted(events[..k]) then Blocked(j, states[k].dir) else NoLeftover(j, states[k].dir)
  {
    hide *;
    if k == 0 {
      StartsFree(j, states, events);
    } else {
      RunProgress(j, states, events, k - 1);
      var e := events[k - 1];
      StepOfRun(j, states, events, k - 1);
      assert events[..k] == events[..k - 1] + [e];
      InterruptedMore(events[..k - 1], e);
      if Interrupted(events[..k - 1]) {
        BlockedStays(j, states[k - 1], e, states[k]);
      } else {
        FreeStays(j, states[k - 1], e, states[k]);
      }
    }
  }

  lemma StartsFree(j: Journal, states: seq<State>, events: seq<Event>)
    requires IsRun(j, states, events)
    ensures NoLeftover(j, states[0].dir) && !Interrupted(events[..0])
  {
    hide Steps, Honest;
  }

  lemma RunLength(j: Journal, states: seq<State>, events: seq<Event>)
    requires IsRun(j, states, events)
    ensures |states| == |events| + 1
  {
    hide Steps, Honest;
  }

  lemma StepOfRun(j: Journal, states: seq<State>, events: seq<Event>, k: nat)
    requires IsRun(j, states, events) && k < |events|
    ensures |states| == |events| + 1
    ensures Honest(j, states[k], events[k]) && Steps(j, states[k], events[k], states[k + 1])
  {
    hide Steps, Honest;
  }

  lemma InterruptedMore(front: seq<Event>, e: Event)
    ensures Interrupted(front + [e]) <==> Interrupted(front) || StopsMidway(e)
  {
    hide StopsMidway;
    var all := front + [e];
    if Interrupted(front) {
      var i :| 0 <= i < |front| && StopsMidway(front[i]);
      assert all[i] == front[i];
    }
    assert all[|front|] == e;
  }

  /** At every point of every run, a save that is not stopped answers: no generation left, if the last one is
      used; failure, if some earlier save of the run stopped midway; and otherwise it succeeds. */
  lemma SaveSucceedsExactlyWhen(j: Journal, states: seq<State>, events: seq<Event>, k: nat, next: Option<u64>,
                                nonce: Bytes, text: Bytes)
    requires IsRun(j, states, events) && k <= |events| && IsNext(j.prefix, states[k].dir, next)
    ensures var r := AfterSave(j, states[k].dir, next, nonce, text, Never).1;
            && (r.SavedAs? <==> next.Some? && !Interrupted(events[..k]))
            && r == if next.None? then SaveFailed(GenerationOverflow)
                    else if Interrupted(events[..k]) then SaveFailed(Io) else SavedAs(next.value)
  {
    RunProgress(j, states, events, k);
    hide IsRun, IsNext, Interrupted, Sealed, TempName, FinalName, Blocked;
    if Interrupted(events[..k]) {
      BlockedSaveFails(j, states[k].dir, next, nonce, text, Never);
    }
  }

  /** Once a save stopped midway, no later save of the run changes the directory or writes a record, however
      it is stopped and whatever happens in between. */
  lemma {:induction false} LeftoverBlocksSaving(j: Journal, states: seq<State>, events: seq<Event>, i: nat, k: nat,
                                                next: Option<u64>, nonce: Bytes, text: Bytes, stop: Stop)
    requires IsRun(j, states, events) && i < k <= |events| && StopsMidway(events[i])
    requires IsNext(j.prefix, states[k].dir, next)
    ensures var (dir', r) := AfterSave(j, states[k].dir, next, nonce, text, stop);
            dir' == states[k].dir && !r.SavedAs? && (stop != BeforeCreate ==> r.SaveFailed?)
    ensures states[k].written == states[i + 1].written
  {
    RunProgress(j, states, events, k);
    StoppedBefore(events, i, k);
    hide *;
    BlockedSaveFails(j, states[k].dir, next, nonce, text, stop);
    NothingMoreWritten(j, states, events, i, k);
  }

  lemma StoppedBefore(events: seq<Event>, i: nat, k: nat)
    requires i < k <= |events| && StopsMidway(events[i])
    ensures Interrupted(events[..k])
  {
    assert events[..k][i] == events[i];
  }

  lemma {:induction false} NothingMoreWritten(j: Journal, states: seq<State>, events: seq<Event>, i: nat, k: nat)
    requires IsRun(j, states, events) && i < k <= |events| && StopsMidway(events[i])
    ensures states[k].written == states[i + 1].written
  {
    hide *;
    RunLength(j, states, events);
    if k > i + 1 {
      NothingMoreWritten(j, states, events, i, k - 1);
      StoppedBefore(events, i, k - 1);
      RunProgress(j, states, events, k - 1);
      StepOfRun(j, states, events, k - 1);
      BlockedStays(j, states[k - 1], events[k - 1], states[k]);
    }
  }
}
