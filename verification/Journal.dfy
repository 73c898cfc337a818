/** The encrypted journal: generations of sealed records in a directory (core/storage/src/lib.rs). */
module Journal {
  import opened Prelude
  import opened BigEndian
  import opened Crypto
  import opened JournalNames

  const STORAGE_FORMAT_VERSION: u16 := 1
  const AEAD_TAG_LEN: nat := 16
  const JOURNAL_MAGIC: Bytes := [0x4D, 0x4A, 0x52, 0x31]  // "MJR1"
  const JOURNAL_HEADER_LEN: nat := 12

  datatype StorageError =
    | InvalidVersion | Truncated | InvalidJournalRecord | NoValidRecord | GenerationOverflow | Io | DecryptionFailed

  /** File names and contents of one directory. */
  type Dir = map<string, Bytes>

  datatype Journal = Journal(aead: Aead, key: Key, prefix: string)

  /** What the journal needs of its cipher: section 2.8 of RFC 8439. */
  ghost predicate Lawful(j: Journal) {
    && OpensWhatItSeals(j.aead)
    && forall key, nonce, text, aad {:trigger j.aead.seal(key, nonce, text, aad)} ::
         |j.aead.seal(key, nonce, text, aad)| == |text| + AEAD_TAG_LEN
  }

  function SealRecord(j: Journal, nonce: Bytes, text: Bytes): Bytes {
    ToBE(STORAGE_FORMAT_VERSION, 2) + nonce + j.aead.seal(j.key, nonce, text, [])
  }

  function OpenRecord(j: Journal, record: Bytes): Result<Bytes, StorageError> {
    if |record| < 2 + NONCE_LEN + AEAD_TAG_LEN then Err(Truncated)
    else if ReadU16(record[..2]) != STORAGE_FORMAT_VERSION then Err(InvalidVersion)
    else
      match j.aead.open(j.key, record[2..2 + NONCE_LEN], record[2 + NONCE_LEN..], [])
      case Some(text) => Ok(text)
      case None => Err(DecryptionFailed)
  }

  function EncodeJournal(generation: u64, text: Bytes): Bytes {
    JOURNAL_MAGIC + ToBE(generation, 8) + text
  }

  function DecodeJournal(record: Bytes, expected: u64): Result<Bytes, StorageError> {
    if |record| < JOURNAL_HEADER_LEN then Err(Truncated)
    else if record[..4] != JOURNAL_MAGIC then Err(InvalidJournalRecord)
    else if ReadU64(record[4..12]) != expected then Err(InvalidJournalRecord)
    else Ok(record[JOURNAL_HEADER_LEN..])
  }

  function Sealed(j: Journal, generation: u64, nonce: Bytes, text: Bytes): Bytes {
    SealRecord(j, nonce, EncodeJournal(generation, text))
  }

  function ReadAs(j: Journal, record: Bytes, generation: u64): Result<Bytes, StorageError> {
    match OpenRecord(j, record)
    case Err(e) => Err(e)
    case Ok(payload) => DecodeJournal(payload, generation)
  }

  lemma OpenInvertsSeal(j: Journal, nonce: Bytes, text: Bytes)
    requires Lawful(j) && |nonce| == NONCE_LEN
    ensures OpenRecord(j, SealRecord(j, nonce, text)) == Ok(text)
  {
    var r, body := SealRecord(j, nonce, text), j.aead.seal(j.key, nonce, text, []);
    RoundTripU16(STORAGE_FORMAT_VERSION);
    assert r[..2] == ToBE(STORAGE_FORMAT_VERSION, 2) && r[2..2 + NONCE_LEN] == nonce && r[2 + NONCE_LEN..] == body;
  }

  lemma DecodeInvertsEncode(generation: u64, text: Bytes, expected: u64)
    ensures DecodeJournal(EncodeJournal(generation, text), expected)
            == if expected == generation then Ok(text) else Err(InvalidJournalRecord)
  {
    var r := EncodeJournal(generation, text);
    RoundTripU64(generation);
    assert r[..4] == JOURNAL_MAGIC && r[4..12] == ToBE(generation, 8) && r[JOURNAL_HEADER_LEN..] == text;
  }

  /** A sealed record reads back under its own generation and under no other. */
  lemma RecordIsBoundToGeneration(j: Journal, generation: u64, nonce: Bytes, text: Bytes, other: u64)
    requires Lawful(j) && |nonce| == NONCE_LEN
    ensures OpenRecord(j, Sealed(j, generation, nonce, text)).Ok?
    ensures ReadAs(j, Sealed(j, generation, nonce, text), other)
            == if other == generation then Ok(text) else Err(InvalidJournalRecord)
  {
    OpenInvertsSeal(j, nonce, EncodeJournal(generation, text));
    DecodeInvertsEncode(generation, text, other);
  }

  /** A record reads as `text` under a generation exactly when it has version 1, a nonce of 12 bytes and at least a tag
      of 16, and the cipher opens it to the mark "MJR1", that generation in 8 bytes, and the text. */
  lemma ReadsExactlyWhen(j: Journal, record: Bytes, generation: u64, text: Bytes)
    ensures ReadAs(j, record, generation) == Ok(text) <==>
            && |record| >= 30 && record[..2] == [0, 1]
            && j.aead.open(j.key, record[2..14], record[14..], [])
               == Some([0x4D, 0x4A, 0x52, 0x31] + ToBE(generation, 8) + text)
  {
    if |record| >= 30 {
      OneIsOne(record[..2]);
      var plain := j.aead.open(j.key, record[2..14], record[14..], []);
      if plain.Some? {
        DecodesExactlyWhen(plain.value, generation, text);
      }
    }
  }

  lemma DecodesExactlyWhen(payload: Bytes, generation: u64, text: Bytes)
    ensures DecodeJournal(payload, generation) == Ok(text) <==>
            payload == [0x4D, 0x4A, 0x52, 0x31] + ToBE(generation, 8) + text
  {
    DecodeInvertsEncode(generation, text, generation);
    assert JOURNAL_MAGIC == [0x4D, 0x4A, 0x52, 0x31];
    if DecodeJournal(payload, generation) == Ok(text) {
      ToFromBE(payload[4..12]);
      assert payload == payload[..4] + payload[4..12] + payload[12..];
    }
  }

  // ----- Generations in a directory -----

  ghost predicate HasGeneration(prefix: string, dir: Dir, g: u64) {
    exists name :: name in dir && ParseGeneration(prefix, name) == Some(g)
  }

  /** `next` is one past the newest generation, if there is room for it. */
  ghost predicate IsNext(prefix: string, dir: Dir, next: Option<u64>) {
    match next
    case None => HasGeneration(prefix, dir, U64_MAX)
    case Some(n) =>
      && (forall g: u64 :: HasGeneration(prefix, dir, g) ==> g < n)
      && (n > 0 ==> HasGeneration(prefix, dir, n - 1))
  }

  lemma NextIsUnique(prefix: string, dir: Dir, a: Option<u64>, b: Option<u64>)
    requires IsNext(prefix, dir, a) && IsNext(prefix, dir, b)
    ensures a == b
  {
    if a.Some? && b.Some? {
      assert a.value <= b.value && b.value <= a.value;
    }
  }

  lemma PresentHasGeneration(prefix: string, dir: Dir, g: u64)
    requires FinalName(prefix, g) in dir
    ensures HasGeneration(prefix, dir, g)
  {
    ParseInvertsFinalName(prefix, g);
  }

  ghost predicate Intact(j: Journal, dir: Dir, g: u64) {
    FinalName(j.prefix, g) in dir && ReadAs(j, dir[FinalName(j.prefix, g)], g).Ok?
  }

  /** What `load` answers: the intact record of the highest generation, under its own generation. */
  ghost predicate LoadsTo(j: Journal, dir: Dir, r: Result<(u64, Bytes), StorageError>) {
    match r
    case Ok((g, text)) =>
      && Intact(j, dir, g) && ReadAs(j, dir[FinalName(j.prefix, g)], g) == Ok(text)
      && forall h: u64 :: h > g ==> !Intact(j, dir, h)
    case Err(e) => e == NoValidRecord && forall h: u64 :: !Intact(j, dir, h)
  }

  lemma LoadIsUnique(j: Journal, dir: Dir, a: Result<(u64, Bytes), StorageError>, b: Result<(u64, Bytes), StorageError>)
    requires LoadsTo(j, dir, a) && LoadsTo(j, dir, b)
    ensures a == b
  {
    if a.Ok? && b.Ok? {
      assert a.value.0 <= b.value.0 && b.value.0 <= a.value.0;
    }
  }

  // ----- Saving, with a process that may stop between any two file-system operations -----

  datatype Stop = Never | BeforeCreate | AfterCreate | AfterWriting(bytes: nat) | AfterRename

  datatype SaveResult = SavedAs(generation: u64) | SaveFailed(error: StorageError) | Stopped

  function Prefix(b: Bytes, n: nat): Bytes {
    if n < |b| then b[..n] else b
  }

  /** The directory and the answer after a save of generation `next`. */
  function AfterSave(j: Journal, dir: Dir, next: Option<u64>, nonce: Bytes, text: Bytes, stop: Stop)
    : (Dir, SaveResult)
  {
    match next
    case None => (dir, SaveFailed(GenerationOverflow))
    case Some(g) =>
      var temp, final := TempName(j.prefix, g), FinalName(j.prefix, g);
      var record := Sealed(j, g, nonce, text);
      if stop == BeforeCreate then (dir, Stopped)
      else if temp in dir then (dir, SaveFailed(Io))
      else if stop == AfterCreate then (dir[temp := []], Stopped)
      else if stop.AfterWriting? then (dir[temp := Prefix(record, stop.bytes)], Stopped)
      else ((dir - {temp})[final := record], if stop == AfterRename then Stopped else SavedAs(g))
  }

  lemma {:induction false} FindLargest(keys: set<u64>) returns (c: u64)
    requires keys != {}
    ensures c in keys && forall k :: k in keys ==> k <= c
  {
    var x :| x in keys;
    if keys == {x} {
      c := x;
    } else {
      var rest := keys - {x};
      var other := FindLargest(rest);
      c := if other > x then other else x;
      assert forall k :: k in keys ==> k == x || k in rest;
    }
  }

  class EncryptedJournal {
    const j: Journal
    var files: Dir

    constructor (j: Journal, files: Dir)
      ensures this.j == j && this.files == files
    {
      this.j, this.files := j, files;
    }

    method Generations() returns (gs: set<u64>)
      ensures forall g: u64 :: g in gs <==> HasGeneration(j.prefix, files, g)
    {
      gs := {};
      var names := files.Keys;
      while names != {}
        invariant names <= files.Keys
        invariant forall g: u64 :: g in gs ==> HasGeneration(j.prefix, files, g)
        invariant forall name :: name in files.Keys && name !in names && ParseGeneration(j.prefix, name).Some? ==>
                    ParseGeneration(j.prefix, name).value in gs
      {
        var name :| name in names;
        var g := ParseGeneration(j.prefix, name);
        if g.Some? {
          assert HasGeneration(j.prefix, files, g.value);
          gs := gs + {g.value};
        }
        names := names - {name};
      }
    }

    method NextGeneration() returns (next: Option<u64>)
      ensures IsNext(j.prefix, files, next)
    {
      var gs := Generations();
      if gs == {} {
        return Some(0);
      }
      ghost var largest := FindLargest(gs);
      var current :| current in gs && forall g :: g in gs ==> g <= current;
      if current == U64_MAX { return None; }
      next := Some(current + 1);
    }

    method Save(nonce: Bytes, text: Bytes, stop: Stop) returns (r: SaveResult)
      modifies this
      ensures exists next :: IsNext(j.prefix, old(files), next)
                             && (files, r) == AfterSave(j, old(files), next, nonce, text, stop)
    {
      var next := NextGeneration();
      if next.None? { return SaveFailed(GenerationOverflow); }
      var generation := next.value;
      var record := Sealed(j, generation, nonce, text);
      var temp, final := TempName(j.prefix, generation), FinalName(j.prefix, generation);
      if stop == BeforeCreate { return Stopped; }

      if temp in files { return SaveFailed(Io); }
      files := files[temp := []];
      if stop == AfterCreate { return Stopped; }

      files := files[temp := if stop.AfterWriting? then Prefix(record, stop.bytes) else record];
      if stop.AfterWriting? {
        assert files == old(files)[temp := Prefix(record, stop.bytes)];
        return Stopped;
      }

      FinalNamesDiffer(j.prefix, generation, generation);
      files := (files - {temp})[final := record];
      assert files == (old(files) - {temp})[final := record];
      if stop == AfterRename { return Stopped; }
      r := SavedAs(generation);
    }

    method Load() returns (r: Result<(u64, Bytes), StorageError>)
      ensures LoadsTo(j, files, r)
    {
      var rest := Generations();
      forall h: u64 | Intact(j, files, h) ensures h in rest {
        PresentHasGeneration(j.prefix, files, h);
      }
      while rest != {}
        invariant forall h: u64 :: Intact(j, files, h) ==> h in rest
      {
        ghost var largest := FindLargest(rest);
        var generation :| generation in rest && forall g :: g in rest ==> g <= generation;
        var path := FinalName(j.prefix, generation);
        if path in files {
          var record := OpenRecord(j, files[path]);
          if record.Ok? {
            var text := DecodeJournal(record.value, generation);
            if text.Ok? {
              return Ok((generation, text.value));
            }
          }
        }
        rest := rest - {generation};
      }
      r := Err(NoValidRecord);
    }
  }
}
