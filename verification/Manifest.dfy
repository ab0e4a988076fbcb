/** The descriptor log: a snapshot of a version followed by edits, and what recovery makes of it. */
module Manifest {
  import opened Format
  import opened Tree
  import opened Versions
  import opened Install
  import opened Edits
  import opened Replay
  import opened Coding
  import opened EditCodec
  import Log

  /** How keys are stored, and what the tables hold. */
  datatype Storage = Storage(encodeKey: Key -> seq<Byte>, decodeKey: seq<Byte> -> Key, table: nat -> seq<Entry>)

  ghost predicate StorageOk(st: Storage) {
    forall key: Key :: |st.encodeKey(key)| > 0 && st.decodeKey(st.encodeKey(key)) == key
  }

  // ---- Edits as records ----

  ghost predicate NumberOk(n: nat) { n < 0x1_0000_0000_0000_0000 }

  ghost predicate OptionOk(n: Option<nat>) { n.Some? ==> NumberOk(n.value) }

  /** A file the descriptor can name: its entries are those of its table. */
  ghost predicate FileFits(st: Storage, f: File) {
    NumberOk(f.number) && NumberOk(f.size) && f.entries == st.table(f.number) &&
    KeyFits(st.encodeKey(f.smallest)) && KeyFits(st.encodeKey(f.largest))
  }

  ghost predicate Encodable(st: Storage, edit: VersionEdit) {
    EditOk(edit) && PairsInOrder(edit.deletedFiles) &&
    (edit.comparator.Some? ==> |edit.comparator.value| < 0x1_0000_0000) &&
    OptionOk(edit.logNumber) && OptionOk(edit.prevLogNumber) && OptionOk(edit.nextFileNumber) &&
      OptionOk(edit.lastSequence) &&
    (forall c | c in edit.compactPointers :: c.0 < NUM_LEVELS && KeyFits(st.encodeKey(c.1))) &&
      (forall d | d in edit.deletedFiles :: NumberOk(d.1)) &&
    forall n | n in edit.newFiles :: FileFits(st, n.1)
  }

  function Clip(n: nat): Number { n % 0x1_0000_0000_0000_0000 }

  function WireNumber(n: Option<nat>): Option<Number> { if n.Some? then Some(Clip(n.value)) else None }

  function PlainNumber(n: Option<Number>): Option<nat> { if n.Some? then Some(n.value) else None }

  function MetaOf(st: Storage, f: File): FileMeta {
    FileMeta(Clip(f.number), Clip(f.size), st.encodeKey(f.smallest), st.encodeKey(f.largest))
  }

  function FileOf(st: Storage, m: FileMeta): File {
    File(m.number, m.size, st.decodeKey(m.smallest), st.decodeKey(m.largest), st.table(m.number))
  }

  function WirePointers(st: Storage, pointers: seq<(nat, Key)>): seq<(nat, seq<Byte>)> {
    seq(|pointers|, i requires 0 <= i < |pointers| => (pointers[i].0, st.encodeKey(pointers[i].1)))
  }

  function PlainPointers(st: Storage, pointers: seq<(nat, seq<Byte>)>): seq<(nat, Key)> {
    seq(|pointers|, i requires 0 <= i < |pointers| => (pointers[i].0, st.decodeKey(pointers[i].1)))
  }

  function WireFiles(st: Storage, files: seq<(nat, File)>): seq<(nat, FileMeta)> {
    seq(|files|, i requires 0 <= i < |files| => (files[i].0, MetaOf(st, files[i].1)))
  }

  function PlainFiles(st: Storage, files: seq<(nat, FileMeta)>): seq<(nat, File)> {
    seq(|files|, i requires 0 <= i < |files| => (files[i].0, FileOf(st, files[i].1)))
  }

  function WireOf(st: Storage, edit: VersionEdit): WireEdit {
    WireEdit(edit.comparator, WireNumber(edit.logNumber), WireNumber(edit.prevLogNumber),
      WireNumber(edit.nextFileNumber),
             WireNumber(edit.lastSequence), WirePointers(st, edit.compactPointers), edit.deletedFiles,
               WireFiles(st, edit.newFiles))
  }

  function EditOf(st: Storage, w: WireEdit): VersionEdit {
    VersionEdit(w.comparator, PlainNumber(w.logNumber), PlainNumber(w.prevLogNumber), PlainNumber(w.nextFileNumber),
                PlainNumber(w.lastSequence), PlainPointers(st, w.compactPointers), w.deletedFiles,
                  PlainFiles(st, w.newFiles))
  }

  lemma {:induction false} PointersBack(st: Storage, pointers: seq<(nat, Key)>)
    requires StorageOk(st)
    ensures PlainPointers(st, WirePointers(st, pointers)) == pointers
  {
    forall i | 0 <= i < |pointers| ensures (pointers[i].0, st.decodeKey(st.encodeKey(pointers[i].1))) == pointers[i] {
    }
  }

  lemma {:induction false} FilesBack(st: Storage, files: seq<(nat, File)>)
    requires StorageOk(st) && forall n | n in files :: FileFits(st, n.1)
    ensures PlainFiles(st, WireFiles(st, files)) == files
  {
    forall i | 0 <= i < |files| ensures FileOf(st, MetaOf(st, files[i].1)) == files[i].1 {
      assert files[i] in files;
    }
  }

  lemma {:induction false} EditBack(st: Storage, edit: VersionEdit)
    requires StorageOk(st) && Encodable(st, edit)
    ensures EditOf(st, WireOf(st, edit)) == edit
  {
    PointersBack(st, edit.compactPointers);
    FilesBack(st, edit.newFiles);
  }

  lemma {:induction false} WireFits(st: Storage, edit: VersionEdit)
    requires StorageOk(st) && Encodable(st, edit)
    ensures EditFits(WireOf(st, edit))
  {
    var w := WireOf(st, edit);
    forall c | c in w.compactPointers ensures c.0 < NUM_LEVELS && KeyFits(c.1) {
      var i :| 0 <= i < |w.compactPointers| && w.compactPointers[i] == c;
      assert edit.compactPointers[i] in edit.compactPointers;
    }
    forall n | n in w.newFiles ensures n.0 < NUM_LEVELS && KeyFits(n.1.smallest) && KeyFits(n.1.largest) {
      var i :| 0 <= i < |w.newFiles| && w.newFiles[i] == n;
      assert edit.newFiles[i] in edit.newFiles;
    }
  }

  /** The record of an edit. */
  function Record(st: Storage, edit: VersionEdit): seq<Byte> { Encode(WireOf(st, edit)) }

  /** What recovery makes of one record. */
  function ReadRecord(st: Storage, record: seq<Byte>): Option<VersionEdit> {
    match Decode(record, CLEAR)
    case Ok(w) => Some(EditOf(st, w))
    case Corruption(_) => None
  }

  lemma {:induction false} RecordReads(st: Storage, edit: VersionEdit)
    requires StorageOk(st) && Encodable(st, edit)
    ensures ReadRecord(st, Record(st, edit)) == Some(edit)
  {
    WireFits(st, edit);
    DecodeEncode(WireOf(st, edit));
    EditBack(st, edit);
  }

  function Records(st: Storage, edits: seq<VersionEdit>): seq<seq<Byte>> {
    seq(|edits|, i requires 0 <= i < |edits| => Record(st, edits[i]))
  }

  // ---- Recovery ----

  /** The numbers read from the edits; a later edit overrides an earlier one. */
  datatype Fields = Fields(logNumber: Option<nat>, prevLogNumber: Option<nat>, nextFileNumber: Option<nat>,
                           lastSequence: Option<nat>)

  const NO_FIELDS := Fields(None, None, None, None)

  function Later(before: Option<nat>, after: Option<nat>): Option<nat> { if after.Some? then after else before }

  function Override(fields: Fields, edit: VersionEdit): Fields {
    Fields(Later(fields.logNumber, edit.logNumber), Later(fields.prevLogNumber, edit.prevLogNumber),
           Later(fields.nextFileNumber, edit.nextFileNumber), Later(fields.lastSequence, edit.lastSequence))
  }

  function FieldsOf(edits: seq<VersionEdit>): Fields {
    if |edits| == 0 then NO_FIELDS else Override(FieldsOf(edits[..|edits| - 1]), edits[|edits| - 1])
  }

  datatype Recovered = Recovered(levels: Levels, manifestFileNumber: nat, nextFileNumber: nat, lastSequence: nat,
                                 logNumber: nat, prevLogNumber: nat)
    | Failed(what: string)

  lemma {:induction false} DecodedLevels(input: seq<Byte>, edit: WireEdit)
    requires (forall d | d in edit.deletedFiles :: d.0 < NUM_LEVELS) &&
      forall n | n in edit.newFiles :: n.0 < NUM_LEVELS
    requires PairsInOrder(edit.deletedFiles)
    ensures var r := Decode(input, edit); r.Ok? ==>
      (forall d | d in r.edit.deletedFiles :: d.0 < NUM_LEVELS) && forall n | n in r.edit.newFiles :: n.0 < NUM_LEVELS
    decreases |input|
  {
    var tag := GetVarint32(input);
    if tag.Some? {
      var item := ParseItem(tag.value.0, tag.value.1);
      if item.Parsed? {
        var more := AddItem(edit, item.item);
        if item.item.DeletedFile? { InsertPairMembers(edit.deletedFiles, (item.item.level, item.item.number)); }
        DecodedLevels(item.rest, more);
      }
    }
  }

  /** Whatever the record, an edit that decodes names levels that exist. */
  lemma {:induction false} ReadRecordOk(st: Storage, record: seq<Byte>)
    ensures ReadRecord(st, record).Some? ==> EditOk(ReadRecord(st, record).value)
  {
    DecodedLevels(record, CLEAR);
    if ReadRecord(st, record).Some? {
      var w := Decode(record, CLEAR).edit;
      forall n | n in PlainFiles(st, w.newFiles) ensures n.0 < NUM_LEVELS {
        var i :| 0 <= i < |w.newFiles| && PlainFiles(st, w.newFiles)[i] == n;
        assert w.newFiles[i] in w.newFiles;
      }
    }
  }

  ghost predicate BuilderOk(b: Builder)
    reads b
  {
    b.base == EMPTY_LEVELS && |b.levels| == NUM_LEVELS && forall l | 0 <= l < NUM_LEVELS :: InOrder(b.levels[l].added)
  }

  /** Decodes a record, checks the comparator and applies the edit. */
  method ApplyRecord(st: Storage, name: seq<Byte>, record: seq<Byte>, b: Builder, fields: Fields)
    returns (problem: Option<string>, fields': Fields)
    requires BuilderOk(b)
    modifies b
    ensures BuilderOk(b)
    ensures problem.None? <==>
      var edit := ReadRecord(st, record);
      edit.Some? && (edit.value.comparator.Some? ==> edit.value.comparator.value == name)
    ensures problem.None? ==>
      var edit := ReadRecord(st, record).value;
      fields' == Override(fields, edit) &&
        forall l | 0 <= l < NUM_LEVELS :: b.levels[l] == ApplyLevel(old(b.levels[l]), edit, l)
  {
    fields' := fields;
    var decoded := DecodeFrom(record);
    if decoded.Corruption? {
      return Some(decoded.what), fields;
    }
    var edit := EditOf(st, decoded.edit);
    if edit.comparator.Some? && edit.comparator.value != name {
      return Some("does not match existing comparator"), fields;
    }
    ReadRecordOk(st, record);
    forall l | 0 <= l < NUM_LEVELS ensures InOrder(ApplyLevel(b.levels[l], edit, l).added) {
      AddAllOrdered(LevelState(b.levels[l].deleted + DeletedAt(edit.deletedFiles, l), b.levels[l].added), edit.newFiles,
        l);
    }
    b.Apply(edit);
    problem, fields' := None, Override(fields, edit);
  }

  /** The version the builder holds with the numbers read, or an error if one is missing. */
  ghost predicate Finished(b: Builder, fields: Fields, r: Recovered)
    reads b
  {
    if fields.nextFileNumber.None? || fields.logNumber.None? || fields.lastSequence.None? then r.Failed?
    else
      r.Recovered? && |r.levels| == |b.levels| == NUM_LEVELS &&
        (forall l | 0 <= l < NUM_LEVELS :: Saved([], b.levels[l], r.levels[l])) &&
      r.manifestFileNumber == fields.nextFileNumber.value && r.nextFileNumber == fields.nextFileNumber.value + 1 &&
      r.lastSequence == fields.lastSequence.value && r.logNumber == fields.logNumber.value &&
      r.prevLogNumber == (if fields.prevLogNumber.Some? then fields.prevLogNumber.value else 0)
  }

  /** Checks that the numbers are there and saves the version. */
  method Finish(b: Builder, fields: Fields) returns (r: Recovered)
    requires BuilderOk(b)
    ensures Finished(b, fields, r)
  {
    if fields.nextFileNumber.None? {
      return Failed("no meta-nextfile entry in descriptor");
    } else if fields.logNumber.None? {
      return Failed("no meta-lognumber entry in descriptor");
    } else if fields.lastSequence.None? {
      return Failed("no last-sequence-number entry in descriptor");
    }
    forall l | 0 <= l < NUM_LEVELS ensures b.base[l] == [] && Compatible(b.base[l], b.levels[l]) {
    }
    var levels := b.SaveTo();
    r := Recovered(levels, fields.nextFileNumber.value, fields.nextFileNumber.value + 1, fields.lastSequence.value,
      fields.logNumber.value,
                   if fields.prevLogNumber.Some? then fields.prevLogNumber.value else 0);
  }

  /** What a descriptor log holds: a snapshot with the comparator's name, then edits with all their numbers. */
  ghost predicate Written(st: Storage, name: seq<Byte>, edits: seq<VersionEdit>, versions: seq<Levels>) {
    StorageOk(st) && Chain(edits, versions) && EntersOnce(edits) && (forall e | e in edits :: Encodable(st, e)) &&
    (forall e | e in edits && e.comparator.Some? :: e.comparator.value == name) &&
    (|edits| > 0 ==> FieldsOf(edits[..1]) == NO_FIELDS) &&
    forall i | 0 < i < |edits| :: Complete(edits[i])
  }

  ghost predicate Complete(edit: VersionEdit) {
    edit.logNumber.Some? && edit.prevLogNumber.Some? && edit.nextFileNumber.Some? && edit.lastSequence.Some?
  }

  /** The version after k edits with the numbers of the last of them; too few edits are an error. */
  ghost predicate RecoversTo(edits: seq<VersionEdit>, versions: seq<Levels>, k: nat, r: Recovered)
    requires k <= |edits| < |versions|
  {
    if k < 2 then r.Failed?
    else
      var last := edits[k - 1];
      Complete(last) &&
      r == Recovered(versions[k], last.nextFileNumber.value, last.nextFileNumber.value + 1, last.lastSequence.value,
        last.logNumber.value,
                     last.prevLogNumber.value)
  }

  /** The builder and the numbers after the first k edits. */
  ghost predicate Applied(st: Storage, edits: seq<VersionEdit>, k: nat, b: Builder, fields: Fields)
    reads b
  {
    k <= |edits| && |b.levels| == NUM_LEVELS && fields == FieldsOf(edits[..k]) &&
    forall l | 0 <= l < NUM_LEVELS :: b.levels[l] == Replayed(edits[..k], l)
  }

  lemma {:induction false} NextApplied(edits: seq<VersionEdit>, k: nat)
    requires k < |edits|
    ensures FieldsOf(edits[..k + 1]) == Override(FieldsOf(edits[..k]), edits[k])
    ensures forall l | 0 <= l < NUM_LEVELS ::
      Replayed(edits[..k + 1], l) == ApplyLevel(Replayed(edits[..k], l), edits[k], l)
  {
    assert edits[..k + 1][..k] == edits[..k];
  }

  lemma {:induction false} WrittenRecord(st: Storage, name: seq<Byte>, edits: seq<VersionEdit>, versions: seq<Levels>,
                                         k: nat)
    requires Written(st, name, edits, versions) && k < |edits|
    ensures ReadRecord(st, Records(st, edits)[k]) == Some(edits[k])
    ensures edits[k].comparator.Some? ==> edits[k].comparator.value == name
  {
    assert edits[k] in edits;
    RecordReads(st, edits[k]);
  }

  /** After at least two edits every number is there, and it is that of the last edit. */
  lemma {:induction false} LastFields(st: Storage, name: seq<Byte>, edits: seq<VersionEdit>, versions: seq<Levels>,
                                      k: nat)
    requires Written(st, name, edits, versions) && k <= |edits|
    ensures k < 2 ==> FieldsOf(edits[..k]) == NO_FIELDS
    ensures k >= 2 ==> Complete(edits[k - 1])
    ensures k >= 2 ==>
      FieldsOf(edits[..k]) ==
      Fields(edits[k - 1].logNumber, edits[k - 1].prevLogNumber, edits[k - 1].nextFileNumber, edits[k - 1].lastSequence)
  {
    if k >= 1 { NextApplied(edits, k - 1); }
  }

  lemma {:induction false} FinishedVersion(st: Storage, name: seq<Byte>, edits: seq<VersionEdit>, versions: seq<Levels>,
                                           k: nat, v: Levels)
    requires Written(st, name, edits, versions) && k <= |edits|
    requires |v| == NUM_LEVELS && forall l | 0 <= l < NUM_LEVELS :: Saved([], Replayed(edits[..k], l), v[l])
    ensures v == versions[k]
  {
    ChainBefore(edits, versions, k);
    EntersBefore(edits, k);
    ReplaySaves(edits[..k], versions[..k + 1], v);
  }

  /** Recovery has read the first records of a log that was written for these edits, perhaps cut off. */
  ghost predicate Underway(st: Storage, crc: Log.Crc, name: seq<Byte>, file: seq<Byte>, edits: seq<VersionEdit>,
                           versions: seq<Levels>, found: seq<seq<Byte>>, p: nat) {
    Log.Composes(crc) && Written(st, name, edits, versions) && Log.ReadSoFar(crc, file, Records(st, edits), found, p)
  }

  ghost predicate Continuing(st: Storage, name: seq<Byte>, reader: Log.Reader, b: Builder, fields: Fields,
                             edits: seq<VersionEdit>, versions: seq<Levels>, found: seq<seq<Byte>>)
    requires reader.Ok()
    reads reader, b
  {
    reader.reports == [] && Applied(st, edits, |found|, b, fields) &&
    Underway(st, reader.crc, name, reader.file, edits, versions, found, reader.Pos())
  }

  /** What is known about the next record. */
  lemma {:induction false} NextRecord(st: Storage, name: seq<Byte>, edits: seq<VersionEdit>, versions: seq<Levels>,
                                      k: nat, record: seq<Byte>)
    requires Written(st, name, edits, versions) && k < |edits| && record == Records(st, edits)[k]
    ensures ReadRecord(st, record) == Some(edits[k]) &&
      (edits[k].comparator.Some? ==> edits[k].comparator.value == name)
    ensures FieldsOf(edits[..k + 1]) == Override(FieldsOf(edits[..k]), edits[k])
    ensures forall l | 0 <= l < NUM_LEVELS ::
      Replayed(edits[..k + 1], l) == ApplyLevel(Replayed(edits[..k], l), edits[k], l)
  {
    WrittenRecord(st, name, edits, versions, k);
    NextApplied(edits, k);
  }

  method ApplyNext(st: Storage, name: seq<Byte>, record: seq<Byte>, b: Builder, fields: Fields,
                   ghost edits: seq<VersionEdit>, ghost versions: seq<Levels>, ghost k: nat)
    returns (problem: Option<string>, fields': Fields)
    requires BuilderOk(b)
    modifies b
    ensures BuilderOk(b)
    ensures (Written(st, name, edits, versions) && k < |edits| && record == Record(st, edits[k]) &&
        old(Applied(st, edits, k, b, fields))) ==>
      problem.None? && Applied(st, edits, k + 1, b, fields')
  {
    if Written(st, name, edits, versions) && k < |edits| && record == Record(st, edits[k]) {
      NextRecord(st, name, edits, versions, k, record);
    }
    problem, fields' := ApplyRecord(st, name, record, b, fields);
  }

  /** One round: reads a record and applies it. */
  method RecoverNext(st: Storage, name: seq<Byte>, reader: Log.Reader, b: Builder, fields: Fields,
                     ghost edits: seq<VersionEdit>, ghost versions: seq<Levels>, ghost found: seq<seq<Byte>>)
    returns (more: bool, problem: Option<string>, fields': Fields, ghost record: seq<Byte>)
    requires reader.Ok() && BuilderOk(b)
    modifies reader, b
    ensures reader.Ok() && BuilderOk(b) && (more && problem.None? ==> reader.Pos() > old(reader.Pos()))
    ensures old(Continuing(st, name, reader, b, fields, edits, versions, found)) ==>
      problem.None? &&
      (if more then Continuing(st, name, reader, b, fields', edits, versions, found + [record])
       else (Log.HoldsWhole(reader.crc, Records(st, edits), |reader.file|, |found|) &&
         Applied(st, edits, |found|, b, fields')))
  {
    problem, fields' := None, fields;
    var next;
    more, next := Log.ReadAnother(reader, Records(st, edits), found);
    record := next;
    if |reader.reports| > 0 {
      problem := Some("corruption");
      return;
    }
    if !more {
      return;
    }
    problem, fields' := ApplyNext(st, name, next, b, fields, edits, versions, |found|);
  }

  /** Reads the descriptor log and rebuilds the version. If the log is what was written, cut off anywhere, the result is
      the version after as many edits as are whole. */
  method Recover(st: Storage, crc: Log.Crc, name: seq<Byte>, file: seq<Byte>, ghost edits: seq<VersionEdit>,
                 ghost versions: seq<Levels>)
    returns (r: Recovered, ghost k: nat)
    ensures Log.Composes(crc) && Written(st, name, edits, versions) && file <= Log.LogBytes(crc, Records(st, edits)) ==>
      Log.HoldsWhole(crc, Records(st, edits), |file|, k) && RecoversTo(edits, versions, k, r)
  {
    ghost var expected := Log.Composes(crc) && Written(st, name, edits, versions) &&
      file <= Log.LogBytes(crc, Records(st, edits));
    ghost var found := [];
    var reader := new Log.Reader(crc, true, file);
    var b := new Builder(EMPTY_LEVELS);
    var fields := NO_FIELDS;
    if expected { RecoveryStarts(st, crc, name, file, edits, versions, b); }
    while true
      invariant fresh(reader) && fresh(b) && reader.Ok() && reader.crc == crc && reader.file == file && BuilderOk(b)
      invariant expected ==> Continuing(st, name, reader, b, fields, edits, versions, found)
      decreases |file| - reader.Pos()
    {
      var more, problem;
      ghost var record;
      more, problem, fields, record := RecoverNext(st, name, reader, b, fields, edits, versions, found);
      if problem.Some? {
        return Failed(problem.value), |found|;
      }
      if !more {
        break;
      }
      found := found + [record];
    }
    k := |found|;
    r := Finish(b, fields);
    if expected { RecoveredVersion(st, name, edits, versions, k, b, fields, r); }
  }

  lemma {:induction false} RecoveryStarts(st: Storage, crc: Log.Crc, name: seq<Byte>, file: seq<Byte>,
                                          edits: seq<VersionEdit>, versions: seq<Levels>, b: Builder)
    requires Log.Composes(crc) && Written(st, name, edits, versions) && file <= Log.LogBytes(crc, Records(st, edits))
    requires b.levels == seq(NUM_LEVELS, _ => NoChange)
    ensures Underway(st, crc, name, file, edits, versions, [], 0) && Applied(st, edits, 0, b, NO_FIELDS)
  {
    Log.AtStart(crc, file, Records(st, edits));
    assert edits[..0] == [];
  }

  lemma {:induction false} RecoveredVersion(st: Storage, name: seq<Byte>, edits: seq<VersionEdit>,
                                            versions: seq<Levels>, k: nat, b: Builder, fields: Fields, r: Recovered)
    requires Written(st, name, edits, versions) && k <= |edits| && Applied(st, edits, k, b, fields)
    requires Finished(b, fields, r)
    ensures RecoversTo(edits, versions, k, r)
  {
    LastFields(st, name, edits, versions, k);
    if k >= 2 { FinishedVersion(st, name, edits, versions, k, r.levels); }
  }
}
