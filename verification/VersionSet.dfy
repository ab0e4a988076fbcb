/** The object that applies edits to the current version and logs them. */
module VersionSet {
  import opened Format
  import opened Tree
  import opened Versions
  import opened Install
  import opened Edits
  import opened Replay
  import opened Coding
  import opened Manifest
  import Log

  // ---- Snapshots of a version ----

  /** Additions of every file of the first n levels. */
  function SnapshotFiles(levels: Levels, n: nat): seq<(nat, File)>
    requires n <= |levels|
  {
    if n == 0 then [] else SnapshotFiles(levels, n - 1) + Additions(n - 1, levels[n - 1])
  }

  ghost predicate LevelsDistinct(levels: Levels) {
    |levels| == NUM_LEVELS && LevelsInOrder(levels) && forall l | 0 <= l < NUM_LEVELS :: OwnNumbers(levels[l])
  }

  lemma {:induction false} SnapshotLevels(levels: Levels, n: nat)
    requires n <= |levels|
    ensures forall x | x in SnapshotFiles(levels, n) :: x.0 < n && x.1 in levels[x.0]
  {
    if n > 0 { SnapshotLevels(levels, n - 1); }
  }

  lemma {:induction false} SnapshotAt(levels: Levels, n: nat, l: nat)
    requires n <= |levels|
    ensures NewAt(SnapshotFiles(levels, n), l) == if l < n then set f | f in levels[l] else {}
  {
    if n > 0 {
      SnapshotAt(levels, n - 1, l);
      AdditionsAt(n - 1, levels[n - 1], l);
      NewAtSplit(SnapshotFiles(levels, n - 1), Additions(n - 1, levels[n - 1]), l);
    }
  }

  lemma {:induction false} NewAtSplit(a: seq<(nat, File)>, b: seq<(nat, File)>, l: nat)
    ensures NewAt(a + b, l) == NewAt(a, l) + NewAt(b, l)
  {
  }

  lemma {:induction false} SnapshotFresh(levels: Levels, n: nat, l: nat)
    requires n <= |levels| && forall m | 0 <= m < |levels| :: OwnNumbers(levels[m])
    ensures FreshNumbers([], SnapshotFiles(levels, n), l)
  {
    if n > 0 {
      SnapshotFresh(levels, n - 1, l);
      SnapshotLevels(levels, n - 1);
      var a, b := SnapshotFiles(levels, n - 1), Additions(n - 1, levels[n - 1]);
      var all: seq<(nat, File)> := a + b;
      forall i, j | 0 <= i < j < |all| && all[i].0 == l && all[j].0 == l
        ensures all[i].1.number != all[j].1.number
      {
        assert i < |a| ==> a[i] in a;
      }
    }
  }

  /** The snapshot makes the version out of nothing. */
  lemma {:induction false} SnapshotSaves(levels: Levels, snapshot: VersionEdit)
    requires LevelsDistinct(levels) && snapshot.newFiles == SnapshotFiles(levels, NUM_LEVELS) &&
      snapshot.deletedFiles == []
    ensures SavedAll(EMPTY_LEVELS, snapshot, levels)
    ensures forall l | 0 <= l < NUM_LEVELS :: FreshNumbers([], snapshot.newFiles, l)
    ensures forall l, f | 0 <= l < NUM_LEVELS :: f in ApplyLevel(NoChange, snapshot, l).added <==> f in levels[l]
  {
    forall l | 0 <= l < NUM_LEVELS
      ensures FreshNumbers([], snapshot.newFiles, l) &&
        Saved(EMPTY_LEVELS[l], ApplyLevel(NoChange, snapshot, l), levels[l])
      ensures forall f :: f in ApplyLevel(NoChange, snapshot, l).added <==> f in levels[l]
    {
      SnapshotFresh(levels, NUM_LEVELS, l);
      SnapshotAt(levels, NUM_LEVELS, l);
      AppliedMembers(NoChange, snapshot, l);
      assert EMPTY_LEVELS[l] == [];
    }
  }

  // ---- One more edit ----

  /** The log grows by one complete edit. */
  lemma {:induction false} WrittenGrows(st: Storage, name: seq<Byte>, edits: seq<VersionEdit>, versions: seq<Levels>,
                                        edit: VersionEdit, v: Levels)
    requires Written(st, name, edits, versions) && |edits| > 0
    requires FreshFor(edits, edit) && SavedAll(versions[|edits|], edit, v) && Encodable(st, edit) && Complete(edit) &&
      edit.comparator.None?
    ensures Written(st, name, edits + [edit], versions + [v])
    ensures Records(st, edits + [edit]) == Records(st, edits) + [Record(st, edit)]
  {
    ChainGrows(edits, versions, edit, v);
    assert (edits + [edit])[..1] == edits[..1];
  }

  lemma {:induction false} WrittenStarts(st: Storage, name: seq<Byte>, snapshot: VersionEdit, levels: Levels)
    requires StorageOk(st) && LevelsDistinct(levels) && Encodable(st, snapshot)
    requires snapshot.newFiles == SnapshotFiles(levels, NUM_LEVELS) && snapshot.deletedFiles == [] &&
      snapshot.comparator == Some(name)
    requires snapshot.logNumber.None? && snapshot.prevLogNumber.None? && snapshot.nextFileNumber.None? &&
      snapshot.lastSequence.None?
    ensures Written(st, name, [snapshot], [EMPTY_LEVELS, levels])
    ensures Records(st, [snapshot]) == [Record(st, snapshot)]
  {
    SnapshotSaves(levels, snapshot);
    var edits, versions := [snapshot], [EMPTY_LEVELS, levels];
    assert edits[..0] == [] && edits[..1] == edits;
    assert FieldsOf(edits[..1]) == Override(FieldsOf([]), snapshot);
    assert SavedAll(versions[0], edits[0], versions[1]);
    assert forall l | 0 <= l < NUM_LEVELS :: Replayed([], l).added == [];
  }

  // ---- Numbers stay distinct ----

  lemma {:induction false} AddedNumbersDistinct(edits: seq<VersionEdit>, l: nat)
    requires EntersOnce(edits) && l < NUM_LEVELS
    ensures forall f, g | f in Replayed(edits, l).added && g in Replayed(edits, l).added &&
      f.number == g.number :: f == g
  {
    if |edits| > 0 {
      var n := |edits| - 1;
      EntersBefore(edits, n);
      AddedNumbersDistinct(edits[..n], l);
      ReplayedOrdered(edits[..n], l);
      AppliedMembers(Replayed(edits[..n], l), edits[n], l);
      NewNumbersDistinct(Replayed(edits[..n], l).added, edits[n].newFiles, l);
    }
  }

  lemma {:induction false} NewNumbersDistinct(added: seq<File>, newFiles: seq<(nat, File)>, l: nat)
    requires FreshNumbers(added, newFiles, l)
    ensures forall f, g | f in NewAt(newFiles, l) && g in NewAt(newFiles, l) && f.number == g.number :: f == g
    ensures forall f, g | f in NewAt(newFiles, l) && g in added :: f.number != g.number
  {
    forall f | f in NewAt(newFiles, l)
      ensures exists i :: 0 <= i < |newFiles| && newFiles[i].0 == l && newFiles[i].1 == f
    {
      var x :| x in newFiles && x.0 == l && x.1 == f;
    }
  }

  /** Freshness depends only on which files have entered. */
  lemma {:induction false} SameFresh(a: seq<File>, b: seq<File>, newFiles: seq<(nat, File)>, l: nat)
    requires FreshNumbers(a, newFiles, l) && forall f | f in b :: f in a
    ensures FreshNumbers(b, newFiles, l)
  {
  }

  /** The files of the current version have entered. */
  lemma {:induction false} CurrentEntered(edits: seq<VersionEdit>, versions: seq<Levels>, l: nat)
    requires Chain(edits, versions) && EntersOnce(edits) && l < NUM_LEVELS
    ensures |versions[|edits|]| == NUM_LEVELS && forall f | f in versions[|edits|][l] :: f in Replayed(edits, l).added
  {
    ReplayIsVersion(edits, versions, l);
  }

  lemma {:induction false} EditCompatible(base: seq<File>, edit: VersionEdit, l: nat)
    requires InOrder(base) && FreshNumbers(base, edit.newFiles, l)
    ensures Compatible(base, ApplyLevel(NoChange, edit, l))
  {
    FreshAlone(base, edit.newFiles, l);
    AppliedMembers(NoChange, edit, l);
    NewNumbersDistinct(base, edit.newFiles, l);
  }

  lemma {:induction false} SavedDistinct(base: Levels, edit: VersionEdit, v: Levels)
    requires LevelsDistinct(base) && SavedAll(base, edit, v)
    requires forall l | 0 <= l < NUM_LEVELS :: FreshNumbers(base[l], edit.newFiles, l)
    ensures LevelsDistinct(v)
    ensures forall l, f | 0 <= l < NUM_LEVELS && f in v[l] :: f in base[l] || f in NewAt(edit.newFiles, l)
  {
    forall l | 0 <= l < NUM_LEVELS
      ensures InOrder(v[l]) && OwnNumbers(v[l])
      ensures forall f | f in v[l] :: f in base[l] || f in NewAt(edit.newFiles, l)
    {
      SavedLevelDistinct(base[l], edit, l, v[l]);
    }
  }

  lemma {:induction false} SavedLevelDistinct(base: seq<File>, edit: VersionEdit, l: nat, files: seq<File>)
    requires OwnNumbers(base) && FreshNumbers(base, edit.newFiles, l) &&
      Saved(base, ApplyLevel(NoChange, edit, l), files)
    ensures OwnNumbers(files) && forall f | f in files :: f in base || f in NewAt(edit.newFiles, l)
  {
    FreshAlone(base, edit.newFiles, l);
    AppliedMembers(NoChange, edit, l);
    NewNumbersDistinct(base, edit.newFiles, l);
    forall i, j | 0 <= i < j < |files| ensures files[i].number != files[j].number {
      assert files[i] in files && files[j] in files;
      assert ByLess(files[i], files[j]);
      assert files[i] != files[j];
    }
  }

  function SetPointers(pointers: seq<Option<Key>>, updates: seq<(nat, Key)>): seq<Option<Key>>
    requires forall u | u in updates :: u.0 < |pointers|
    ensures |SetPointers(pointers, updates)| == |pointers|
  {
    if |updates| == 0 then pointers else
      var n := |updates| - 1;
      assert updates[n] in updates;
      SetPointers(pointers, updates[..n])[updates[n].0 := Some(updates[n].1)]
  }

  lemma {:induction false} SetPointersFit(storage: Storage, pointers: seq<Option<Key>>, updates: seq<(nat, Key)>)
    requires forall u | u in updates :: u.0 < |pointers| && EditCodec.KeyFits(storage.encodeKey(u.1))
    requires forall l | 0 <= l < |pointers| &&
      pointers[l].Some? :: EditCodec.KeyFits(storage.encodeKey(pointers[l].value))
    ensures forall l | 0 <= l < |pointers| && SetPointers(pointers, updates)[l].Some? ::
      EditCodec.KeyFits(storage.encodeKey(SetPointers(pointers, updates)[l].value))
  {
    if |updates| > 0 {
      var n := |updates| - 1;
      assert updates[n] in updates;
      SetPointersFit(storage, pointers, updates[..n]);
    }
  }

  /** Files and pointers that a descriptor can hold. */
  ghost predicate Storable(storage: Storage, levels: Levels, pointers: seq<Option<Key>>) {
    |pointers| == NUM_LEVELS && FilesFit(storage, levels) &&
    forall l | 0 <= l < |pointers| && pointers[l].Some? :: EditCodec.KeyFits(storage.encodeKey(pointers[l].value))
  }

  ghost predicate FilesFit(storage: Storage, levels: Levels) {
    forall l, f | 0 <= l < |levels| && f in levels[l] :: FileFits(storage, f)
  }

  lemma {:induction false} NextFilesFit(storage: Storage, levels: Levels, edit: VersionEdit, v: Levels)
    requires FilesFit(storage, levels) && Encodable(storage, edit) && |levels| == |v| == NUM_LEVELS
    requires forall l, f | 0 <= l < NUM_LEVELS && f in v[l] :: f in levels[l] || f in NewAt(edit.newFiles, l)
    ensures FilesFit(storage, v)
  {
  }

  lemma {:induction false} StartedReplay(levels: Levels, snapshot: VersionEdit)
    requires LevelsDistinct(levels) && snapshot.newFiles == SnapshotFiles(levels, NUM_LEVELS) &&
      snapshot.deletedFiles == []
    ensures forall l, f | 0 <= l < NUM_LEVELS :: f in Replayed([snapshot], l).added <==> f in levels[l]
  {
    SnapshotSaves(levels, snapshot);
    forall l ensures Replayed([snapshot], l) == ApplyLevel(NoChange, snapshot, l) { assert [snapshot][..0] == []; }
  }

  /** An edit that is new to the version is new to a log that starts with it. */
  lemma {:induction false} FreshForSnapshot(levels: Levels, snapshot: VersionEdit, edit: VersionEdit)
    requires LevelsDistinct(levels) && snapshot.newFiles == SnapshotFiles(levels, NUM_LEVELS) &&
      snapshot.deletedFiles == []
    requires forall l | 0 <= l < NUM_LEVELS :: FreshNumbers(levels[l], edit.newFiles, l)
    ensures FreshFor([snapshot], edit)
  {
    StartedReplay(levels, snapshot);
    forall l | 0 <= l < NUM_LEVELS ensures FreshNumbers(Replayed([snapshot], l).added, edit.newFiles, l) {
      SameFresh(levels[l], Replayed([snapshot], l).added, edit.newFiles, l);
    }
  }

  class VersionSet {
    const storage: Storage
    const crc: Log.Crc
    /** Name of the user comparator. */
    const name: seq<Byte>
    var current: Levels
    var compactPointers: seq<Option<Key>>
    var logNumber: nat
    var prevLogNumber: nat
    var nextFileNumber: nat
    var lastSequence: nat
    var descriptorLog: Log.Writer?
    /** The snapshot and the edits logged since, and the versions they made. */
    ghost var edits: seq<VersionEdit>
    ghost var versions: seq<Levels>

    ghost predicate Ok()
      reads this, descriptorLog
    {
      Base() && if descriptorLog == null then edits == [] else Logging() && |edits| >= 2 && Current(edits[|edits| - 1])
    }

    ghost predicate Base()
      reads this`current, this`compactPointers
    {
      StorageOk(storage) && |name| < 0x1_0000_0000 && LevelsDistinct(current) &&
        Storable(storage, current, compactPointers)
    }

    /** The log holds the snapshot and the edits; the last version is the current one. */
    ghost predicate Logging()
      reads this`current, this`descriptorLog, this`edits, this`versions, descriptorLog
    {
      descriptorLog != null && descriptorLog.Ok() && descriptorLog.crc == crc &&
        descriptorLog.records == Records(storage, edits) &&
      |edits| >= 1 && Written(storage, name, edits, versions) && versions[|edits|] == current
    }

    /** The numbers are those of the last edit. */
    ghost predicate Current(last: VersionEdit)
      reads this
    {
      last.logNumber == Some(logNumber) && last.prevLogNumber == Some(prevLogNumber)
    }

    constructor (storage: Storage, crc: Log.Crc, name: seq<Byte>)
      requires StorageOk(storage) && |name| < 0x1_0000_0000
      ensures Ok() && descriptorLog == null && current == EMPTY_LEVELS
      ensures this.storage == storage && this.crc == crc && this.name == name
    {
      this.storage := storage;
      this.crc := crc;
      this.name := name;
      current := EMPTY_LEVELS;
      compactPointers := seq(NUM_LEVELS, _ => None);
      logNumber, prevLogNumber, nextFileNumber, lastSequence := 0, 0, 2, 0;
      descriptorLog := null;
      edits, versions := [], [EMPTY_LEVELS];
    }

    /** The pointers that are set. */
    function PointersUpTo(n: nat): seq<(nat, Key)>
      requires n <= |compactPointers|
      reads this
    {
      if n == 0 then []
      else PointersUpTo(n - 1) + if compactPointers[n - 1].Some? then [(n - 1, compactPointers[n - 1].value)] else []
    }

    /** The edit that makes the current version out of nothing. */
    function Snapshot(): VersionEdit
      requires |current| == |compactPointers| == NUM_LEVELS
      reads this
    {
      VersionEdit(Some(name), None, None, None, None, PointersUpTo(NUM_LEVELS), [], SnapshotFiles(current, NUM_LEVELS))
    }

    lemma {:induction false} PointersFit(n: nat)
      requires Storable(storage, current, compactPointers) && n <= NUM_LEVELS
      ensures forall c | c in PointersUpTo(n) :: c.0 < n && EditCodec.KeyFits(storage.encodeKey(c.1))
    {
      if n > 0 { PointersFit(n - 1); }
    }

    lemma {:induction false} SnapshotEncodable()
      requires Storable(storage, current, compactPointers) && |name| < 0x1_0000_0000 && |current| == NUM_LEVELS
      ensures Encodable(storage, Snapshot())
    {
      PointersFit(NUM_LEVELS);
      SnapshotLevels(current, NUM_LEVELS);
    }

    /** Starts a descriptor log with a snapshot of the current version. */
    method WriteSnapshot() returns (log: Log.Writer, ghost snapshot: VersionEdit)
      requires Base()
      ensures fresh(log) && log.Ok() && log.crc == crc && log.records == Records(storage, [snapshot])
      ensures snapshot == Snapshot() && Written(storage, name, [snapshot], [EMPTY_LEVELS, current])
    {
      SnapshotEncodable();
      var edit := Snapshot();
      WrittenStarts(storage, name, edit, current);
      WireFits(storage, edit);
      log := new Log.Writer(crc, [], []);
      var record := EditCodec.EncodeTo(WireOf(storage, edit));
      log.AddRecord(record);
      snapshot := edit;
    }

    /** The edit with the numbers it does not set itself. */
    function Filled(edit: VersionEdit): VersionEdit
      reads this
    {
      edit.(logNumber := if edit.logNumber.Some? then edit.logNumber else Some(logNumber),
            prevLogNumber := if edit.prevLogNumber.Some? then edit.prevLogNumber else Some(prevLogNumber),
            nextFileNumber := Some(nextFileNumber), lastSequence := Some(lastSequence))
    }

    /** No number of the edit's files has been in its level before. */
    ghost predicate Fresh(edit: VersionEdit)
      requires |current| == NUM_LEVELS
      reads this
    {
      forall l | 0 <= l < NUM_LEVELS ::
        FreshNumbers(if descriptorLog == null then current[l] else Replayed(edits, l).added, edit.newFiles, l)
    }

    lemma {:induction false} FreshForCurrent(edit: VersionEdit)
      requires Ok() && Fresh(edit)
      ensures forall l | 0 <= l < NUM_LEVELS :: FreshNumbers(current[l], edit.newFiles, l)
    {
      forall l | 0 <= l < NUM_LEVELS ensures FreshNumbers(current[l], edit.newFiles, l) {
        if descriptorLog != null {
          CurrentEntered(edits, versions, l);
          SameFresh(Replayed(edits, l).added, current[l], edit.newFiles, l);
        }
      }
    }

    /** The version that the edit makes of the current one. */
    method NextVersion(edit: VersionEdit) returns (v: Levels)
      requires Ok() && Fresh(edit) && EditOk(edit)
      ensures SavedAll(current, edit, v) && LevelsDistinct(v)
      ensures if descriptorLog == null then forall l | 0 <= l < NUM_LEVELS :: FreshNumbers(current[l], edit.newFiles, l)
        else FreshFor(edits, edit)
      ensures forall l, f | 0 <= l < NUM_LEVELS && f in v[l] :: f in current[l] || f in NewAt(edit.newFiles, l)
    {
      FreshForCurrent(edit);
      forall l | 0 <= l < NUM_LEVELS ensures Compatible(current[l], ApplyLevel(NoChange, edit, l)) {
        EditCompatible(current[l], edit, l);
      }
      v := Edits.LogAndApply(current, edit);
      SavedDistinct(current, edit, v);
    }

    method UpdatePointers(updates: seq<(nat, Key)>)
      requires Base() && forall u | u in updates :: u.0 < NUM_LEVELS && EditCodec.KeyFits(storage.encodeKey(u.1))
      modifies this`compactPointers
      ensures Base() && compactPointers == SetPointers(old(compactPointers), updates)
    {
      SetPointersFit(storage, compactPointers, updates);
      compactPointers := SetPointers(compactPointers, updates);
    }

    /** Opens the descriptor log. */
    method StartLog(ghost edit: VersionEdit)
      requires Base() && descriptorLog == null &&
        forall l | 0 <= l < NUM_LEVELS :: FreshNumbers(current[l], edit.newFiles, l)
      modifies this`descriptorLog, this`edits, this`versions
      ensures Base() && Logging() && fresh(descriptorLog) && FreshFor(edits, edit)
    {
      ghost var snapshot;
      descriptorLog, snapshot := WriteSnapshot();
      edits, versions := [snapshot], [EMPTY_LEVELS, current];
      FreshForSnapshot(current, snapshot, edit);
    }

    method LogEdit(edit: VersionEdit)
      requires StorageOk(storage) && descriptorLog != null && descriptorLog.Ok() && Encodable(storage, edit)
      modifies descriptorLog
      ensures descriptorLog.Ok() && descriptorLog.records == old(descriptorLog.records) + [Record(storage, edit)]
    {
      WireFits(storage, edit);
      var record := EditCodec.EncodeTo(WireOf(storage, edit));
      descriptorLog.AddRecord(record);
    }

    /** Logs an edit and installs its version. */
    method Append(edit: VersionEdit, v: Levels)
      requires Base() && Logging() && FreshFor(edits, edit) && SavedAll(current, edit, v) && LevelsDistinct(v) &&
        FilesFit(storage, v)
      requires Encodable(storage, edit) && Complete(edit) && edit.comparator.None?
      modifies this`current, this`logNumber, this`prevLogNumber, this`edits, this`versions, descriptorLog
      ensures Ok() && descriptorLog != null && current == v && edits == old(edits) + [edit] &&
        versions == old(versions) + [v]
    {
      WrittenGrows(storage, name, edits, versions, edit, v);
      LogEdit(edit);
      edits, versions := edits + [edit], versions + [v];
      current := v;
      logNumber, prevLogNumber := edit.logNumber.value, edit.prevLogNumber.value;
    }

    /** Logs an edit, behind a snapshot if it is the first, and installs its version. */
    method Install(edit: VersionEdit, v: Levels)
      requires Base() && (descriptorLog != null ==> Logging() && FreshFor(edits, edit))
      requires descriptorLog == null ==> forall l | 0 <= l < NUM_LEVELS :: FreshNumbers(current[l], edit.newFiles, l)
      requires SavedAll(current, edit, v) && LevelsDistinct(v) && FilesFit(storage, v)
      requires Encodable(storage, edit) && Complete(edit) && edit.comparator.None?
      modifies this`current, this`logNumber, this`prevLogNumber, this`descriptorLog, this`edits, this`versions,
        descriptorLog
      ensures Ok() && descriptorLog != null && (descriptorLog == old(descriptorLog) || fresh(descriptorLog))
      ensures current == v && |edits| > 0 && edits[|edits| - 1] == edit
      ensures old(descriptorLog) != null ==> edits == old(edits) + [edit] && versions == old(versions) + [v]
    {
      if descriptorLog == null {
        StartLog(edit);
      }
      Append(edit, v);
    }

    /** The same for an edit with all its numbers. */
    method Advance(edit: VersionEdit)
      requires Ok() && Fresh(edit) && Encodable(storage, edit) && Complete(edit) && edit.comparator.None?
      modifies this, descriptorLog
      ensures Ok() && descriptorLog != null && (descriptorLog == old(descriptorLog) || fresh(descriptorLog))
      ensures SavedAll(old(current), edit, current) &&
        compactPointers == SetPointers(old(compactPointers), edit.compactPointers)
      ensures nextFileNumber == old(nextFileNumber) && lastSequence == old(lastSequence)
      ensures |edits| > 0 && edits[|edits| - 1] == edit
      ensures old(descriptorLog) != null ==> edits == old(edits) + [edit] && versions == old(versions) + [current]
    {
      var v := NextVersion(edit);
      NextFilesFit(storage, current, edit, v);
      UpdatePointers(edit.compactPointers);
      Install(edit, v);
    }

    /** Applies an edit to the current version, logs it, and installs the result. The first call opens the log. */
    method LogAndApply(edit0: VersionEdit)
      requires Ok() && Fresh(edit0) && Encodable(storage, Filled(edit0)) && edit0.comparator.None?
      modifies this, descriptorLog
      ensures Ok() && descriptorLog != null && (descriptorLog == old(descriptorLog) || fresh(descriptorLog))
      ensures SavedAll(old(current), old(Filled(edit0)), current)
      ensures compactPointers == SetPointers(old(compactPointers), edit0.compactPointers)
      ensures nextFileNumber == old(nextFileNumber) && lastSequence == old(lastSequence)
      ensures |edits| > 0 && edits[|edits| - 1] == old(Filled(edit0))
      ensures var e := edits[|edits| - 1];
        e.newFiles == edit0.newFiles && e.deletedFiles == edit0.deletedFiles &&
        e.nextFileNumber == Some(old(nextFileNumber)) && e.lastSequence == Some(old(lastSequence)) &&
        e.logNumber == Some(logNumber) && e.prevLogNumber == Some(prevLogNumber)
      ensures logNumber == if edit0.logNumber.Some? then edit0.logNumber.value else old(logNumber)
      ensures prevLogNumber == if edit0.prevLogNumber.Some? then edit0.prevLogNumber.value else old(prevLogNumber)
      ensures old(descriptorLog) != null ==>
        edits == old(edits) + [old(Filled(edit0))] && versions == old(versions) + [current]
    {
      Advance(Filled(edit0));
    }
  }

  /** Recovery from the first n bytes of the descriptor log gives the version after the edits that those bytes hold
      whole; from all of them, the current version. */
  method RecoverFrom(vs: VersionSet, n: nat) returns (r: Recovered, ghost k: nat)
    requires vs.Ok() && vs.descriptorLog != null && n <= |vs.descriptorLog.dest|
    ensures Log.Composes(vs.crc) ==>
      Log.HoldsWhole(vs.crc, Records(vs.storage, vs.edits), n, k) && RecoversTo(vs.edits, vs.versions, k, r)
    ensures Log.Composes(vs.crc) && n == |vs.descriptorLog.dest| ==>
      r.Recovered? && r.levels == vs.current && r.logNumber == vs.logNumber && r.prevLogNumber == vs.prevLogNumber
  {
    var file := vs.descriptorLog.dest[..n];
    r, k := Recover(vs.storage, vs.crc, vs.name, file, vs.edits, vs.versions);
    if Log.Composes(vs.crc) && n == |vs.descriptorLog.dest| {
      Log.HoldsAll(vs.crc, Records(vs.storage, vs.edits), k);
    }
  }
}
