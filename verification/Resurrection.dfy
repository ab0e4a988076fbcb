/** A run of the database, from its empty state on, in which a deleted value comes back. */
module Resurrection {
  import opened Format
  import opened Tree
  import opened Compaction
  import opened Drop
  import opened Install
  import opened Work
  import opened Store

  const OLD := Entry(Key(5, 1, Value), "old")
  const DELETED := Entry(Key(7, 2, Value), "x")
  const TOMBSTONE := Entry(Key(7, 3, Deletion), "")
  const NEW := Entry(Key(5, 4, Value), "new")

  /** A snapshot keeps the deleted value through the first compaction, which ends one output between the tombstone and
      it. */
  const FIRST_FLUSHED := File(1, 1, OLD.key, DELETED.key, [OLD, TOMBSTONE, DELETED])
  const FIRST_HALF := File(2, 1, OLD.key, TOMBSTONE.key, [OLD, TOMBSTONE])
  const SECOND_HALF := File(3, 1, DELETED.key, DELETED.key, [DELETED])

  /** A newer value of the other key makes the second compaction take the first half only. */
  const SECOND_FLUSHED := File(4, 1, NEW.key, NEW.key, [NEW])
  const COMPACTED := File(5, 1, NEW.key, NEW.key, [NEW])

  const EMPTY: Levels := [[], [], [], [], [], [], []]
  const FLUSHED: Levels := [[], [], [FIRST_FLUSHED], [], [], [], []]
  const SPLIT: Levels := [[], [], [], [FIRST_HALF, SECOND_HALF], [], [], []]
  const READY: Levels := [[], [], [SECOND_FLUSHED], [FIRST_HALF, SECOND_HALF], [], [], []]
  const BROKEN: Levels := [[], [], [], [COMPACTED, SECOND_HALF], [], [], []]

  const STATES: seq<State> := [
    State([], None, EMPTY, 0, [], 1, []),
    State([OLD, DELETED], None, EMPTY, 2, [], 1, [OLD, DELETED]),
    State([OLD, DELETED], None, EMPTY, 2, [2], 1, [OLD, DELETED]),
    State([OLD, TOMBSTONE, DELETED], None, EMPTY, 3, [2], 1, [OLD, DELETED, TOMBSTONE]),
    State([], Some([OLD, TOMBSTONE, DELETED]), EMPTY, 3, [2], 1, [OLD, DELETED, TOMBSTONE]),
    State([], None, FLUSHED, 3, [2], 2, [OLD, DELETED, TOMBSTONE]),
    State([], None, SPLIT, 3, [2], 4, [OLD, DELETED, TOMBSTONE]),
    State([], None, SPLIT, 3, [], 4, [OLD, DELETED, TOMBSTONE]),
    State([NEW], None, SPLIT, 4, [], 4, [OLD, DELETED, TOMBSTONE, NEW]),
    State([], Some([NEW]), SPLIT, 4, [], 4, [OLD, DELETED, TOMBSTONE, NEW]),
    State([], None, READY, 4, [], 5, [OLD, DELETED, TOMBSTONE, NEW]),
    State([], None, BROKEN, 4, [], 6, [OLD, DELETED, TOMBSTONE, NEW])]

  const ACTIONS: seq<Action> := [
    Write([Put(5, "old"), Put(7, "x")]),
    TakeSnapshot,
    Write([Delete(7)]),
    SwitchMemTable,
    Flush(2, Some(FIRST_FLUSHED)),
    Compact(2, [FIRST_FLUSHED], [], [OLD, TOMBSTONE, DELETED], [FIRST_HALF, SECOND_HALF]),
    ReleaseSnapshot(0),
    Write([Put(5, "new")]),
    SwitchMemTable,
    Flush(2, Some(SECOND_FLUSHED)),
    Compact(2, [SECOND_FLUSHED], [FIRST_HALF], [NEW, OLD, TOMBSTONE], [COMPACTED])]

  // ---- What the levels hold ----

  lemma {:induction false} OneFile(f: File)
    ensures LevelData([f]) == EntrySet(f.entries)
  {
    assert f in [f];
  }

  lemma {:induction false} TwoFiles(f: File, g: File)
    ensures LevelData([f, g]) == EntrySet(f.entries) + EntrySet(g.entries)
  {
    assert f in [f, g] && g in [f, g];
  }

  lemma {:induction false} NoFile()
    ensures LevelData([]) == {}
  {
  }

  lemma {:induction false} TwoLevels(levels: Levels)
    requires |levels| == 7 && forall l | 0 <= l < 7 && l != 2 && l != 3 :: levels[l] == []
    ensures TreeData(levels) == LevelData(levels[2]) + LevelData(levels[3])
  {
    NoFile();
  }

  lemma {:induction false} EmptyTree()
    ensures TreeData(EMPTY) == {}
  {
    TwoLevels(EMPTY);
    NoFile();
  }

  lemma {:induction false} SplitTree()
    ensures TreeData(SPLIT) == {OLD, TOMBSTONE, DELETED}
  {
    TwoLevels(SPLIT);
    NoFile();
    TwoFiles(FIRST_HALF, SECOND_HALF);
    assert EntrySet([OLD, TOMBSTONE]) == {OLD, TOMBSTONE} && EntrySet([DELETED]) == {DELETED};
  }

  lemma {:induction false} BrokenTree()
    ensures TreeData(BROKEN) == {NEW, DELETED}
  {
    TwoLevels(BROKEN);
    NoFile();
    TwoFiles(COMPACTED, SECOND_HALF);
    assert EntrySet([NEW]) == {NEW} && EntrySet([DELETED]) == {DELETED};
  }

  // ---- The steps ----

  lemma {:induction false} FirstWrite()
    ensures Next(STATES[0], ACTIONS[0], STATES[1])
  {
    FirstBatch();
    assert EntrySet([]) == {};
    assert [] + [OLD, DELETED] == [OLD, DELETED];
  }

  lemma {:induction false} FirstBatch()
    ensures BatchEntries([Put(5, "old"), Put(7, "x")], 0) == [OLD, DELETED]
  {
  }

  lemma {:induction false} SecondWrite()
    ensures Next(STATES[2], ACTIONS[2], STATES[3])
  {
    assert BatchEntries([Delete(7)], 2) == [TOMBSTONE];
    assert EntrySet([OLD, TOMBSTONE, DELETED]) == {OLD, TOMBSTONE, DELETED};
    assert EntrySet([OLD, DELETED]) == {OLD, DELETED} && EntrySet([TOMBSTONE]) == {TOMBSTONE};
    assert [OLD, DELETED] + [TOMBSTONE] == [OLD, DELETED, TOMBSTONE];
  }

  lemma {:induction false} ThirdWrite()
    ensures Next(STATES[7], ACTIONS[7], STATES[8])
  {
    assert BatchEntries([Put(5, "new")], 3) == [NEW];
    assert EntrySet([NEW]) == EntrySet([]) + EntrySet(BatchEntries([Put(5, "new")], 3));
    assert [OLD, DELETED, TOMBSTONE] + [NEW] == [OLD, DELETED, TOMBSTONE, NEW];
  }

  lemma {:induction false} Snapshots()
    ensures Next(STATES[1], ACTIONS[1], STATES[2]) && Next(STATES[6], ACTIONS[6], STATES[7])
  {
  }

  lemma {:induction false} Switches()
    ensures Next(STATES[3], ACTIONS[3], STATES[4]) && Next(STATES[8], ACTIONS[8], STATES[9])
  {
  }

  lemma {:induction false} FirstFlush()
    ensures Next(STATES[4], ACTIONS[4], STATES[5])
  {
    EmptyTree();
    assert Flushable(EMPTY, 2, FIRST_FLUSHED, 1);
    assert Added(EMPTY, FLUSHED, 2, FIRST_FLUSHED);
  }

  lemma {:induction false} SecondFlush()
    ensures Next(STATES[9], ACTIONS[9], STATES[10])
  {
    SplitTree();
    assert Flushable(SPLIT, 2, SECOND_FLUSHED, 4);
    assert Added(SPLIT, READY, 2, SECOND_FLUSHED);
  }

  lemma {:induction false} OverlappingNone(lo: int, hi: int)
    ensures Overlapping([], Some(lo), Some(hi)) == []
  {
  }

  lemma {:induction false} OverlappingFirst()
    ensures Overlapping([FIRST_HALF, SECOND_HALF], Some(5), Some(5)) == [FIRST_HALF]
  {
    var files := [FIRST_HALF, SECOND_HALF];
    assert files[..1] == [FIRST_HALF] && files[..0] == [] && files[..2] == files;
    OverlappingStep(files, 0, Some(5), Some(5));
    OverlappingStep(files, 1, Some(5), Some(5));
  }

  lemma {:induction false} SingleHull(f: File)
    requires FileOk(f)
    ensures IsHull([f], f.smallest, f.largest)
  {
    assert f in [f];
  }

  /** The inputs of both compactions are what the code chooses when it is handed the file of level 2. */
  lemma {:induction false} FirstChosen()
    ensures Chosen(FLUSHED, 2, [FIRST_FLUSHED], [], 0, 1)
  {
    SingleHull(FIRST_FLUSHED);
    OverlappingNone(5, 7);
    assert FLUSHED[2][0..1] == [FIRST_FLUSHED];
  }

  lemma {:induction false} SecondChosen()
    ensures Chosen(READY, 2, [SECOND_FLUSHED], [FIRST_HALF], 0, 1)
  {
    SingleHull(SECOND_FLUSHED);
    OverlappingFirst();
    assert READY[2][0..1] == [SECOND_FLUSHED];
  }

  lemma {:induction false} FirstClosed()
    ensures Closed(FLUSHED, 2, [FIRST_FLUSHED], [])
  {
    assert ClosedRange(FLUSHED, 2, [FIRST_FLUSHED], [], 5, 7);
  }

  lemma {:induction false} SecondClosed()
    ensures Closed(READY, 2, [SECOND_FLUSHED], [FIRST_HALF])
  {
    assert ClosedRange(READY, 2, [SECOND_FLUSHED], [FIRST_HALF], 5, 5);
  }

  lemma {:induction false} KeptStep(input: seq<Entry>, n: nat, smallest: nat, levels: Levels, level: nat)
    requires n < |input|
    ensures Kept(input, n + 1, smallest, levels, level) ==
      Kept(input, n, smallest, levels, level) + if Dropped(input, n, smallest, levels, level) then [] else [input[n]]
  {
  }

  /** The snapshot at 2 keeps everything. */
  lemma {:induction false} FirstKept()
    ensures Kept([OLD, TOMBSTONE, DELETED], 3, 2, FLUSHED, 2) == [OLD, TOMBSTONE, DELETED]
  {
    var input := [OLD, TOMBSTONE, DELETED];
    KeptStep(input, 0, 2, FLUSHED, 2);
    KeptStep(input, 1, 2, FLUSHED, 2);
    KeptStep(input, 2, 2, FLUSHED, 2);
  }

  /** The old value is hidden, and the tombstone is at its base level. */
  lemma {:induction false} SecondKept()
    ensures Kept([NEW, OLD, TOMBSTONE], 3, 4, READY, 2) == [NEW]
  {
    var input := [NEW, OLD, TOMBSTONE];
    KeptStep(input, 0, 4, READY, 2);
    KeptStep(input, 1, 4, READY, 2);
    KeptStep(input, 2, 4, READY, 2);
    assert Hidden(input, 1, 4) && Obsolete(TOMBSTONE, 4, READY, 2);
  }

  lemma {:induction false} ConcatTwo(f: File, g: File)
    ensures Concat([f, g]) == f.entries + g.entries && Concat([f]) == f.entries
  {
    assert [f, g][..1] == [f] && [f][..0] == [];
    assert Concat([f]) == Concat([]) + f.entries == f.entries;
    assert Concat([f, g]) == Concat([f]) + g.entries;
  }

  lemma {:induction false} FirstCompaction()
    ensures Next(STATES[5], ACTIONS[5], STATES[6])
  {
    FirstClosed();
    FirstKept();
    OneFile(FIRST_FLUSHED);
    NoFile();
    ConcatTwo(FIRST_HALF, SECOND_HALF);
    FirstReplaced();
    assert [OLD, TOMBSTONE] + [DELETED] == [OLD, TOMBSTONE, DELETED];
    assert Sorted([OLD, TOMBSTONE, DELETED]);
    CompactStepFrom(STATES[5], STATES[6], 2, [FIRST_FLUSHED], [], [OLD, TOMBSTONE, DELETED], [FIRST_HALF, SECOND_HALF]);
  }

  lemma {:induction false} FirstReplaced()
    ensures Replaced(FLUSHED, SPLIT, 2, [FIRST_FLUSHED], [], [FIRST_HALF, SECOND_HALF])
  {
  }

  lemma {:induction false} SecondInputs()
    ensures EntrySet([NEW, OLD, TOMBSTONE]) == InputData([SECOND_FLUSHED], [FIRST_HALF])
  {
    OneFile(SECOND_FLUSHED);
    OneFile(FIRST_HALF);
    assert EntrySet([NEW, OLD, TOMBSTONE]) == {NEW} + {OLD, TOMBSTONE};
    assert EntrySet([NEW]) == {NEW} && EntrySet([OLD, TOMBSTONE]) == {OLD, TOMBSTONE};
  }

  lemma {:induction false} SecondReplaced()
    ensures Replaced(READY, BROKEN, 2, [SECOND_FLUSHED], [FIRST_HALF], [COMPACTED])
  {
  }

  lemma {:induction false} SecondCompaction()
    ensures Next(STATES[10], ACTIONS[10], STATES[11])
  {
    SecondClosed();
    SecondKept();
    SecondInputs();
    SecondReplaced();
    ConcatTwo(COMPACTED, COMPACTED);
    assert Sorted([NEW, OLD, TOMBSTONE]);
    CompactStepFrom(STATES[10], STATES[11], 2, [SECOND_FLUSHED], [FIRST_HALF], [NEW, OLD, TOMBSTONE], [COMPACTED]);
  }

  lemma {:induction false} CompactStepFrom(s: State, s': State, level: nat, in0: seq<File>, in1: seq<File>,
                                           input: seq<Entry>, outs: seq<File>)
    requires level + 1 < NUM_LEVELS && Closed(s.levels, level, in0, in1)
    requires Sorted(input) && EntrySet(input) == InputData(in0, in1)
    requires Concat(outs) == Kept(input, |input|, Oldest(s), s.levels, level)
    requires Finished(outs, s.nextFile) && s.nextFile + |outs| <= s'.nextFile &&
      Replaced(s.levels, s'.levels, level, in0, in1, outs)
    requires s' == s.(levels := s'.levels, nextFile := s'.nextFile)
    ensures Next(s, Compact(level, in0, in1, input, outs), s')
  {
  }

  lemma {:induction false} WholeRun()
    ensures Run(STATES, ACTIONS)
  {
    FirstWrite();
    Snapshots();
    SecondWrite();
    Switches();
    FirstFlush();
    FirstCompaction();
    ThirdWrite();
    SecondFlush();
    SecondCompaction();
  }

  // ---- What a reader sees ----

  lemma {:induction false} ReadAfter()
    ensures Read(Data(STATES[11]), 7, 4) == Some("x")
  {
    BrokenTree();
    assert Data(STATES[11]) == {NEW, DELETED};
    assert IsNewest({NEW, DELETED}, 7, 4, DELETED);
    ReadNewest({NEW, DELETED}, 7, 4, DELETED);
  }

  lemma {:induction false} HistorySays()
    ensures HistoryRead([OLD, DELETED, TOMBSTONE, NEW], 7, 4) == None
  {
    var history := [OLD, DELETED, TOMBSTONE, NEW];
    assert history[..3][2] == TOMBSTONE;
  }

  /** The database can be brought, by steps that the code takes, from its empty state to one in which user key 7, which
      was deleted, reads as the deleted value. The inputs of both compactions are chosen as the code chooses them. */
  lemma {:induction false} DeletedValueReturns()
    ensures Run(STATES, ACTIONS)
    ensures Chosen(STATES[5].levels, 2, ACTIONS[5].in0, ACTIONS[5].in1, 0, 1)
    ensures Chosen(STATES[10].levels, 2, ACTIONS[10].in0, ACTIONS[10].in1, 0, 1)
    ensures HistoryRead(STATES[11].history, 7, 4) == None && Read(Data(STATES[11]), 7, 4) == Some("x")
    ensures exists states, actions :: Run(states, actions) && !Faithful(states[|actions|])
  {
    WholeRun();
    FirstChosen();
    SecondChosen();
    ReadAfter();
    HistorySays();
    assert Oldest(STATES[11]) == 4;
    assert !Faithful(STATES[|ACTIONS|]);
  }
}
