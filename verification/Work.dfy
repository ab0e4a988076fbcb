/** The merging loop of a compaction. */
module Work {
  import opened Format
  import opened Tree
  import opened Iterators
  import opened Drop
  import opened Cuts

  const MAX_GRANDPARENT_FACTOR: nat := 10

  /** State a compaction keeps while it walks its merged inputs. */
  class CompactionState {
    const level: nat
    const version: Levels
    const grandparents: seq<File>
    const targetFileSize: nat
    var grandparentIndex: nat
    var seenKey: bool
    var overlappedBytes: nat
    /** Where the grandparents that the current output overlaps begin. */
    ghost var overlapFrom: nat
    /** For each level, how far the user keys asked about so far have moved past its files. */
    const levelPtrs: array<nat>
    /** The last user key asked about. */
    ghost var lastUser: Option<int>

    ghost predicate Ok()
      reads this, levelPtrs
    {
      ShapeOk(version) && level + 1 < NUM_LEVELS && levelPtrs.Length == NUM_LEVELS &&
      overlapFrom <= grandparentIndex <= |grandparents| &&
      overlappedBytes == TotalFileSize(grandparents[overlapFrom..grandparentIndex]) &&
      (!seenKey ==> overlapFrom == grandparentIndex) &&
      forall l | level + 2 <= l < NUM_LEVELS :: Passed(version[l], levelPtrs[l], lastUser)
    }

    /** What decides about cuts in this compaction. */
    ghost function How(input: seq<Entry>, tableSize: seq<Entry> -> nat): Cutting {
      Cutting(grandparents, 10 * targetFileSize, targetFileSize, tableSize, input)
    }

    /** The counters after the first n entries. */
    ghost predicate Counted(h: Cutting, n: nat)
      requires n <= |h.input|
      reads this
    {
      (n == 0 ==> !seenKey && grandparentIndex == 0) &&
      (n > 0 ==> seenKey && grandparentIndex == Past(grandparents, h.input[n - 1].key) && overlapFrom == h.Begin(n))
    }

    constructor (version: Levels, level: nat, grandparents: seq<File>, targetFileSize: nat)
      requires ShapeOk(version) && level + 1 < NUM_LEVELS
      ensures Ok() && fresh(levelPtrs) && lastUser == None
      ensures this.version == version && this.level == level
      ensures this.grandparents == grandparents && this.targetFileSize == targetFileSize
      ensures grandparentIndex == 0 && !seenKey
    {
      this.level := level;
      this.version := version;
      this.grandparents := grandparents;
      this.targetFileSize := targetFileSize;
      grandparentIndex, seenKey, overlappedBytes, overlapFrom := 0, false, 0, 0;
      levelPtrs := new nat[NUM_LEVELS](_ => 0);
      lastUser := None;
    }

    /** Walks the per-level pointers; they never move back because the user keys do not. */
    method IsBaseLevelForKey(user: int) returns (base: bool)
      requires Ok() && (lastUser.Some? ==> lastUser.value <= user)
      modifies this`lastUser, levelPtrs
      ensures Ok() && lastUser == Some(user)
      ensures base == BaseLevel(version, level, user)
    {
      lastUser := Some(user);
      for l := level + 2 to NUM_LEVELS
        invariant lastUser == Some(user)
        invariant forall m | level + 2 <= m < NUM_LEVELS :: Passed(version[m], levelPtrs[m], lastUser)
        invariant forall m, f | level + 2 <= m < l && f in version[m] :: !Holds(f, user)
      {
        var files := version[l];
        FilesSpan(files);
        while levelPtrs[l] < |files|
          invariant lastUser == Some(user)
          invariant forall m | level + 2 <= m < NUM_LEVELS :: Passed(version[m], levelPtrs[m], lastUser)
          decreases |files| - levelPtrs[l]
        {
          var f := files[levelPtrs[l]];
          if user <= f.largest.user {
            if user >= f.smallest.user {
              assert f in version[l] && Holds(f, user);
              return false;
            }
            break;
          }
          levelPtrs[l] := levelPtrs[l] + 1;
        }
        NotHeld(files, levelPtrs[l], user);
      }
      base := true;
    }

    /** Moves past the grandparents that end below the key. An output file is cut when those passed since it began, not
        counting any passed on the very first key, together exceed the limit. */
    method ShouldStopBefore(key: Key) returns (stop: bool)
      requires Ok()
      modifies this`grandparentIndex, this`seenKey, this`overlappedBytes, this`overlapFrom
      ensures Ok() && lastUser == old(lastUser) && seenKey
      ensures old(grandparentIndex) <= grandparentIndex <= |grandparents|
      ensures forall i | old(grandparentIndex) <= i < grandparentIndex :: Less(grandparents[i].largest, key)
      ensures grandparentIndex < |grandparents| ==> !Less(grandparents[grandparentIndex].largest, key)
      ensures var from := if old(seenKey) then old(overlapFrom) else grandparentIndex;
        (stop <==> TotalFileSize(grandparents[from..grandparentIndex]) > MAX_GRANDPARENT_FACTOR * targetFileSize) &&
        overlapFrom == if stop then grandparentIndex else from
    {
      while grandparentIndex < |grandparents| && Less(grandparents[grandparentIndex].largest, key)
        invariant seenKey == old(seenKey) && old(grandparentIndex) <= grandparentIndex <= |grandparents|
        invariant forall i | old(grandparentIndex) <= i < grandparentIndex :: Less(grandparents[i].largest, key)
        invariant overlapFrom == (if seenKey then old(overlapFrom) else grandparentIndex) <= grandparentIndex
        invariant overlappedBytes == TotalFileSize(grandparents[overlapFrom..grandparentIndex])
      {
        PassedOne(grandparents, overlapFrom, grandparentIndex);
        if seenKey {
          overlappedBytes := overlappedBytes + grandparents[grandparentIndex].size;
        }
        grandparentIndex := grandparentIndex + 1;
        if !seenKey { overlapFrom := grandparentIndex; }
      }
      seenKey := true;
      if overlappedBytes > MAX_GRANDPARENT_FACTOR * targetFileSize {
        overlappedBytes := 0;
        overlapFrom := grandparentIndex;
        stop := true;
      } else {
        stop := false;
      }
    }
  }

  lemma {:induction false} PassedOne(files: seq<File>, from: nat, i: nat)
    requires from <= i < |files|
    ensures TotalFileSize(files[from..i + 1]) == TotalFileSize(files[from..i]) + files[i].size
    ensures TotalFileSize(files[i + 1..i + 1]) == 0
  {
    assert files[from..i + 1] == files[from..i] + [files[i]];
    TotalSnoc(files[from..i], files[i]);
  }

  /** The files before the pointer end below the last user key asked about. */
  ghost predicate Passed(files: seq<File>, ptr: nat, lastUser: Option<int>) {
    ptr <= |files| && forall i | 0 <= i < ptr :: lastUser.Some? && files[i].largest.user < lastUser.value
  }

  lemma {:induction false} NotHeld(files: seq<File>, ptr: nat, user: int)
    requires SpansOk(files) && LevelSorted(files) && Passed(files, ptr, Some(user))
    requires ptr < |files| ==> user < files[ptr].smallest.user
    ensures forall f | f in files :: !Holds(f, user)
  {
    LargestIncrease(files);
  }

  // ---- Output files ----

  function Concat(outs: seq<File>): seq<Entry> {
    if |outs| == 0 then [] else Concat(outs[..|outs| - 1]) + outs[|outs| - 1].entries
  }

  ghost predicate FileFinished(f: File, number: nat) {
    f.number == number && |f.entries| > 0 &&
    f.smallest == f.entries[0].key && f.largest == f.entries[|f.entries| - 1].key
  }

  /** Finished files under consecutive numbers, none empty. */
  ghost predicate Finished(outs: seq<File>, firstNumber: nat) {
    forall i | 0 <= i < |outs| :: FileFinished(outs[i], firstNumber + i)
  }

  /** Finished outputs and the entries of the one being built. */
  datatype Outputs = Outputs(files: seq<File>, builder: seq<Entry>)

  ghost predicate Wrote(o: Outputs, kept: seq<Entry>, firstNumber: nat) {
    Concat(o.files) + o.builder == kept && Finished(o.files, firstNumber)
  }

  lemma {:induction false} OneMoreFile(files: seq<File>, f: File, firstNumber: nat)
    requires Finished(files, firstNumber) && FileFinished(f, firstNumber + |files|)
    ensures Concat(files + [f]) == Concat(files) + f.entries && Finished(files + [f], firstNumber)
  {
    assert (files + [f])[..|files|] == files;
  }

  /** Closes the current output, if there is one. */
  method FinishCompactionOutputFile(o: Outputs, firstNumber: nat, tableSize: seq<Entry> -> nat, ghost kept: seq<Entry>)
    returns (o': Outputs)
    requires Wrote(o, kept, firstNumber)
    ensures Wrote(o', kept, firstNumber) && o'.builder == []
    ensures |o.builder| == 0 ==> o' == o
    ensures |o.builder| > 0 ==> |o'.files| == |o.files| + 1 && o'.files == o.files + [o'.files[|o.files|]]
    ensures |o.builder| > 0 ==>
      o'.files[|o.files|].entries == o.builder && o'.files[|o.files|].size == tableSize(o.builder)
  {
    if |o.builder| == 0 {
      return o;
    }
    var f := File(firstNumber + |o.files|, tableSize(o.builder), o.builder[0].key, o.builder[|o.builder| - 1].key,
      o.builder);
    OneMoreFile(o.files, f, firstNumber);
    assert Concat(o.files) + o.builder + [] == kept;
    o' := Outputs(o.files + [f], []);
  }

  method AddEntry(o: Outputs, e: Entry, firstNumber: nat, ghost kept: seq<Entry>) returns (o': Outputs)
    requires Wrote(o, kept, firstNumber)
    ensures Wrote(o', kept + [e], firstNumber) && o' == Outputs(o.files, o.builder + [e])
  {
    o' := Outputs(o.files, o.builder + [e]);
  }

  /** What the loop remembers of the entry before. */
  datatype Previous = Previous(has: bool, user: int, sn: Sequence)

  ghost predicate Remembers(p: Previous, input: seq<Entry>, n: nat) {
    n <= |input| && (p.has <==> n > 0) && (n > 0 ==> p.user == input[n - 1].key.user && p.sn == input[n - 1].key.sn)
  }

  /** Rules for one entry: hidden by a newer one every snapshot sees, or an obsolete tombstone. */
  method ShouldDrop(c: CompactionState, p: Previous, e: Entry, smallestSnapshot: Sequence, ghost input: seq<Entry>,
                    ghost n: nat)
    returns (drop: bool, p': Previous)
    requires c.Ok() && Sorted(input) && n < |input| && e == input[n] && smallestSnapshot < MAX_SEQUENCE
    requires Remembers(p, input, n) && (c.lastUser.Some? ==> p.has && c.lastUser.value <= p.user)
    modifies c`lastUser, c.levelPtrs
    ensures c.Ok() && Remembers(p', input, n + 1) && (c.lastUser.Some? ==> c.lastUser.value <= p'.user)
    ensures drop == Dropped(input, n, smallestSnapshot, c.version, c.level)
  {
    var last := if !p.has || e.key.user != p.user then MAX_SEQUENCE else p.sn;
    assert n > 0 ==> Less(input[n - 1].key, e.key);
    drop := false;
    if last <= smallestSnapshot {
      drop := true;
    } else if e.key.kind.Deletion? && e.key.sn <= smallestSnapshot {
      drop := c.IsBaseLevelForKey(e.key.user);
    }
    p' := Previous(true, e.key.user, e.key.sn);
  }

  /** The loop has dealt with the first n entries. */
  ghost predicate Progress(c: CompactionState, o: Outputs, p: Previous, smallestSnapshot: Sequence, nextFile: nat,
                           tableSize: seq<Entry> -> nat, input: seq<Entry>, n: nat)
    reads c, c.levelPtrs
  {
    c.Ok() && Remembers(p, input, n) && (c.lastUser.Some? ==> p.has && c.lastUser.value <= p.user) &&
    Wrote(o, Kept(input, n, smallestSnapshot, c.version, c.level), nextFile) &&
    c.Counted(c.How(input, tableSize), n) && c.How(input, tableSize).CutSoFar(o.files, o.builder, n)
  }

  lemma {:induction false} InConcat(outs: seq<File>, i: nat, e: Entry)
    requires i < |outs| && e in outs[i].entries
    ensures e in Concat(outs)
  {
    if i < |outs| - 1 {
      assert outs[..|outs| - 1][i] == outs[i];
      InConcat(outs[..|outs| - 1], i, e);
    }
  }

  lemma {:induction false} WroteBehind(o: Outputs, kept: seq<Entry>, firstNumber: nat, key: Key)
    requires Wrote(o, kept, firstNumber) && forall e | e in kept :: Less(e.key, key)
    ensures Behind(o.files, key) && (|o.builder| > 0 ==> Less(o.builder[|o.builder| - 1].key, key))
  {
    forall i | 0 <= i < |o.files| && |o.files[i].entries| > 0
      ensures Less(o.files[i].entries[|o.files[i].entries| - 1].key, key)
    {
      InConcat(o.files, i, o.files[i].entries[|o.files[i].entries| - 1]);
    }
    if |o.builder| > 0 { assert o.builder[|o.builder| - 1] in kept; }
  }

  /** Closes the open output if the entry would make it overlap too much. */
  method CutBefore(c: CompactionState, o: Outputs, e: Entry, nextFile: nat, tableSize: seq<Entry> -> nat,
                   ghost kept: seq<Entry>, ghost input: seq<Entry>, ghost n: nat)
    returns (o': Outputs)
    requires c.Ok() && Sorted(input) && n < |input| && e == input[n] && Wrote(o, kept, nextFile)
    requires c.Counted(c.How(input, tableSize), n) && c.How(input, tableSize).CutSoFar(o.files, o.builder, n)
    requires forall x | x in kept :: Less(x.key, e.key)
    modifies c`grandparentIndex, c`seenKey, c`overlappedBytes, c`overlapFrom
    ensures c.Ok() && Wrote(o', kept, nextFile) && c.Counted(c.How(input, tableSize), n + 1)
    ensures c.How(input, tableSize).CutSoFar(o'.files, o'.builder, n + 1)
    ensures c.How(input, tableSize).Stop(n) ==> o'.builder == []
  {
    ghost var h, index0, from0 := c.How(input, tableSize), c.grandparentIndex, c.overlapFrom;
    WroteBehind(o, kept, nextFile, e.key);
    o' := o;
    var stop := c.ShouldStopBefore(e.key);
    CountOn(h, n, c.grandparentIndex, c.overlapFrom, stop, index0, from0);
    if stop {
      o' := FinishCompactionOutputFile(o', nextFile, tableSize, kept);
    }
    if stop && |o.builder| > 0 {
      CloseAtStop(h, o.files, o.builder, o'.files[|o.files|], n);
    } else {
      PassEntry(h, o.files, o.builder, n);
    }
  }

  /** Adds the entry, and closes the output if it has become large enough. */
  method AddAndCut(o: Outputs, e: Entry, target: nat, nextFile: nat, tableSize: seq<Entry> -> nat,
                   ghost h: Cutting, ghost kept: seq<Entry>, ghost n: nat)
    returns (o': Outputs)
    requires Wrote(o, kept, nextFile) && h.tableSize == tableSize && h.target == target
    requires Sorted(h.input) && n < |h.input| && e == h.input[n]
    requires h.CutSoFar(o.files, o.builder, n + 1) && (h.Stop(n) ==> o.builder == [])
    ensures Wrote(o', kept + [e], nextFile) && h.CutSoFar(o'.files, o'.builder, n + 1)
  {
    JoinEntry(h, o.files, o.builder, n);
    o' := AddEntry(o, e, nextFile, kept);
    ghost var builder := o'.builder;
    if tableSize(o'.builder) >= target {
      o' := FinishCompactionOutputFile(o', nextFile, tableSize, kept + [e]);
      CloseFull(h, o.files, builder, o'.files[|o.files|], n + 1);
    } else {
      StaysOpen(h, o.files, builder, n + 1);
    }
  }

  /** One iteration of the compaction loop: cut, decide, add, cut. */
  method CompactEntry(c: CompactionState, o: Outputs, p: Previous, e: Entry, smallestSnapshot: Sequence, nextFile: nat,
                      tableSize: seq<Entry> -> nat, ghost input: seq<Entry>, ghost n: nat)
    returns (o': Outputs, p': Previous)
    requires Progress(c, o, p, smallestSnapshot, nextFile, tableSize, input, n)
    requires Sorted(input) && n < |input| && e == input[n] && smallestSnapshot < MAX_SEQUENCE
    modifies c, c.levelPtrs
    ensures Progress(c, o', p', smallestSnapshot, nextFile, tableSize, input, n + 1)
  {
    ghost var kept := Kept(input, n, smallestSnapshot, c.version, c.level);
    KeptSorted(input, n, smallestSnapshot, c.version, c.level);
    o' := CutBefore(c, o, e, nextFile, tableSize, kept, input, n);
    var drop;
    drop, p' := ShouldDrop(c, p, e, smallestSnapshot, input, n);
    if !drop {
      o' := AddAndCut(o', e, c.targetFileSize, nextFile, tableSize, c.How(input, tableSize), kept, n);
    }
  }

  lemma {:induction false} NothingDone(c: CompactionState, smallestSnapshot: Sequence, nextFile: nat,
                                       tableSize: seq<Entry> -> nat, input: seq<Entry>)
    requires c.Ok() && c.lastUser == None && !c.seenKey && c.grandparentIndex == 0
    ensures Progress(c, Outputs([], []), Previous(false, 0, 0), smallestSnapshot, nextFile, tableSize, input, 0)
  {
  }

  /** How many entries are behind the iterator. */
  ghost function Place(input: MergingIterator): int
    reads input
  {
    if input.Valid() then input.index else |input.merged|
  }

  /** The loop has dealt with all entries before the one the iterator shows. */
  ghost predicate Running(c: CompactionState, o: Outputs, p: Previous, input: MergingIterator, smallestSnapshot: Sequence,
                          nextFile: nat, tableSize: seq<Entry> -> nat)
    reads c, c.levelPtrs, input, input.children
  {
    exists n: nat :: n == Place(input) && input.Ok() &&
      Progress(c, o, p, smallestSnapshot, nextFile, tableSize, input.merged, n)
  }

  /** Deals with the entry the iterator shows and moves on. */
  method CompactNext(c: CompactionState, o: Outputs, p: Previous, input: MergingIterator, smallestSnapshot: Sequence,
                     nextFile: nat, tableSize: seq<Entry> -> nat)
    returns (o': Outputs, p': Previous)
    requires input.Valid() && smallestSnapshot < MAX_SEQUENCE
    requires Running(c, o, p, input, smallestSnapshot, nextFile, tableSize)
    modifies c, c.levelPtrs, input, input.children
    ensures Place(input) == old(Place(input)) + 1 <= |input.merged|
    ensures Running(c, o', p', input, smallestSnapshot, nextFile, tableSize)
  {
    ghost var n: nat := input.index;
    o', p' := CompactEntry(c, o, p, input.Entry(), smallestSnapshot, nextFile, tableSize, input.merged, n);
    assert Progress(c, o', p', smallestSnapshot, nextFile, tableSize, input.merged, n + 1);
    input.Next();
    assert Progress(c, o', p', smallestSnapshot, nextFile, tableSize, input.merged, n + 1);
  }

  /** What a compaction makes of its merged inputs: sorted, under consecutive new numbers, exactly what is needed, and
      cut where it should be. */
  ghost predicate Thinned(outs: seq<File>, h: Cutting, smallest: nat, version: Levels, level: nat, nextFile: nat) {
    Sorted(Concat(outs)) && Finished(outs, nextFile) && h.CutRight(outs) &&
    forall e :: e in Concat(outs) <==> e in h.input && Needed(e, EntrySet(h.input), smallest, version, level)
  }

  /** The end of the loop. */
  method CloseLast(o: Outputs, nextFile: nat, tableSize: seq<Entry> -> nat, ghost h: Cutting, ghost smallest: nat,
                   ghost version: Levels, ghost level: nat)
    returns (outs: seq<File>)
    requires Sorted(h.input) && Wrote(o, Kept(h.input, |h.input|, smallest, version, level), nextFile)
    requires h.tableSize == tableSize && h.CutSoFar(o.files, o.builder, |h.input|)
    ensures Concat(outs) == Kept(h.input, |h.input|, smallest, version, level)
    ensures Thinned(outs, h, smallest, version, level, nextFile)
  {
    ghost var kept := Kept(h.input, |h.input|, smallest, version, level);
    var o' := FinishCompactionOutputFile(o, nextFile, tableSize, kept);
    if |o.builder| > 0 {
      SmallWhenOpen(h, o.builder);
      CloseFull(h, o.files, o.builder, o'.files[|o.files|], |h.input|);
    }
    outs := o'.files;
    assert Concat(outs) == kept;
    KeptSorted(h.input, |h.input|, smallest, version, level);
    KeptNeeded(h.input, smallest, version, level);
  }

  lemma {:induction false} SmallWhenOpen(h: Cutting, es: seq<Entry>)
    requires h.Small(es, true)
    ensures h.Small(es, false)
  {
  }

  /** The loop: all entries, from the first one on. */
  method CompactAll(c: CompactionState, input: MergingIterator, smallestSnapshot: Sequence, nextFile: nat,
                    tableSize: seq<Entry> -> nat)
    returns (o: Outputs)
    requires c.Ok() && c.lastUser == None && input.Ok() && smallestSnapshot < MAX_SEQUENCE
    requires !c.seenKey && c.grandparentIndex == 0
    modifies c, c.levelPtrs, input, input.children
    ensures Wrote(o, Kept(input.merged, |input.merged|, smallestSnapshot, c.version, c.level), nextFile)
    ensures c.How(input.merged, tableSize).CutSoFar(o.files, o.builder, |input.merged|) && Sorted(input.merged)
  {
    o := Outputs([], []);
    var p := Previous(false, 0, 0);
    NothingDone(c, smallestSnapshot, nextFile, tableSize, input.merged);
    input.SeekToFirst();
    assert Progress(c, o, p, smallestSnapshot, nextFile, tableSize, input.merged, 0);
    while input.Valid()
      invariant Running(c, o, p, input, smallestSnapshot, nextFile, tableSize)
      decreases |input.merged| - Place(input)
    {
      o, p := CompactNext(c, o, p, input, smallestSnapshot, nextFile, tableSize);
    }
  }

  /** Walks the merged inputs, drops what no live snapshot needs, and cuts the rest into files. */
  method DoCompactionWork(c: CompactionState, input: MergingIterator, smallestSnapshot: Sequence, nextFile: nat,
                          tableSize: seq<Entry> -> nat)
    returns (outs: seq<File>)
    requires c.Ok() && c.lastUser == None && input.Ok() && smallestSnapshot < MAX_SEQUENCE
    requires !c.seenKey && c.grandparentIndex == 0
    modifies c, c.levelPtrs, input, input.children
    ensures Concat(outs) == Kept(input.merged, |input.merged|, smallestSnapshot, c.version, c.level)
    ensures Thinned(outs, c.How(input.merged, tableSize), smallestSnapshot, c.version, c.level, nextFile)
  {
    var o := CompactAll(c, input, smallestSnapshot, nextFile, tableSize);
    outs := CloseLast(o, nextFile, tableSize, c.How(input.merged, tableSize), smallestSnapshot, c.version, c.level);
  }

  /** A compaction from a fresh state. */
  method Compacted(version: Levels, level: nat, grandparents: seq<File>, targetFileSize: nat, input: MergingIterator,
                   smallestSnapshot: Sequence, nextFile: nat, tableSize: seq<Entry> -> nat)
    returns (outs: seq<File>)
    requires ShapeOk(version) && level + 1 < NUM_LEVELS && input.Ok() && smallestSnapshot < MAX_SEQUENCE
    modifies input, input.children
    ensures Concat(outs) == Kept(input.merged, |input.merged|, smallestSnapshot, version, level)
    ensures Thinned(outs, Cutting(grandparents, 10 * targetFileSize, targetFileSize, tableSize, input.merged),
      smallestSnapshot, version, level, nextFile)
  {
    var c := new CompactionState(version, level, grandparents, targetFileSize);
    outs := DoCompactionWork(c, input, smallestSnapshot, nextFile, tableSize);
  }
}
