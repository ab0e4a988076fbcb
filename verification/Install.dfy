/** Installing the result of a flush, a move or a compaction keeps the tree well-formed. */
module Install {
  import opened Format
  import opened Tree
  import opened Versions
  import opened Drop

  ghost predicate Numbers(levels: Levels, nextFile: nat) {
    (forall l, f | 0 <= l < |levels| && f in levels[l] :: f.number < nextFile) &&
    forall l, m, f, g | 0 <= l < |levels| && 0 <= m < |levels| && f in levels[l] && g in levels[m] &&
      f.number == g.number ::
      l == m && f == g
  }

  ghost predicate LevelsInOrder(levels: Levels) {
    forall l | 0 <= l < |levels| :: InOrder(levels[l])
  }

  /** The key ranges of two files do not meet. */
  ghost predicate RangesApart(f: File, g: File) {
    Less(f.largest, g.smallest) || Less(g.largest, f.smallest)
  }

  ghost predicate PairwiseApart(files: seq<File>) {
    forall f, g | f in files && g in files && f != g :: RangesApart(f, g)
  }

  /** An ordered list of files with disjoint ranges is a sorted level. */
  lemma {:induction false} SortedFromPairs(files: seq<File>)
    requires InOrder(files) && SpansOk(files) && PairwiseApart(files)
    ensures LevelSorted(files)
  {
    forall i, j | 0 <= i < j < |files|
      ensures Less(files[i].largest, files[j].smallest)
    {
      assert ByLess(files[i], files[j]);
      assert SpanOk(files[i]) && SpanOk(files[j]);
      assert files[i] in files && files[j] in files;
      assert RangesApart(files[i], files[j]);
    }
  }

  lemma {:induction false} PairsFromSorted(files: seq<File>)
    requires LevelSorted(files)
    ensures PairwiseApart(files)
  {
  }

  lemma {:induction false} NewerMono(a: set<Entry>, b: set<Entry>, a': set<Entry>, b': set<Entry>)
    requires NewerThan(a, b) && a' <= a && b' <= b
    ensures NewerThan(a', b')
  {
  }

  lemma {:induction false} NewerUnion(a: set<Entry>, b: set<Entry>, c: set<Entry>)
    ensures NewerThan(a + b, c) <==> NewerThan(a, c) && NewerThan(b, c)
    ensures NewerThan(c, a + b) <==> NewerThan(c, a) && NewerThan(c, b)
  {
    assert forall x | x in a :: x in a + b;
    assert forall x | x in b :: x in a + b;
  }

  // ---- Replacing inputs by outputs ----

  /** levels' is levels with the inputs removed and the outputs added to the next level. */
  ghost predicate Replaced(levels: Levels, levels': Levels, level: nat, in0: seq<File>, in1: seq<File>,
                           outs: seq<File>) {
    |levels| == |levels'| == NUM_LEVELS && level + 1 < NUM_LEVELS && LevelsInOrder(levels') &&
    (forall l | 0 <= l < NUM_LEVELS && l != level && l != level + 1 :: levels'[l] == levels[l]) &&
    (forall f :: f in levels'[level] <==> f in levels[level] && f !in in0) &&
    forall f :: f in levels'[level + 1] <==> (f in levels[level + 1] && f !in in1) || f in outs
  }

  /** Outputs hold only input entries, in disjoint ranges, under numbers no other file has. */
  ghost predicate OutputsOk(levels: Levels, level: nat, in0: seq<File>, in1: seq<File>, outs: seq<File>)
    requires level + 1 < |levels|
  {
    FilesOk(outs) && PairwiseApart(outs) && LevelData(outs) <= InputData(in0, in1) &&
    (forall f, g | f in outs && g in outs && f.number == g.number :: f == g) &&
    forall f, l, g | f in outs && 0 <= l < |levels| && g in levels[l] && f.number == g.number :: g in in0 || g in in1
  }

  /** Every input entry beside a file left in the next level, which ends below or starts above the range. */
  lemma {:induction false} LeftBeside(levels: Levels, level: nat, in0: seq<File>, in1: seq<File>, lo: int, hi: int,
                                      g: File, f: File, e: Entry)
    requires ShapeOk(levels) && level + 1 < NUM_LEVELS && ClosedRange(levels, level, in0, in1, lo, hi)
    requires g in levels[level + 1] && g !in in1 && e in f.entries
    requires (f in in0 && f in levels[level]) || f in in1
    ensures g.largest.user < lo ==> Less(g.largest, e.key)
    ensures g.smallest.user > hi ==> Less(e.key, g.smallest)
  {
    var next := levels[level + 1];
    if f in in1 {
      assert f in next && Overlaps(f, Some(lo), Some(hi));
      EntryOfFile(levels, level + 1, f, e);
      if g.largest.user < lo { OrderByRange(next, g, f); }
      if g.smallest.user > hi { OrderByRange(next, f, g); }
    } else {
      EntryOfFile(levels, level, f, e);
    }
  }

  /** A file left in the next level lies before or after all inputs. */
  lemma {:induction false} LeftApart(levels: Levels, level: nat, in0: seq<File>, in1: seq<File>, g: File)
    requires ShapeOk(levels) && level + 1 < NUM_LEVELS && Closed(levels, level, in0, in1)
    requires g in levels[level + 1] && g !in in1
    ensures (forall e | e in InputData(in0, in1) :: Less(g.largest, e.key)) ||
            (forall e | e in InputData(in0, in1) :: Less(e.key, g.smallest))
  {
    var lo, hi :| ClosedRange(levels, level, in0, in1, lo, hi);
    assert g.largest.user < lo || g.smallest.user > hi;
    forall e | e in InputData(in0, in1)
      ensures g.largest.user < lo ==> Less(g.largest, e.key)
      ensures g.smallest.user > hi ==> Less(e.key, g.smallest)
    {
      var f :| (f in in0 || f in in1) && e in f.entries;
      LeftBeside(levels, level, in0, in1, lo, hi, g, f, e);
    }
  }

  lemma {:induction false} EntryOfFile(levels: Levels, l: nat, f: File, e: Entry)
    requires ShapeOk(levels) && l < NUM_LEVELS && f in levels[l] && e in f.entries
    ensures FileOk(f) && !Less(e.key, f.smallest) && !Less(f.largest, e.key)
  {
    assert FilesOk(levels[l]);
    EntryInRange(f, e);
  }

  /** In a sorted level, a file that ends below another's largest user key comes first. */
  lemma {:induction false} OrderByRange(files: seq<File>, f: File, g: File)
    requires FilesOk(files) && LevelSorted(files) && f in files && g in files && f != g
    requires f.largest.user < g.largest.user || f.smallest.user < g.smallest.user
    ensures Less(f.largest, g.smallest)
  {
    FilesSpan(files);
    PairsFromSorted(files);
    assert RangesApart(f, g);
    assert SpanOk(f) && SpanOk(g);
  }

  /** Outputs do not meet the files left in the next level. */
  lemma {:induction false} OutputApart(levels: Levels, level: nat, in0: seq<File>, in1: seq<File>, outs: seq<File>,
                                       f: File, g: File)
    requires ShapeOk(levels) && level + 1 < NUM_LEVELS && Closed(levels, level, in0, in1)
    requires OutputsOk(levels, level, in0, in1, outs) && f in outs && g in levels[level + 1] && g !in in1
    ensures RangesApart(f, g)
  {
    LeftApart(levels, level, in0, in1, g);
    assert FileOk(f);
    var first, last := f.entries[0], f.entries[|f.entries| - 1];
    assert first in f.entries && last in f.entries;
    assert first in LevelData(outs) && last in LevelData(outs);
  }

  lemma {:induction false} ReplacedShape(levels: Levels, levels': Levels, level: nat, in0: seq<File>, in1: seq<File>,
                                         outs: seq<File>)
    requires ShapeOk(levels) && level + 1 < NUM_LEVELS && Closed(levels, level, in0, in1)
    requires OutputsOk(levels, level, in0, in1, outs) && Replaced(levels, levels', level, in0, in1, outs)
    ensures ShapeOk(levels')
  {
    forall l | 0 <= l < NUM_LEVELS ensures FilesOk(levels'[l]) {
      forall i | 0 <= i < |levels'[l]| ensures FileOk(levels'[l][i]) {
        var f := levels'[l][i];
        assert f in levels'[l];
        assert f in levels[l] || f in outs;
      }
    }
    forall l | 1 <= l < NUM_LEVELS ensures LevelSorted(levels'[l]) {
      PairsFromSorted(levels[l]);
      FilesSpan(levels'[l]);
      forall f, g | f in levels'[l] && g in levels'[l] && f != g ensures RangesApart(f, g) {
        if l == level + 1 {
          if f in outs && g !in outs { OutputApart(levels, level, in0, in1, outs, f, g); }
          if g in outs && f !in outs { OutputApart(levels, level, in0, in1, outs, g, f); }
        }
      }
      SortedFromPairs(levels'[l]);
    }
  }

  lemma {:induction false} LevelDataMono(a: seq<File>, b: seq<File>)
    requires forall f | f in a :: f in b
    ensures LevelData(a) <= LevelData(b)
  {
  }

  /** Where the data of each level comes from. */
  lemma {:induction false} ReplacedData(levels: Levels, levels': Levels, level: nat, in0: seq<File>, in1: seq<File>,
                                        outs: seq<File>)
    requires level + 1 < |levels| && Closed(levels, level, in0, in1)
    requires OutputsOk(levels, level, in0, in1, outs) && Replaced(levels, levels', level, in0, in1, outs)
    ensures LevelData(levels'[level]) <= LevelData(levels[level])
    ensures LevelData(in0) <= LevelData(levels[level])
    ensures LevelData(levels'[level + 1]) <= LevelData(levels[level + 1]) + LevelData(in0)
    ensures NewerThan(LevelData(levels'[level]), LevelData(in0))
  {
    LevelDataMono(levels'[level], levels[level]);
    LevelDataMono(in0, levels[level]);
    var after := LevelData(levels'[level + 1]);
    forall e | e in after
      ensures e in LevelData(levels[level + 1]) + LevelData(in0)
    {
      var f :| f in levels'[level + 1] && e in f.entries;
      if f in outs {
        assert e in LevelData(outs);
        if e in LevelData(in1) {
          var g :| g in in1 && e in g.entries;
          InTree(levels, level + 1, g, e);
        }
      }
    }
    forall x, y | x in LevelData(levels'[level]) && y in LevelData(in0) && x.key.user == y.key.user
      ensures x.key.sn > y.key.sn
    {
      var g :| g in levels'[level] && x in g.entries;
      assert x in EntrySet(g.entries);
    }
  }

  lemma {:induction false} ReplacedRecency(levels: Levels, levels': Levels, level: nat, in0: seq<File>, in1: seq<File>,
                                           outs: seq<File>)
    requires level + 1 < |levels| && Closed(levels, level, in0, in1) && Recency(levels)
    requires OutputsOk(levels, level, in0, in1, outs) && Replaced(levels, levels', level, in0, in1, outs)
    ensures Recency(levels')
  {
    ReplacedData(levels, levels', level, in0, in1, outs);
    forall l, m | 0 <= l < m < |levels'|
      ensures NewerThan(LevelData(levels'[l]), LevelData(levels'[m]))
    {
      RecencyPair(levels, levels', level, in0, in1, outs, l, m);
    }
    if level == 0 {
      assert ZeroRecency(levels[0]);
      assert forall f | f in levels'[0] :: f in levels[0];
    }
  }

  lemma {:induction false} RecencyPair(levels: Levels, levels': Levels, level: nat, in0: seq<File>, in1: seq<File>,
                                       outs: seq<File>, l: nat, m: nat)
    requires level + 1 < |levels| && Closed(levels, level, in0, in1) && Recency(levels)
    requires OutputsOk(levels, level, in0, in1, outs) && Replaced(levels, levels', level, in0, in1, outs)
    requires l < m < |levels'|
    ensures NewerThan(LevelData(levels'[l]), LevelData(levels'[m]))
  {
    ReplacedData(levels, levels', level, in0, in1, outs);
    var a, b := LevelData(levels[l]), LevelData(levels[m]);
    assert NewerThan(a, b);
    if m == level + 1 {
      assert NewerThan(LevelData(levels'[l]), LevelData(in0)) by {
        if l < level {
          assert NewerThan(a, LevelData(levels[level]));
          NewerMono(a, LevelData(levels[level]), a, LevelData(in0));
        }
      }
      NewerMono(a, b, LevelData(levels'[l]), b);
      NewerUnion(b, LevelData(in0), LevelData(levels'[l]));
      NewerMono(LevelData(levels'[l]), b + LevelData(in0), LevelData(levels'[l]), LevelData(levels'[m]));
    } else if l == level + 1 {
      assert NewerThan(LevelData(levels[level]), b);
      NewerMono(LevelData(levels[level]), b, LevelData(in0), b);
      NewerUnion(a, LevelData(in0), b);
      NewerMono(a + LevelData(in0), b, LevelData(levels'[l]), b);
    } else {
      NewerMono(a, b, LevelData(levels'[l]), LevelData(levels'[m]));
    }
  }

  lemma {:induction false} SameLevel(levels: Levels, l: nat, m: nat, e: Entry)
    requires Recency(levels) && l < |levels| && m < |levels| && e in LevelData(levels[l]) && e in LevelData(levels[m])
    ensures l == m
  {
    if l < m { OneLevel(levels, l, m, e); }
    if m < l { OneLevel(levels, m, l, e); }
  }

  /** A file that shares an entry with the inputs of the input level is one of them. */
  lemma {:induction false} SharesUpper(levels: Levels, level: nat, in0: seq<File>, in1: seq<File>, g: File, e: Entry)
    requires Closed(levels, level, in0, in1) && g in levels[level] && e in g.entries && e in LevelData(in0)
    ensures g in in0
  {
    assert e in EntrySet(g.entries);
  }

  lemma {:induction false} SharesNext(levels: Levels, level: nat, in0: seq<File>, in1: seq<File>, g: File, e: Entry)
    requires Closed(levels, level, in0, in1) && FilesOk(levels[level + 1]) && LevelSorted(levels[level + 1])
    requires g in levels[level + 1] && e in g.entries && e in LevelData(in1)
    ensures g in in1
  {
    var f :| f in in1 && e in f.entries;
    HeldOnce(levels[level + 1], f, g, e);
  }

  /** An entry of an input is in no other file. */
  lemma {:induction false} InputsApart(levels: Levels, level: nat, in0: seq<File>, in1: seq<File>, l: nat, g: File,
                                       e: Entry)
    requires ShapeOk(levels) && Recency(levels) && level + 1 < NUM_LEVELS && Closed(levels, level, in0, in1)
    requires l < NUM_LEVELS && g in levels[l] && e in g.entries && e in InputData(in0, in1)
    ensures (l == level && g in in0) || (l == level + 1 && g in in1)
  {
    InTree(levels, l, g, e);
    InputInLevel(levels, level, in0, in1, e);
    if e in LevelData(in0) {
      SameLevel(levels, l, level, e);
      SharesUpper(levels, level, in0, in1, g, e);
    } else {
      SameLevel(levels, l, level + 1, e);
      SharesNext(levels, level, in0, in1, g, e);
    }
  }

  lemma {:induction false} AfterFrom(levels: Levels, levels': Levels, level: nat, in0: seq<File>, in1: seq<File>,
                                     outs: seq<File>, e: Entry)
    requires ShapeOk(levels) && Recency(levels) && level + 1 < NUM_LEVELS && Closed(levels, level, in0, in1)
    requires Replaced(levels, levels', level, in0, in1, outs) && e in TreeData(levels')
    ensures e in LevelData(outs) || (e in TreeData(levels) && e !in InputData(in0, in1))
  {
    var l :| 0 <= l < |levels'| && e in LevelData(levels'[l]);
    var f :| f in levels'[l] && e in f.entries;
    if e !in LevelData(outs) {
      assert f !in outs;
      InTree(levels, l, f, e);
      if e in InputData(in0, in1) { InputsApart(levels, level, in0, in1, l, f, e); }
    }
  }

  lemma {:induction false} BeforeTo(levels: Levels, levels': Levels, level: nat, in0: seq<File>, in1: seq<File>,
                                    outs: seq<File>, e: Entry)
    requires level + 1 < NUM_LEVELS && Replaced(levels, levels', level, in0, in1, outs)
    requires e in LevelData(outs) || (e in TreeData(levels) && e !in InputData(in0, in1))
    ensures e in TreeData(levels')
  {
    if e in LevelData(outs) {
      var f :| f in outs && e in f.entries;
      InTree(levels', level + 1, f, e);
    } else {
      var l :| 0 <= l < |levels| && e in LevelData(levels[l]);
      var f :| f in levels[l] && e in f.entries;
      assert f !in in0 && f !in in1;
      InTree(levels', l, f, e);
    }
  }

  /** Afterwards the tree holds the outputs in place of the inputs. */
  lemma {:induction false} ReplacedTreeData(levels: Levels, levels': Levels, level: nat, in0: seq<File>, in1: seq<File>,
                                            outs: seq<File>)
    requires ShapeOk(levels) && Recency(levels) && level + 1 < NUM_LEVELS && Closed(levels, level, in0, in1)
    requires Replaced(levels, levels', level, in0, in1, outs)
    ensures TreeData(levels') == TreeData(levels) - InputData(in0, in1) + LevelData(outs)
  {
    forall e | e in TreeData(levels') ensures e in TreeData(levels) - InputData(in0, in1) + LevelData(outs) {
      AfterFrom(levels, levels', level, in0, in1, outs, e);
    }
    ReplacedTreeHolds(levels, levels', level, in0, in1, outs);
  }

  lemma {:induction false} ReplacedTreeHolds(levels: Levels, levels': Levels, level: nat, in0: seq<File>,
                                             in1: seq<File>, outs: seq<File>)
    requires level + 1 < NUM_LEVELS && Replaced(levels, levels', level, in0, in1, outs)
    ensures TreeData(levels) - InputData(in0, in1) + LevelData(outs) <= TreeData(levels')
  {
    forall e | e in TreeData(levels) - InputData(in0, in1) + LevelData(outs) ensures e in TreeData(levels') {
      BeforeTo(levels, levels', level, in0, in1, outs, e);
    }
  }

  lemma {:induction false} ReplacedNumbers(levels: Levels, levels': Levels, level: nat, in0: seq<File>, in1: seq<File>,
                                           outs: seq<File>, nextFile: nat, nextFile': nat)
    requires Numbers(levels, nextFile) && level + 1 < |levels| && Closed(levels, level, in0, in1) &&
      nextFile <= nextFile'
    requires OutputsOk(levels, level, in0, in1, outs) && Replaced(levels, levels', level, in0, in1, outs)
    requires forall f | f in outs :: f.number < nextFile'
    ensures Numbers(levels', nextFile')
  {
    forall l, m, f, g | 0 <= l < |levels'| && 0 <= m < |levels'| && f in levels'[l] && g in levels'[m] &&
      f.number == g.number
      ensures l == m && f == g
    {
      NumberPair(levels, levels', level, in0, in1, outs, nextFile, l, m, f, g);
    }
    forall l, f | 0 <= l < |levels'| && f in levels'[l] ensures f.number < nextFile' {
      assert f in outs || f in levels[l];
    }
  }

  /** A file of the new tree is an output or was there before and is no input. */
  lemma {:induction false} NumberPair(levels: Levels, levels': Levels, level: nat, in0: seq<File>, in1: seq<File>,
                                      outs: seq<File>, nextFile: nat, l: nat, m: nat, f: File, g: File)
    requires Numbers(levels, nextFile) && level + 1 < |levels| && Closed(levels, level, in0, in1)
    requires OutputsOk(levels, level, in0, in1, outs) && Replaced(levels, levels', level, in0, in1, outs)
    requires l < |levels'| && m < |levels'| && f in levels'[l] && g in levels'[m] && f.number == g.number
    ensures l == m && f == g
  {
    var fOld := f in levels[l] && !(l == level && f in in0) && !(l == level + 1 && f in in1);
    var gOld := g in levels[m] && !(m == level && g in in0) && !(m == level + 1 && g in in1);
    if fOld && gOld {
    } else if !fOld && !gOld {
      assert f in outs && g in outs;
    } else if fOld {
      OutputNumber(levels, level, in0, in1, outs, nextFile, g, l, f);
    } else {
      OutputNumber(levels, level, in0, in1, outs, nextFile, f, m, g);
    }
  }

  lemma {:induction false} OutputNumber(levels: Levels, level: nat, in0: seq<File>, in1: seq<File>, outs: seq<File>,
                                        nextFile: nat, f: File, l: nat, g: File)
    requires Numbers(levels, nextFile) && level + 1 < |levels| && Closed(levels, level, in0, in1)
    requires OutputsOk(levels, level, in0, in1, outs) && f in outs && l < |levels| && g in levels[l]
    requires !(l == level && g in in0) && !(l == level + 1 && g in in1)
    ensures f.number != g.number
  {
    InputsOf(levels, level, in0, in1);
    assert g in in0 ==> l == level;
    assert g in in1 ==> l == level + 1;
  }

  lemma {:induction false} InputsOf(levels: Levels, level: nat, in0: seq<File>, in1: seq<File>)
    requires Closed(levels, level, in0, in1)
    ensures forall g | g in in0 :: g in levels[level]
    ensures forall g | g in in1 :: g in levels[level + 1]
  {
  }

  /** Replacing inputs by outputs keeps everything the point lookup relies on. */
  lemma {:induction false} ReplacedTreeOk(levels: Levels, levels': Levels, level: nat, in0: seq<File>, in1: seq<File>,
                                          outs: seq<File>, nextFile: nat, nextFile': nat)
    requires TreeOk(levels) && Numbers(levels, nextFile) && level + 1 < NUM_LEVELS && Closed(levels, level, in0, in1)
    requires OutputsOk(levels, level, in0, in1, outs) && Replaced(levels, levels', level, in0, in1, outs)
    requires nextFile <= nextFile' && forall f | f in outs :: f.number < nextFile'
    ensures TreeOk(levels') && Numbers(levels', nextFile')
  {
    ReplacedShape(levels, levels', level, in0, in1, outs);
    ReplacedRecency(levels, levels', level, in0, in1, outs);
    ReplacedNumbers(levels, levels', level, in0, in1, outs, nextFile, nextFile');
  }

  // ---- Adding a flushed memtable ----

  /** levels' is levels with one file added. */
  ghost predicate Added(levels: Levels, levels': Levels, level: nat, f: File) {
    |levels| == |levels'| == NUM_LEVELS && level < NUM_LEVELS && LevelsInOrder(levels') &&
    (forall l | 0 <= l < NUM_LEVELS && l != level :: levels'[l] == levels[l]) &&
    forall g :: g in levels'[level] <==> g in levels[level] || g == f
  }

  /** The file is newer than the tree; above level 0 it meets nothing down to its level. */
  ghost predicate Flushable(levels: Levels, level: nat, f: File, nextFile: nat) {
    FileOk(f) && f.number >= nextFile && NewerThan(EntrySet(f.entries), TreeData(levels)) &&
    (level > 0 ==> forall l, g | 0 <= l <= level && l < |levels| && g in levels[l] ::
      !Overlaps(g, Some(f.smallest.user), Some(f.largest.user)))
  }

  lemma {:induction false} AddedShape(levels: Levels, levels': Levels, level: nat, f: File, nextFile: nat)
    requires ShapeOk(levels) && Added(levels, levels', level, f) && Flushable(levels, level, f, nextFile)
    ensures ShapeOk(levels')
  {
    forall l | 0 <= l < NUM_LEVELS ensures FilesOk(levels'[l]) {
      forall i | 0 <= i < |levels'[l]| ensures FileOk(levels'[l][i]) {
        assert levels'[l][i] in levels'[l];
      }
    }
    forall l | 1 <= l < NUM_LEVELS ensures LevelSorted(levels'[l]) {
      PairsFromSorted(levels[l]);
      FilesSpan(levels'[l]);
      forall g, h | g in levels'[l] && h in levels'[l] && g != h ensures RangesApart(g, h) {
        if l == level && g == f {
          assert h in levels[level] && !Overlaps(h, Some(f.smallest.user), Some(f.largest.user));
        }
        if l == level && h == f {
          assert g in levels[level] && !Overlaps(g, Some(f.smallest.user), Some(f.largest.user));
        }
      }
      SortedFromPairs(levels'[l]);
    }
  }

  lemma {:induction false} AddedData(levels: Levels, levels': Levels, level: nat, f: File)
    requires Added(levels, levels', level, f)
    ensures LevelData(levels'[level]) == LevelData(levels[level]) + EntrySet(f.entries)
    ensures TreeData(levels') == TreeData(levels) + EntrySet(f.entries)
  {
    var now, want := LevelData(levels'[level]), LevelData(levels[level]) + EntrySet(f.entries);
    forall e ensures e in now <==> e in want {
      if e in now {
        var g :| g in levels'[level] && e in g.entries;
      }
      if e in EntrySet(f.entries) { assert f in levels'[level]; }
    }
    forall e ensures e in TreeData(levels') <==> e in TreeData(levels) + EntrySet(f.entries) {
      if e in TreeData(levels') {
        var l :| 0 <= l < |levels'| && e in LevelData(levels'[l]);
        assert l != level ==> e in LevelData(levels[l]);
      }
      if e in TreeData(levels) {
        var l :| 0 <= l < |levels| && e in LevelData(levels[l]);
        assert e in LevelData(levels'[l]);
      }
      if e in EntrySet(f.entries) { assert e in LevelData(levels'[level]); }
    }
  }

  lemma {:induction false} NoSharedKey(levels: Levels, level: nat, f: File, nextFile: nat, l: nat)
    requires ShapeOk(levels) && Flushable(levels, level, f, nextFile) && l < level < NUM_LEVELS
    ensures NewerThan(LevelData(levels[l]), EntrySet(f.entries))
  {
    forall x, y | x in LevelData(levels[l]) && y in EntrySet(f.entries) ensures x.key.user != y.key.user {
      var g :| g in levels[l] && x in g.entries;
      EntryOfFile(levels, l, g, x);
      EntryInRange(f, y);
      assert !Overlaps(g, Some(f.smallest.user), Some(f.largest.user));
    }
  }

  lemma {:induction false} AddedRecency(levels: Levels, levels': Levels, level: nat, f: File, nextFile: nat)
    requires ShapeOk(levels) && Recency(levels) && Numbers(levels, nextFile)
    requires Added(levels, levels', level, f) && Flushable(levels, level, f, nextFile)
    ensures Recency(levels')
  {
    forall l, m | 0 <= l < m < |levels'|
      ensures NewerThan(LevelData(levels'[l]), LevelData(levels'[m]))
    {
      AddedPair(levels, levels', level, f, nextFile, l, m);
    }
    forall g, h | g in levels'[0] && h in levels'[0] && g.number > h.number
      ensures NewerThan(EntrySet(g.entries), EntrySet(h.entries))
    {
      ZeroPair(levels, levels', level, f, nextFile, g, h);
    }
  }

  lemma {:induction false} AddedPair(levels: Levels, levels': Levels, level: nat, f: File, nextFile: nat, l: nat,
                                     m: nat)
    requires ShapeOk(levels) && Recency(levels)
    requires Added(levels, levels', level, f) && Flushable(levels, level, f, nextFile) && l < m < |levels'|
    ensures NewerThan(LevelData(levels'[l]), LevelData(levels'[m]))
  {
    AddedData(levels, levels', level, f);
    assert NewerThan(LevelData(levels[l]), LevelData(levels[m]));
    if m == level {
      NoSharedKey(levels, level, f, nextFile, l);
      NewerUnion(LevelData(levels[level]), EntrySet(f.entries), LevelData(levels[l]));
    } else if l == level {
      LevelInTree(levels, m);
      NewerMono(EntrySet(f.entries), TreeData(levels), EntrySet(f.entries), LevelData(levels[m]));
      NewerUnion(LevelData(levels[level]), EntrySet(f.entries), LevelData(levels[m]));
    }
  }

  lemma {:induction false} LevelInTree(levels: Levels, l: nat)
    requires l < |levels|
    ensures LevelData(levels[l]) <= TreeData(levels)
  {
  }

  lemma {:induction false} ZeroPair(levels: Levels, levels': Levels, level: nat, f: File, nextFile: nat, g: File,
                                    h: File)
    requires |levels| > 0 && ZeroRecency(levels[0]) && Numbers(levels, nextFile)
    requires Added(levels, levels', level, f) && Flushable(levels, level, f, nextFile)
    requires g in levels'[0] && h in levels'[0] && g.number > h.number
    ensures NewerThan(EntrySet(g.entries), EntrySet(h.entries))
  {
    if g in levels[0] && h in levels[0] {
    } else {
      assert g == f && h in levels[0];
      forall y | y in EntrySet(h.entries) ensures y in TreeData(levels) { InTree(levels, 0, h, y); }
    }
  }

  lemma {:induction false} AddedNumbers(levels: Levels, levels': Levels, level: nat, f: File, nextFile: nat,
                                        nextFile': nat)
    requires Numbers(levels, nextFile) && nextFile <= f.number < nextFile' && Added(levels, levels', level, f)
    ensures Numbers(levels', nextFile')
  {
    forall l, m, g, h | 0 <= l < |levels'| && 0 <= m < |levels'| && g in levels'[l] && h in levels'[m] &&
      g.number == h.number
      ensures l == m && g == h
    {
      assert g in levels[l] || (l == level && g == f);
      assert h in levels[m] || (m == level && h == f);
    }
    forall l, g | 0 <= l < |levels'| && g in levels'[l] ensures g.number < nextFile' {
      assert g in levels[l] || g == f;
    }
  }

  lemma {:induction false} AddedTreeOk(levels: Levels, levels': Levels, level: nat, f: File, nextFile: nat,
                                       nextFile': nat)
    requires TreeOk(levels) && Numbers(levels, nextFile) && f.number < nextFile'
    requires Added(levels, levels', level, f) && Flushable(levels, level, f, nextFile)
    ensures TreeOk(levels') && Numbers(levels', nextFile')
  {
    AddedShape(levels, levels', level, f, nextFile);
    AddedRecency(levels, levels', level, f, nextFile);
    AddedNumbers(levels, levels', level, f, nextFile, nextFile');
  }

  // ---- What a compaction's outputs hold ----

  /** The outputs hold exactly the input entries that are not dropped. */
  lemma {:induction false} KeptData(input: seq<Entry>, smallest: nat, levels: Levels, level: nat)
    requires Sorted(input)
    ensures EntrySet(Kept(input, |input|, smallest, levels, level)) ==
      EntrySet(input) - DroppedSet(input, smallest, levels, level)
  {
    var kept, dropped := Kept(input, |input|, smallest, levels, level), DroppedSet(input, smallest, levels, level);
    forall e ensures e in kept <==> e in EntrySet(input) && e !in dropped {
      KeptMember(input, |input|, smallest, levels, level, e);
      if e in EntrySet(input) && e in dropped {
        var i :| 0 <= i < |input| && Dropped(input, i, smallest, levels, level) && input[i] == e;
        OnlyIndex(input, i);
      }
    }
  }

  lemma {:induction false} OnlyIndex(input: seq<Entry>, i: nat)
    requires Sorted(input) && i < |input|
    ensures forall j | 0 <= j < |input| && input[j] == input[i] :: j == i
  {
  }

  lemma {:induction false} DroppedAreInputs(upper: set<Entry>, levels: Levels, level: nat, in0: seq<File>,
                                            in1: seq<File>, input: seq<Entry>, smallest: nat)
    requires Setup(upper, levels, level, in0, in1, input)
    ensures DroppedSet(input, smallest, levels, level) <= EntrySet(input) <= TreeData(levels)
    ensures forall e | e in EntrySet(input) :: e !in upper
  {
    InputInBefore(upper, levels, level, in0, in1, input);
  }

  /** The data visible after installing a compaction is what the drop rules leave. */
  lemma {:induction false} CompactedData(upper: set<Entry>, levels: Levels, levels': Levels, level: nat, in0: seq<File>,
                                         in1: seq<File>, input: seq<Entry>, outs: seq<File>, smallest: nat)
    requires Setup(upper, levels, level, in0, in1, input)
    requires Replaced(levels, levels', level, in0, in1, outs)
    requires LevelData(outs) == EntrySet(Kept(input, |input|, smallest, levels, level))
    ensures upper + TreeData(levels') == After(upper, levels, level, input, smallest)
  {
    ReplacedTreeData(levels, levels', level, in0, in1, outs);
    KeptData(input, smallest, levels, level);
    DroppedAreInputs(upper, levels, level, in0, in1, input, smallest);
    WithoutDropped(upper, TreeData(levels), EntrySet(input), DroppedSet(input, smallest, levels, level));
  }

  lemma {:induction false} WithoutDropped(upper: set<Entry>, tree: set<Entry>, input: set<Entry>, dropped: set<Entry>)
    requires dropped <= input <= tree && forall e | e in input :: e !in upper
    ensures upper + (tree - input + (input - dropped)) == upper + tree - dropped
  {
  }
}
