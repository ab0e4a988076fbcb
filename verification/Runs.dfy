/** Sorted runs: the memtable's insertion, the runs a compaction or an iterator reads, and their merge. */
module Runs {
  import opened Format
  import opened Tree
  import opened Iterators
  import opened Compaction
  import opened Drop
  import opened Install
  import opened Versions
  import opened Work

  /** Where the memtable's skip list puts a new entry. */
  function Insert(es: seq<Entry>, e: Entry): seq<Entry> {
    var i := LowerBound(es, e.key);
    es[..i] + [e] + es[i..]
  }

  ghost predicate NewKey(es: set<Entry>, e: Entry) {
    forall o | o in es :: o.key.user != e.key.user || o.key.sn != e.key.sn
  }

  /** The lower bound splits the entries around the new one. */
  lemma {:induction false} AroundBound(es: seq<Entry>, e: Entry)
    requires Sorted(es) && NewKey(EntrySet(es), e)
    ensures forall x | x in es[..LowerBound(es, e.key)] :: Less(x.key, e.key)
    ensures forall y | y in es[LowerBound(es, e.key)..] :: Less(e.key, y.key)
  {
    var i := LowerBound(es, e.key);
    forall y | y in es[i..] ensures Less(e.key, y.key) {
      var j :| 0 <= j < |es| && j >= i && es[j] == y;
      assert y in EntrySet(es);
      LowerBoundSplits(es, e.key, j);
    }
  }

  lemma {:induction false} InsertSorted(es: seq<Entry>, e: Entry)
    requires Sorted(es) && NewKey(EntrySet(es), e)
    ensures Sorted(Insert(es, e)) && EntrySet(Insert(es, e)) == EntrySet(es) + {e}
  {
    AroundBound(es, e);
    InsertBetween(es[..LowerBound(es, e.key)], e, es[LowerBound(es, e.key)..], es);
  }

  lemma {:induction false} InsertBetween(a: seq<Entry>, e: Entry, b: seq<Entry>, es: seq<Entry>)
    requires Sorted(es) && es == a + b
    requires (forall x | x in a :: Less(x.key, e.key)) && forall y | y in b :: Less(e.key, y.key)
    ensures Sorted(a + [e] + b) && EntrySet(a + [e] + b) == EntrySet(es) + {e}
  {
    SortedParts(a, b);
    AppendSorted(a, [e]);
    AppendSorted(a + [e], b);
  }

  // ---- The sorted list of a set of entries ----

  ghost function SortedList(data: set<Entry>): seq<Entry> {
    if data == {} then [] else
      var e :| e in data;
      Insert(SortedList(data - {e}), e)
  }

  lemma {:induction false} SortedListOf(data: set<Entry>)
    requires Distinct(data)
    ensures Sorted(SortedList(data)) && EntrySet(SortedList(data)) == data
  {
    if data != {} {
      var e :| e in data && SortedList(data) == Insert(SortedList(data - {e}), e);
      SortedListOf(data - {e});
      InsertSorted(SortedList(data - {e}), e);
    }
  }

  ghost function RunsData(runs: seq<seq<Entry>>): set<Entry> {
    set k, e | 0 <= k < |runs| && e in runs[k] :: e
  }

  ghost predicate SortedRuns(runs: seq<seq<Entry>>) {
    forall k | 0 <= k < |runs| :: Sorted(runs[k])
  }

  ghost predicate DisjointRuns(runs: seq<seq<Entry>>) {
    forall j, k | 0 <= j < k < |runs| :: EntrySet(runs[j]) !! EntrySet(runs[k])
  }

  /** Disjoint sorted runs have a merge. */
  lemma {:induction false} MergeExists(runs: seq<seq<Entry>>)
    requires SortedRuns(runs) && DisjointRuns(runs) && Distinct(RunsData(runs))
    ensures Merges(runs, SortedList(RunsData(runs)))
    ensures EntrySet(SortedList(RunsData(runs))) == RunsData(runs)
  {
    var merged := SortedList(RunsData(runs));
    SortedListOf(RunsData(runs));
    forall e ensures e in merged <==> e in RunsData(runs) { assert e in merged <==> e in EntrySet(merged); }
    forall j, k, e | 0 <= j < |runs| && 0 <= k < |runs| && e in runs[j] && e in runs[k] ensures j == k {
      assert e in EntrySet(runs[j]) && e in EntrySet(runs[k]);
    }
  }

  // ---- The runs of one level ----

  /** One run for each file. */
  function FileRuns(files: seq<File>): seq<seq<Entry>> {
    seq(|files|, i requires 0 <= i < |files| => files[i].entries)
  }

  lemma {:induction false} FileRunsFacts(files: seq<File>)
    requires FilesOk(files)
    ensures SortedRuns(FileRuns(files)) && RunsData(FileRuns(files)) == LevelData(files)
  {
    var runs := FileRuns(files);
    forall e ensures e in RunsData(runs) <==> e in LevelData(files) {
      if e in LevelData(files) {
        var f :| f in files && e in f.entries;
        var k :| 0 <= k < |files| && files[k] == f;
        assert e in runs[k];
      }
      if e in RunsData(runs) {
        var k :| 0 <= k < |runs| && e in runs[k];
        assert files[k] in files;
      }
    }
  }

  /** The concatenated entries of a sorted level are one sorted run. */
  lemma {:induction false} ConcatSorted(files: seq<File>)
    requires FilesOk(files) && LevelSorted(files)
    ensures Sorted(Concat(files)) && EntrySet(Concat(files)) == LevelData(files)
  {
    if |files| > 0 {
      var n := |files| - 1;
      var init, f := files[..n], files[n];
      ConcatSorted(init);
      LevelDataLast(files);
      assert FileOk(f);
      forall x, y | x in Concat(init) && y in f.entries ensures Less(x.key, y.key) {
        assert x in EntrySet(Concat(init));
        EntryBefore(files, x, y);
      }
      AppendSorted(Concat(init), f.entries);
    }
  }

  lemma {:induction false} LevelDataLast(files: seq<File>)
    requires |files| > 0
    ensures LevelData(files) == LevelData(files[..|files| - 1]) + EntrySet(files[|files| - 1].entries)
  {
    assert files == files[..|files| - 1] + [files[|files| - 1]];
  }

  lemma {:induction false} EntryBefore(files: seq<File>, x: Entry, y: Entry)
    requires FilesOk(files) && LevelSorted(files) && |files| > 0
    requires x in LevelData(files[..|files| - 1]) && y in files[|files| - 1].entries
    ensures Less(x.key, y.key)
  {
    var n := |files| - 1;
    var g :| g in files[..n] && x in g.entries;
    var k :| 0 <= k < n && files[k] == g;
    EntryInRange(files[k], x);
    EntryInRange(files[n], y);
    assert Less(files[k].largest, files[n].smallest);
  }

  /** Taking some files of a sorted level in order leaves them sorted. */
  lemma {:induction false} OverlappingSorted(files: seq<File>, lo: Option<int>, hi: Option<int>)
    requires LevelSorted(files)
    ensures LevelSorted(Overlapping(files, lo, hi))
  {
    if |files| > 0 {
      var n := |files| - 1;
      OverlappingSorted(files[..n], lo, hi);
      OverlappingMembers(files[..n], lo, hi);
      var init := Overlapping(files[..n], lo, hi);
      forall i | 0 <= i < |init| ensures Less(init[i].largest, files[n].smallest) {
        assert init[i] in init && init[i] in files[..n];
        var k :| 0 <= k < n && files[k] == init[i];
      }
    }
  }

  /** No file is listed twice. */
  ghost predicate Once(files: seq<File>) { forall i, j | 0 <= i < j < |files| :: files[i] != files[j] }

  lemma {:induction false} OverlappingOnce(files: seq<File>, lo: Option<int>, hi: Option<int>)
    requires Once(files)
    ensures Once(Overlapping(files, lo, hi))
  {
    if |files| > 0 {
      var n := |files| - 1;
      OverlappingOnce(files[..n], lo, hi);
      OverlappingMembers(files[..n], lo, hi);
      var init := Overlapping(files[..n], lo, hi);
      forall i | 0 <= i < |init| ensures init[i] != files[n] {
        assert init[i] in init && init[i] in files[..n];
        var k :| 0 <= k < n && files[k] == init[i];
      }
    }
  }

  lemma {:induction false} ZeroRunsDisjoint(files: seq<File>, inputs: seq<File>)
    requires UniqueNumbers(files) && ZeroRecency(files) && Once(inputs) && forall f | f in inputs :: f in files
    ensures DisjointRuns(FileRuns(inputs))
  {
    var runs := FileRuns(inputs);
    forall j, k | 0 <= j < k < |runs| ensures EntrySet(runs[j]) !! EntrySet(runs[k]) {
      var f, g := inputs[j], inputs[k];
      assert f in inputs && g in inputs && f != g;
      assert NewerThan(EntrySet(f.entries), EntrySet(g.entries)) || NewerThan(EntrySet(g.entries), EntrySet(f.entries));
    }
  }

  /** Adding a run that shares nothing with the others. */
  lemma {:induction false} AddRun(runs: seq<seq<Entry>>, run: seq<Entry>)
    requires SortedRuns(runs) && DisjointRuns(runs) && Sorted(run) && EntrySet(run) !! RunsData(runs)
    ensures SortedRuns(runs + [run]) && DisjointRuns(runs + [run])
    ensures RunsData(runs + [run]) == RunsData(runs) + EntrySet(run)
  {
    var all := runs + [run];
    forall j, k | 0 <= j < k < |all| ensures EntrySet(all[j]) !! EntrySet(all[k]) {
      if k == |runs| { assert EntrySet(all[j]) <= RunsData(runs); }
    }
    forall e ensures e in RunsData(all) <==> e in RunsData(runs) + EntrySet(run) {
      if e in RunsData(runs) {
        var k :| 0 <= k < |runs| && e in runs[k];
        assert e in all[k];
      }
      if e in EntrySet(run) { assert e in all[|runs|]; }
    }
  }

  // ---- Merging iterators over runs ----

  /** One child iterator for each run. */
  method NewRunIterators(runs: seq<seq<Entry>>) returns (children: seq<RunIterator>)
    requires SortedRuns(runs)
    ensures |children| == |runs| &&
      forall k | 0 <= k < |runs| :: fresh(children[k]) && children[k].Ok() && children[k].entries == runs[k]
    ensures forall j, k | 0 <= j < k < |children| :: children[j] != children[k]
  {
    children := [];
    for i := 0 to |runs|
      invariant |children| == i &&
        forall k | 0 <= k < i :: fresh(children[k]) && children[k].Ok() && children[k].entries == runs[k]
      invariant forall j, k | 0 <= j < k < i :: children[j] != children[k]
    {
      var child := new RunIterator(runs[i]);
      children := children + [child];
    }
  }

  method NewMergingIterator(runs: seq<seq<Entry>>) returns (m: MergingIterator)
    requires SortedRuns(runs) && DisjointRuns(runs) && Distinct(RunsData(runs))
    ensures fresh(m) && fresh(m.children) && m.Ok() && EntrySet(m.merged) == RunsData(runs)
  {
    var children := NewRunIterators(runs);
    MergeExists(runs);
    m := new MergingIterator(children, runs, SortedList(RunsData(runs)));
  }

  // ---- The runs of a compaction ----

  /** The runs that one side of a compaction's inputs contributes. */
  function SideRuns(level: nat, files: seq<File>): seq<seq<Entry>> {
    if |files| == 0 then [] else if level == 0 then FileRuns(files) else [Concat(files)]
  }

  ghost predicate RunsOf(runs: seq<seq<Entry>>, data: set<Entry>) {
    SortedRuns(runs) && DisjointRuns(runs) && RunsData(runs) == data
  }

  lemma {:induction false} OrderedOnce(files: seq<File>)
    requires InOrder(files)
    ensures Once(files)
  {
  }

  /** The picked files of a level are sorted runs that share nothing. */
  lemma {:induction false} PickedRuns(levels: Levels, level: nat, inputs: seq<File>, i: nat, j: nat)
    requires TreeOk(levels) && LevelsInOrder(levels) && level < NUM_LEVELS && Picked(levels[level], level, inputs, i, j)
    ensures RunsOf(SideRuns(level, inputs), LevelData(inputs))
  {
    var files := levels[level];
    forall f | f in inputs ensures f in files { PickedMember(files, level, inputs, i, j, f); }
    SomeFilesOk(files, inputs);
    if level == 0 {
      var ub, ue :| ZeroRange(files, inputs, ub, ue);
      OrderedOnce(files);
      OverlappingOnce(files, ub, ue);
      FileRunsFacts(inputs);
      ZeroRunsDisjoint(files, inputs);
    } else {
      SliceSorted(files, inputs, i, j);
      OneRun(inputs);
    }
  }

  lemma {:induction false} SliceSorted(files: seq<File>, inputs: seq<File>, i: nat, j: nat)
    requires LevelSorted(files) && IsSlice(files, inputs, i, j)
    ensures LevelSorted(inputs)
  {
  }

  lemma {:induction false} SomeFilesOk(files: seq<File>, some: seq<File>)
    requires FilesOk(files) && forall f | f in some :: f in files
    ensures FilesOk(some)
  {
    forall i | 0 <= i < |some| ensures FileOk(some[i]) { assert some[i] in files; }
  }

  lemma {:induction false} OneRun(files: seq<File>)
    requires FilesOk(files) && LevelSorted(files)
    ensures RunsOf([Concat(files)], LevelData(files))
  {
    ConcatSorted(files);
    var runs := [Concat(files)];
    forall e ensures e in RunsData(runs) <==> e in LevelData(files) {
      if e in LevelData(files) { assert e in EntrySet(Concat(files)) && e in runs[0]; }
      if e in RunsData(runs) { assert e in EntrySet(Concat(files)); }
    }
  }

  lemma {:induction false} NextRuns(levels: Levels, level: nat, in1: seq<File>, lo: int, hi: int)
    requires ShapeOk(levels) && 0 < level < NUM_LEVELS && in1 == Overlapping(levels[level], Some(lo), Some(hi))
    ensures RunsOf(SideRuns(level, in1), LevelData(in1))
  {
    if |in1| > 0 {
      OverlappingMembers(levels[level], Some(lo), Some(hi));
      SomeFilesOk(levels[level], in1);
      OverlappingSorted(levels[level], Some(lo), Some(hi));
      OneRun(in1);
    }
  }

  lemma {:induction false} TwoSides(a: seq<seq<Entry>>, b: seq<seq<Entry>>, x: set<Entry>, y: set<Entry>)
    requires RunsOf(a, x) && RunsOf(b, y) && x !! y
    ensures RunsOf(a + b, x + y)
  {
    var all := a + b;
    forall j, k | 0 <= j < k < |all| ensures EntrySet(all[j]) !! EntrySet(all[k]) {
      if j < |a| { assert EntrySet(all[j]) <= x; }
      if k >= |a| { assert EntrySet(all[k]) <= y; }
    }
    forall e ensures e in RunsData(all) <==> e in x + y {
      if e in x {
        var k :| 0 <= k < |a| && e in a[k];
        assert e in all[k];
      }
      if e in y {
        var k :| 0 <= k < |b| && e in b[k];
        assert e in all[|a| + k];
      }
    }
  }

  /** Data of two levels is disjoint. */
  lemma {:induction false} LevelsDisjoint(levels: Levels, l: nat, m: nat)
    requires Recency(levels) && l < m < |levels|
    ensures LevelData(levels[l]) !! LevelData(levels[m])
  {
    assert NewerThan(LevelData(levels[l]), LevelData(levels[m]));
  }

  /** The inputs of a compaction are sorted runs whose union is the input data. */
  lemma {:induction false} ChosenRuns(levels: Levels, level: nat, in0: seq<File>, in1: seq<File>, i: nat, j: nat)
    requires TreeOk(levels) && LevelsInOrder(levels) && level + 1 < NUM_LEVELS && Chosen(levels, level, in0, in1, i, j)
    requires Distinct(TreeData(levels))
    ensures RunsOf(SideRuns(level, in0) + SideRuns(level + 1, in1), InputData(in0, in1)) &&
      Distinct(InputData(in0, in1))
  {
    PickedRuns(levels, level, in0, i, j);
    var smallest, largest :| IsHull(in0, smallest, largest) &&
      in1 == Overlapping(levels[level + 1], Some(smallest.user), Some(largest.user));
    NextRuns(levels, level + 1, in1, smallest.user, largest.user);
    ChosenClosed(levels, level, in0, in1, i, j);
    SidesDisjoint(levels, level, in0, in1);
    TwoSides(SideRuns(level, in0), SideRuns(level + 1, in1), LevelData(in0), LevelData(in1));
  }

  lemma {:induction false} SidesDisjoint(levels: Levels, level: nat, in0: seq<File>, in1: seq<File>)
    requires Recency(levels) && Closed(levels, level, in0, in1)
    ensures LevelData(in0) !! LevelData(in1) && InputData(in0, in1) <= TreeData(levels)
  {
    LevelsDisjoint(levels, level, level + 1);
    forall e | e in InputData(in0, in1)
      ensures e in LevelData(in0) ==> e in LevelData(levels[level])
      ensures e in LevelData(in1) ==> e in LevelData(levels[level + 1])
      ensures e in TreeData(levels)
    {
      InputInLevel(levels, level, in0, in1, e);
    }
  }

  /** The merged inputs of a compaction. */
  method MakeInputIterator(level: nat, in0: seq<File>, in1: seq<File>) returns (m: MergingIterator)
    requires RunsOf(SideRuns(level, in0) + SideRuns(level + 1, in1), InputData(in0, in1)) &&
      Distinct(InputData(in0, in1))
    ensures fresh(m) && fresh(m.children) && m.Ok() && EntrySet(m.merged) == InputData(in0, in1)
  {
    m := NewMergingIterator(SideRuns(level, in0) + SideRuns(level + 1, in1));
  }

  // ---- The runs of the whole database ----

  lemma {:induction false} AddSide(runs: seq<seq<Entry>>, data: set<Entry>, run: seq<Entry>)
    requires RunsOf(runs, data) && Sorted(run) && EntrySet(run) !! data
    ensures RunsOf(runs + [run], data + EntrySet(run))
  {
    AddRun(runs, run);
  }

  lemma {:induction false} LevelRuns(levels: Levels, l: nat)
    requires TreeOk(levels) && LevelsInOrder(levels) && l < NUM_LEVELS
    ensures RunsOf(SideRuns(l, levels[l]), LevelData(levels[l]))
  {
    if |levels[l]| == 0 {
    } else if l == 0 {
      OrderedOnce(levels[0]);
      FileRunsFacts(levels[0]);
      ZeroRunsDisjoint(levels[0], levels[0]);
    } else {
      OneRun(levels[l]);
    }
  }

  ghost function FirstLevels(levels: Levels, n: nat): set<Entry>
    requires n <= |levels|
  {
    if n == 0 then {} else FirstLevels(levels, n - 1) + LevelData(levels[n - 1])
  }

  lemma {:induction false} FirstLevelsMember(levels: Levels, n: nat, e: Entry)
    requires n <= |levels|
    ensures e in FirstLevels(levels, n) <==> exists l :: 0 <= l < n && e in LevelData(levels[l])
  {
    if n > 0 { FirstLevelsMember(levels, n - 1, e); }
  }

  lemma {:induction false} AllLevels(levels: Levels)
    ensures FirstLevels(levels, |levels|) == TreeData(levels)
  {
    forall e ensures e in FirstLevels(levels, |levels|) <==>
      e in TreeData(levels) { FirstLevelsMember(levels, |levels|, e); }
  }

  lemma {:induction false} FirstLevelsApart(levels: Levels, n: nat)
    requires Recency(levels) && n < |levels|
    ensures FirstLevels(levels, n) !! LevelData(levels[n])
    ensures FirstLevels(levels, n) <= TreeData(levels)
  {
    forall e | e in FirstLevels(levels, n) ensures e !in LevelData(levels[n]) && e in TreeData(levels) {
      FirstLevelsMember(levels, n, e);
      var l :| 0 <= l < n && e in LevelData(levels[l]);
      LevelsDisjoint(levels, l, n);
    }
  }

  /** The version's iterators: each file of level 0, and one over the files of each deeper level. */
  method AddIterators(levels: Levels, runs0: seq<seq<Entry>>, ghost upper: set<Entry>) returns (runs: seq<seq<Entry>>)
    requires TreeOk(levels) && LevelsInOrder(levels) && RunsOf(runs0, upper) && upper !! TreeData(levels)
    ensures RunsOf(runs, upper + TreeData(levels))
  {
    runs := runs0;
    for l := 0 to NUM_LEVELS
      invariant RunsOf(runs, upper + FirstLevels(levels, l))
    {
      LevelRuns(levels, l);
      FirstLevelsApart(levels, l);
      LevelInTree(levels, l);
      TwoSides(runs, SideRuns(l, levels[l]), upper + FirstLevels(levels, l), LevelData(levels[l]));
      assert upper + FirstLevels(levels, l + 1) == upper + FirstLevels(levels, l) + LevelData(levels[l]);
      runs := runs + SideRuns(l, levels[l]);
    }
    AllLevels(levels);
  }
}
