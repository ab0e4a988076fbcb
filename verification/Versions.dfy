/** Version edits and the builder that applies them to a version. */
module Versions {
  import opened Format
  import opened Tree
  import opened Coding

  datatype VersionEdit = VersionEdit(
    comparator: Option<seq<Byte>>, logNumber: Option<nat>, prevLogNumber: Option<nat>,
    nextFileNumber: Option<nat>, lastSequence: Option<nat>,
    compactPointers: seq<(nat, Key)>, deletedFiles: seq<(nat, nat)>, newFiles: seq<(nat, File)>)

  ghost predicate EditOk(edit: VersionEdit) {
    (forall d | d in edit.deletedFiles :: d.0 < NUM_LEVELS) && (forall n | n in edit.newFiles :: n.0 < NUM_LEVELS)
  }

  // ---- The set of deleted files, kept in order ----

  predicate PairLess(a: (nat, nat), b: (nat, nat)) { a.0 < b.0 || (a.0 == b.0 && a.1 < b.1) }

  ghost predicate PairsInOrder(s: seq<(nat, nat)>) {
    forall i, j | 0 <= i < j < |s| :: PairLess(s[i], s[j])
  }

  /** Insertion into an ordered set. */
  function InsertPair(s: seq<(nat, nat)>, p: (nat, nat)): seq<(nat, nat)> {
    if |s| == 0 || PairLess(p, s[0]) then [p] + s
    else if PairLess(s[0], p) then [s[0]] + InsertPair(s[1..], p)
    else s
  }

  lemma {:induction false} InsertPairMembers(s: seq<(nat, nat)>, p: (nat, nat))
    requires PairsInOrder(s)
    ensures PairsInOrder(InsertPair(s, p))
    ensures forall q :: q in InsertPair(s, p) <==> q in s || q == p
  {
    if |s| == 0 || PairLess(p, s[0]) {
    } else if PairLess(s[0], p) {
      InsertPairMembers(s[1..], p);
      var r := InsertPair(s[1..], p);
      assert forall q :: q in s <==> q == s[0] || q in s[1..];
      forall j | 0 <= j < |r| ensures PairLess(s[0], r[j]) {
        assert r[j] in r;
      }
    }
  }

  /** Inserting behind everything appends. */
  lemma {:induction false} InsertPairLast(s: seq<(nat, nat)>, p: (nat, nat))
    requires PairsInOrder(s) && forall q | q in s :: PairLess(q, p)
    ensures InsertPair(s, p) == s + [p]
  {
    if |s| > 0 {
      assert PairLess(s[0], p);
      InsertPairLast(s[1..], p);
      assert s == [s[0]] + s[1..];
    }
  }

  // ---- Ordered lists of files ----

  /** Order by smallest key, ties by file number. */
  predicate ByLess(a: File, b: File) {
    Less(a.smallest, b.smallest) || (a.smallest == b.smallest && a.number < b.number)
  }

  ghost predicate InOrder(files: seq<File>) {
    forall i, j | 0 <= i < j < |files| :: ByLess(files[i], files[j])
  }

  /** Insertion into an ordered set: an equivalent element stays and the new one is ignored. */
  function InsertFile(files: seq<File>, f: File): seq<File> {
    if |files| == 0 || ByLess(f, files[0]) then [f] + files
    else if ByLess(files[0], f) then [files[0]] + InsertFile(files[1..], f)
    else files
  }

  lemma {:induction false} InsertFileMembers(files: seq<File>, f: File)
    requires InOrder(files)
    ensures InOrder(InsertFile(files, f))
    ensures forall g | g in InsertFile(files, f) :: g in files || g == f
    ensures forall g | g in files :: g in InsertFile(files, f)
    ensures (forall g | g in files :: g.number != f.number) ==> f in InsertFile(files, f)
  {
    if |files| == 0 || ByLess(f, files[0]) {
    } else if ByLess(files[0], f) {
      InsertFileMembers(files[1..], f);
      var r := InsertFile(files[1..], f);
      assert forall g | g in files[1..] :: g in files;
      forall j | 0 <= j < |r| ensures ByLess(files[0], r[j]) {
        assert r[j] in r;
        assert r[j] in files[1..] || r[j] == f;
      }
    } else {
      assert files[0].number == f.number;
    }
  }

  // ---- What a builder has accumulated for one level ----

  datatype LevelState = LevelState(deleted: set<nat>, added: seq<File>)

  const NoChange: LevelState := LevelState({}, [])

  function DeletedAt(deletedFiles: seq<(nat, nat)>, level: nat): set<nat> {
    set d | d in deletedFiles && d.0 == level :: d.1
  }

  function AddAll(s: LevelState, newFiles: seq<(nat, File)>, level: nat): LevelState
    decreases |newFiles|
  {
    if |newFiles| == 0 then s else
      var n := |newFiles| - 1;
      var t := AddAll(s, newFiles[..n], level);
      var f := newFiles[n].1;
      if newFiles[n].0 == level then LevelState(t.deleted - {f.number}, InsertFile(t.added, f)) else t
  }

  lemma {:induction false} AddAllOrdered(s: LevelState, newFiles: seq<(nat, File)>, level: nat)
    requires InOrder(s.added)
    ensures InOrder(AddAll(s, newFiles, level).added)
    decreases |newFiles|
  {
    if |newFiles| > 0 {
      var n := |newFiles| - 1;
      AddAllOrdered(s, newFiles[..n], level);
      InsertFileMembers(AddAll(s, newFiles[..n], level).added, newFiles[n].1);
    }
  }

  /** Deletions first, then additions; an added file is no longer deleted. */
  function ApplyLevel(s: LevelState, edit: VersionEdit, level: nat): LevelState {
    AddAll(LevelState(s.deleted + DeletedAt(edit.deletedFiles, level), s.added), edit.newFiles, level)
  }

  ghost predicate Live(base: seq<File>, s: LevelState, f: File) {
    (f in base || f in s.added) && f.number !in s.deleted
  }

  /** The files of a level after the edits: ordered, and exactly the live ones. */
  ghost predicate Saved(base: seq<File>, s: LevelState, files: seq<File>) {
    InOrder(files) && forall f :: f in files <==> Live(base, s, f)
  }

  ghost predicate Compatible(base: seq<File>, s: LevelState) {
    Apart(base, s.added)
  }

  lemma {:induction false} FirstIsMember(files: seq<File>)
    requires |files| > 0
    ensures files[0] in files
  {
  }

  lemma {:induction false} FirstIsLeast(files: seq<File>, k: nat)
    requires InOrder(files) && k < |files|
    ensures files[k] == files[0] || ByLess(files[0], files[k])
  {
  }

  /** An ordered list is determined by its members. */
  lemma {:induction false} OrderedUnique(a: seq<File>, b: seq<File>)
    requires InOrder(a) && InOrder(b) && forall f :: f in a <==> f in b
    ensures a == b
  {
    if |a| == 0 {
      if |b| > 0 { FirstIsMember(b); }
    } else {
      assert a[0] in b && |b| > 0;
      assert b[0] in a;
      var i :| 0 <= i < |b| && b[i] == a[0];
      var j :| 0 <= j < |a| && a[j] == b[0];
      FirstIsLeast(b, i);
      FirstIsLeast(a, j);
      assert a[0] == b[0];
      forall f ensures f in a[1..] <==> f in b[1..] {
        if f in a[1..] { MemberOfTail(a, b, f); }
        if f in b[1..] { MemberOfTail(b, a, f); }
      }
      OrderedUnique(a[1..], b[1..]);
      assert a == [a[0]] + a[1..] && b == [b[0]] + b[1..];
    }
  }

  lemma {:induction false} MemberOfTail(a: seq<File>, b: seq<File>, f: File)
    requires |a| > 0 && |b| > 0 && InOrder(a) && a[0] == b[0] && f in a[1..] && forall g :: g in a ==> g in b
    ensures f in b[1..]
  {
    var k :| 0 <= k < |a[1..]| && a[1..][k] == f;
    assert ByLess(a[0], a[k + 1]);
    assert a[k + 1] in b;
    var m :| 0 <= m < |b| && b[m] == f;
    assert b[m] == b[1..][m - 1];
  }

  function NewAt(newFiles: seq<(nat, File)>, level: nat): set<File> {
    set n | n in newFiles && n.0 == level :: n.1
  }

  /** The edit's files for the level have numbers of their own. */
  ghost predicate FreshNumbers(added: seq<File>, newFiles: seq<(nat, File)>, level: nat) {
    (forall i, j | 0 <= i < j < |newFiles| && newFiles[i].0 == level && newFiles[j].0 == level ::
      newFiles[i].1.number != newFiles[j].1.number) &&
    forall i, g | 0 <= i < |newFiles| && newFiles[i].0 == level && g in added :: newFiles[i].1.number != g.number
  }

  ghost function NumbersOf(files: set<File>): set<nat> { set f | f in files :: f.number }

  /** Additions take in every new file of the level and undelete its number. */
  lemma {:induction false} AddAllMembers(s: LevelState, newFiles: seq<(nat, File)>, level: nat)
    requires InOrder(s.added) && FreshNumbers(s.added, newFiles, level)
    ensures InOrder(AddAll(s, newFiles, level).added)
    ensures forall f :: f in AddAll(s, newFiles, level).added <==> f in s.added || f in NewAt(newFiles, level)
    ensures AddAll(s, newFiles, level).deleted == s.deleted - NumbersOf(NewAt(newFiles, level))
    decreases |newFiles|
  {
    if |newFiles| > 0 {
      var n := |newFiles| - 1;
      var t := AddAll(s, newFiles[..n], level);
      AddAllMembers(s, newFiles[..n], level);
      assert newFiles == newFiles[..n] + [newFiles[n]];
      NewAtAppend(newFiles, level);
      if newFiles[n].0 == level {
        var f := newFiles[n].1;
        forall g | g in t.added ensures g.number != f.number {
          if g in NewAt(newFiles[..n], level) {
            var k :| 0 <= k < n && newFiles[k].0 == level && newFiles[k].1 == g;
          }
        }
        InsertFileMembers(t.added, f);
      }
    }
  }

  lemma {:induction false} NewAtAppend(newFiles: seq<(nat, File)>, level: nat)
    requires |newFiles| > 0
    ensures var n := |newFiles| - 1;
      NewAt(newFiles, level) == NewAt(newFiles[..n], level) + if newFiles[n].0 == level then {newFiles[n].1} else {}
    ensures var n := |newFiles| - 1;
      NumbersOf(NewAt(newFiles, level)) ==
      NumbersOf(NewAt(newFiles[..n], level)) + if newFiles[n].0 == level then {newFiles[n].1.number} else {}
  {
    var n := |newFiles| - 1;
    assert newFiles == newFiles[..n] + [newFiles[n]];
    var more := if newFiles[n].0 == level then {newFiles[n].1} else {};
    forall f ensures f in NewAt(newFiles, level) <==> f in NewAt(newFiles[..n], level) + more {
      if f in NewAt(newFiles, level) {
        var x :| x in newFiles && x.0 == level && x.1 == f;
      }
      if f in more { assert newFiles[n] in newFiles; }
    }
    assert NewAt(newFiles, level) == NewAt(newFiles[..n], level) + more;
  }

  class Builder {
    const base: Levels
    var levels: seq<LevelState>

    constructor (base: Levels)
      requires |base| == NUM_LEVELS
      ensures this.base == base && levels == seq(NUM_LEVELS, _ => NoChange)
    {
      this.base := base;
      levels := seq(NUM_LEVELS, _ => NoChange);
    }

    method DeleteFiles(deletedFiles: seq<(nat, nat)>)
      requires |levels| == NUM_LEVELS && forall d | d in deletedFiles :: d.0 < NUM_LEVELS
      modifies this
      ensures |levels| == NUM_LEVELS
      ensures forall l | 0 <= l < NUM_LEVELS ::
        levels[l] == LevelState(old(levels[l]).deleted + DeletedAt(deletedFiles, l), old(levels[l]).added)
    {
      for i := 0 to |deletedFiles|
        invariant |levels| == NUM_LEVELS
        invariant forall l | 0 <= l < NUM_LEVELS ::
          levels[l] == LevelState(old(levels[l]).deleted + DeletedAt(deletedFiles[..i], l), old(levels[l]).added)
      {
        var (level, number) := deletedFiles[i];
        assert deletedFiles[..i + 1] == deletedFiles[..i] + [(level, number)];
        assert deletedFiles[i] in deletedFiles;
        forall l | 0 <= l < NUM_LEVELS
          ensures DeletedAt(deletedFiles[..i + 1], l) == DeletedAt(deletedFiles[..i], l) + if l == level then {number}
            else {}
        {
        }
        levels := levels[level := levels[level].(deleted := levels[level].deleted + {number})];
      }
      assert deletedFiles[..|deletedFiles|] == deletedFiles;
    }

    method AddFiles(newFiles: seq<(nat, File)>)
      requires |levels| == NUM_LEVELS && forall n | n in newFiles :: n.0 < NUM_LEVELS
      modifies this
      ensures |levels| == NUM_LEVELS
      ensures forall l | 0 <= l < NUM_LEVELS :: levels[l] == AddAll(old(levels[l]), newFiles, l)
    {
      for i := 0 to |newFiles|
        invariant |levels| == NUM_LEVELS
        invariant forall l | 0 <= l < NUM_LEVELS :: levels[l] == AddAll(old(levels[l]), newFiles[..i], l)
      {
        var (level, f) := newFiles[i];
        assert newFiles[..i + 1][..i] == newFiles[..i];
        assert newFiles[i] in newFiles;
        levels := levels[level := LevelState(levels[level].deleted - {f.number}, InsertFile(levels[level].added, f))];
      }
      assert newFiles[..|newFiles|] == newFiles;
    }

    /** Applies the edit to the accumulated state of every level: deletions first. */
    method Apply(edit: VersionEdit)
      requires |levels| == NUM_LEVELS && EditOk(edit)
      modifies this
      ensures |levels| == NUM_LEVELS
      ensures forall l | 0 <= l < NUM_LEVELS :: levels[l] == ApplyLevel(old(levels[l]), edit, l)
    {
      DeleteFiles(edit.deletedFiles);
      AddFiles(edit.newFiles);
    }

    /** Merges the pre-existing files of a level with the added ones, leaving out the deleted. */
    method SaveLevel(level: nat) returns (files: seq<File>)
      requires |levels| == NUM_LEVELS == |base| && level < NUM_LEVELS
      requires Compatible(base[level], levels[level])
      ensures Saved(base[level], levels[level], files)
    {
      var baseFiles, added, deleted := base[level], levels[level].added, levels[level].deleted;
      ghost var all := MergeFrom(baseFiles, added, deleted, 0, 0);
      files := [];
      var b := 0;
      for i := 0 to |added|
        invariant b <= |baseFiles| && files + MergeFrom(baseFiles, added, deleted, b, i) == all
      {
        while b < |baseFiles| && !ByLess(added[i], baseFiles[b])
          invariant b <= |baseFiles| && files + MergeFrom(baseFiles, added, deleted, b, i) == all
        {
          Regroup(files, MaybeAddFile(baseFiles[b], deleted), MergeFrom(baseFiles, added, deleted, b + 1, i));
          files := files + MaybeAddFile(baseFiles[b], deleted);
          b := b + 1;
        }
        Regroup(files, MaybeAddFile(added[i], deleted), MergeFrom(baseFiles, added, deleted, b, i + 1));
        files := files + MaybeAddFile(added[i], deleted);
      }
      while b < |baseFiles|
        invariant b <= |baseFiles| && files + MergeFrom(baseFiles, added, deleted, b, |added|) == all
      {
        Regroup(files, MaybeAddFile(baseFiles[b], deleted), MergeFrom(baseFiles, added, deleted, b + 1, |added|));
        files := files + MaybeAddFile(baseFiles[b], deleted);
        b := b + 1;
      }
      assert files == all;
      MergeIsSaved(base[level], levels[level]);
    }

    method SaveTo() returns (v: Levels)
      requires |levels| == NUM_LEVELS == |base|
      requires forall l | 0 <= l < NUM_LEVELS :: Compatible(base[l], levels[l])
      ensures |v| == NUM_LEVELS && forall l | 0 <= l < NUM_LEVELS :: Saved(base[l], levels[l], v[l])
    {
      v := [];
      for level := 0 to NUM_LEVELS
        invariant |v| == level && forall l | 0 <= l < level :: Saved(base[l], levels[l], v[l])
      {
        var files := SaveLevel(level);
        v := v + [files];
      }
    }
  }

  /** The file, unless it is deleted. */
  function MaybeAddFile(f: File, deleted: set<nat>): seq<File> {
    if f.number in deleted then [] else [f]
  }

  /** The next file of the merge is an added one: std::upper_bound has passed every base file before it. */
  predicate AddedNext(base: seq<File>, added: seq<File>, b: nat, i: nat)
    requires b <= |base|
  {
    i < |added| && (b == |base| || ByLess(added[i], base[b]))
  }

  /** The merge of base[b..] and added[i..] without the deleted files. */
  function MergeFrom(base: seq<File>, added: seq<File>, deleted: set<nat>, b: nat, i: nat): seq<File>
    requires b <= |base| && i <= |added|
    decreases |base| - b + |added| - i
  {
    if AddedNext(base, added, b, i) then
      MaybeAddFile(added[i], deleted) + MergeFrom(base, added, deleted, b, i + 1)
    else if b < |base| then
      MaybeAddFile(base[b], deleted) + MergeFrom(base, added, deleted, b + 1, i)
    else []
  }

  ghost predicate Apart(base: seq<File>, added: seq<File>) {
    InOrder(base) && InOrder(added) && forall a, b | a in base && b in added :: a.number != b.number
  }

  ghost predicate Left(base: seq<File>, added: seq<File>, b: nat, i: nat, f: File)
    requires b <= |base| && i <= |added|
  {
    f in base[b..] || f in added[i..]
  }

  /** f comes before every file still to be merged. */
  lemma {:induction false} MergeLeast(base: seq<File>, added: seq<File>, b: nat, i: nat, f: File, g: File)
    requires Apart(base, added) && b <= |base| && i <= |added|
    requires if AddedNext(base, added, b, i) then f == added[i] && Left(base, added, b, i + 1, g)
             else b < |base| && f == base[b] && Left(base, added, b + 1, i, g)
    ensures ByLess(f, g)
  {
    if i < |added| && b < |base| {
      assert base[b] in base && added[i] in added;
      assert base[b].number != added[i].number;
    }
    if k :| 0 <= k < |base| && base[k] == g && k >= b {
      assert k > b ==> ByLess(base[b], base[k]);
    } else {
      var m :| 0 <= m < |added[i..]| && added[i..][m] == g;
      assert m > 0 ==> ByLess(added[i], added[i + m]);
    }
  }

  lemma {:induction false} MergeMembers(base: seq<File>, added: seq<File>, deleted: set<nat>, b: nat, i: nat, f: File)
    requires b <= |base| && i <= |added|
    ensures f in MergeFrom(base, added, deleted, b, i) <==> Left(base, added, b, i, f) && f.number !in deleted
    decreases |base| - b + |added| - i
  {
    if AddedNext(base, added, b, i) {
      MergeMembers(base, added, deleted, b, i + 1, f);
      assert added[i..] == [added[i]] + added[i + 1..];
    } else if b < |base| {
      MergeMembers(base, added, deleted, b + 1, i, f);
      assert base[b..] == [base[b]] + base[b + 1..];
    }
  }

  lemma {:induction false} MergeOrdered(base: seq<File>, added: seq<File>, deleted: set<nat>, b: nat, i: nat)
    requires Apart(base, added) && b <= |base| && i <= |added|
    ensures InOrder(MergeFrom(base, added, deleted, b, i))
    decreases |base| - b + |added| - i
  {
    if AddedNext(base, added, b, i) {
      MergeOrdered(base, added, deleted, b, i + 1);
      PrependMerge(base, added, deleted, b, i, b, i + 1, added[i]);
      assert MergeFrom(base, added, deleted, b, i) == MaybeAddFile(added[i], deleted) +
        MergeFrom(base, added, deleted, b, i + 1);
    } else if b < |base| {
      MergeOrdered(base, added, deleted, b + 1, i);
      PrependMerge(base, added, deleted, b, i, b + 1, i, base[b]);
      assert MergeFrom(base, added, deleted, b, i) == MaybeAddFile(base[b], deleted) +
        MergeFrom(base, added, deleted, b + 1, i);
    }
  }

  lemma {:induction false} PrependMerge(base: seq<File>, added: seq<File>, deleted: set<nat>, b: nat, i: nat, b': nat,
                                        i': nat, f: File)
    requires Apart(base, added) && b <= b' <= |base| && i <= i' <= |added| &&
      InOrder(MergeFrom(base, added, deleted, b', i'))
    requires if AddedNext(base, added, b, i) then f == added[i] && b' == b && i' == i + 1
             else b < |base| && f == base[b] && b' == b + 1 && i' == i
    ensures InOrder(MaybeAddFile(f, deleted) + MergeFrom(base, added, deleted, b', i'))
  {
    var rest := MergeFrom(base, added, deleted, b', i');
    forall g | g in rest ensures ByLess(f, g) {
      MergeMembers(base, added, deleted, b', i', g);
      MergeLeast(base, added, b, i, f, g);
    }
    PrependOrdered(f, deleted, rest);
  }

  lemma {:induction false} PrependOrdered(f: File, deleted: set<nat>, files: seq<File>)
    requires InOrder(files) && forall g | g in files :: ByLess(f, g)
    ensures InOrder(MaybeAddFile(f, deleted) + files)
  {
  }

  lemma {:induction false} MergeIsSaved(base: seq<File>, s: LevelState)
    requires Compatible(base, s)
    ensures Saved(base, s, MergeFrom(base, s.added, s.deleted, 0, 0))
  {
    MergeOrdered(base, s.added, s.deleted, 0, 0);
    forall f ensures f in MergeFrom(base, s.added, s.deleted, 0, 0) <==> Live(base, s, f) {
      MergeMembers(base, s.added, s.deleted, 0, 0, f);
    }
  }
}
