/** What the edits of a flush, a move and a compaction do to a version when a builder applies them. */
module Edits {
  import opened Format
  import opened Tree
  import opened Versions
  import opened Drop
  import opened Install

  const EMPTY_EDIT := VersionEdit(None, None, None, None, None, [], [], [])

  function Additions(level: nat, files: seq<File>): seq<(nat, File)> {
    seq(|files|, i requires 0 <= i < |files| => (level, files[i]))
  }

  ghost predicate SavedAll(base: Levels, edit: VersionEdit, v: Levels) {
    |base| == |v| == NUM_LEVELS && forall l | 0 <= l < NUM_LEVELS :: Saved(base[l], ApplyLevel(NoChange, edit, l), v[l])
  }

  ghost function NumberSet(files: seq<File>): set<nat> { set f | f in files :: f.number }

  lemma {:induction false} DeletedInsert(s: seq<(nat, nat)>, p: (nat, nat), l: nat)
    requires PairsInOrder(s)
    ensures DeletedAt(InsertPair(s, p), l) == DeletedAt(s, l) + if l == p.0 then {p.1} else {}
  {
    InsertPairMembers(s, p);
  }

  lemma {:induction false} AdditionsAt(level: nat, files: seq<File>, l: nat)
    ensures NewAt(Additions(level, files), l) == if l == level then set f | f in files else {}
  {
    var adds := Additions(level, files);
    forall f ensures f in NewAt(adds, l) <==> l == level && f in files {
      if f in NewAt(adds, l) {
        var i :| 0 <= i < |adds| && adds[i] == (l, f);
        assert files[i] in files;
      }
      if l == level && f in files {
        var i :| 0 <= i < |files| && files[i] == f;
        assert adds[i] == (level, f) && adds[i] in adds;
      }
    }
  }

  /** No two of the files share a number. */
  ghost predicate OwnNumbers(files: seq<File>) {
    forall i, j | 0 <= i < j < |files| :: files[i].number != files[j].number
  }

  /** What the builder holds for a level after one edit that removes and adds files. */
  lemma {:induction false} AppliedLevel(edit: VersionEdit, level: nat, outs: seq<File>, l: nat)
    requires edit.newFiles == Additions(level, outs) && OwnNumbers(outs)
    ensures InOrder(ApplyLevel(NoChange, edit, l).added)
    ensures forall f :: f in ApplyLevel(NoChange, edit, l).added <==> l == level && f in outs
    ensures ApplyLevel(NoChange, edit, l).deleted ==
      DeletedAt(edit.deletedFiles, l) - if l == level then NumberSet(outs) else {}
  {
    var start := LevelState({} + DeletedAt(edit.deletedFiles, l), []);
    assert start == LevelState(NoChange.deleted + DeletedAt(edit.deletedFiles, l), NoChange.added);
    AddAllMembers(start, edit.newFiles, l);
    AdditionsAt(level, outs, l);
  }

  /** Numbers of the added files are new to the level. */
  ghost predicate NewNumbers(files: seq<File>, outs: seq<File>) {
    forall f, g | f in files && g in outs :: f.number != g.number
  }

  lemma {:induction false} CompatibleEdit(base: seq<File>, edit: VersionEdit, level: nat, outs: seq<File>, l: nat)
    requires edit.newFiles == Additions(level, outs) && OwnNumbers(outs)
    requires InOrder(base) && (l == level ==> NewNumbers(base, outs))
    ensures Compatible(base, ApplyLevel(NoChange, edit, l))
  {
    AppliedLevel(edit, level, outs, l);
  }

  /** A level the edit does not mention is unchanged. */
  lemma {:induction false} UntouchedLevel(base: seq<File>, edit: VersionEdit, level: nat, outs: seq<File>, l: nat,
                                          files: seq<File>)
    requires edit.newFiles == Additions(level, outs) && OwnNumbers(outs) && l != level
    requires DeletedAt(edit.deletedFiles, l) == {} && InOrder(base)
    requires Saved(base, ApplyLevel(NoChange, edit, l), files)
    ensures files == base
  {
    AppliedLevel(edit, level, outs, l);
    OrderedUnique(files, base);
  }

  // ---- A flush ----

  lemma {:induction false} FlushInstalls(base: Levels, v: Levels, level: nat, f: File, edit: VersionEdit)
    requires LevelsInOrder(base) && level < NUM_LEVELS
    requires edit.newFiles == Additions(level, [f]) && edit.deletedFiles == [] && SavedAll(base, edit, v)
    ensures Added(base, v, level, f)
  {
    forall l | 0 <= l < NUM_LEVELS && l != level ensures v[l] == base[l] {
      UntouchedLevel(base[l], edit, level, [f], l, v[l]);
    }
    AppliedLevel(edit, level, [f], level);
    assert Saved(base[level], ApplyLevel(NoChange, edit, level), v[level]);
    forall l | 0 <= l < |v| ensures InOrder(v[l]) { assert Saved(base[l], ApplyLevel(NoChange, edit, l), v[l]); }
  }

  // ---- A move or a compaction ----

  /** Removes the inputs and adds the outputs. */
  ghost predicate Replacing(edit: VersionEdit, level: nat, in0: seq<File>, in1: seq<File>, outs: seq<File>) {
    PairsInOrder(edit.deletedFiles) && edit.newFiles == Additions(level + 1, outs) &&
    forall l :: DeletedAt(edit.deletedFiles, l) ==
      (if l == level then NumberSet(in0) else if l == level + 1 then NumberSet(in1) else {})
  }

  /** In a level a file is removed by its number exactly when it is listed. */
  lemma {:induction false} RemovedByNumber(files: seq<File>, inputs: seq<File>, f: File)
    requires UniqueNumbers(files) && (forall g | g in inputs :: g in files) && f in files
    ensures f.number in NumberSet(inputs) <==> f in inputs
  {
  }

  lemma {:induction false} InputLevelSaved(base: seq<File>, files: seq<File>, edit: VersionEdit, level: nat,
                                           in0: seq<File>, in1: seq<File>, outs: seq<File>)
    requires UniqueNumbers(base) && Replacing(edit, level, in0, in1, outs) && OwnNumbers(outs) &&
      forall f | f in in0 :: f in base
    requires Saved(base, ApplyLevel(NoChange, edit, level), files)
    ensures forall f :: f in files <==> f in base && f !in in0
  {
    AppliedLevel(edit, level + 1, outs, level);
    forall f ensures f in files <==> f in base && f !in in0 {
      if f in base { RemovedByNumber(base, in0, f); }
    }
  }

  lemma {:induction false} OutputLevelSaved(base: seq<File>, files: seq<File>, edit: VersionEdit, level: nat,
                                            in0: seq<File>, in1: seq<File>, outs: seq<File>)
    requires UniqueNumbers(base) && Replacing(edit, level, in0, in1, outs) && OwnNumbers(outs) &&
      forall f | f in in1 :: f in base
    requires NewNumbers(base, outs) && Saved(base, ApplyLevel(NoChange, edit, level + 1), files)
    ensures forall f :: f in files <==> (f in base && f !in in1) || f in outs
  {
    AppliedLevel(edit, level + 1, outs, level + 1);
    forall f ensures f in files <==> (f in base && f !in in1) || f in outs {
      if f in base { RemovedByNumber(base, in1, f); }
    }
  }

  lemma {:induction false} ReplacingInstalls(base: Levels, v: Levels, level: nat, in0: seq<File>, in1: seq<File>,
                                             outs: seq<File>, edit: VersionEdit)
    requires LevelsInOrder(base) && level + 1 < NUM_LEVELS == |base| &&
      (forall l | 0 <= l < NUM_LEVELS :: UniqueNumbers(base[l]))
    requires Closed(base, level, in0, in1) && OwnNumbers(outs) && NewNumbers(base[level + 1], outs)
    requires Replacing(edit, level, in0, in1, outs) && SavedAll(base, edit, v)
    ensures Replaced(base, v, level, in0, in1, outs)
  {
    InputsOf(base, level, in0, in1);
    forall l | 0 <= l < NUM_LEVELS && l != level && l != level + 1 ensures v[l] == base[l] {
      UntouchedLevel(base[l], edit, level + 1, outs, l, v[l]);
    }
    assert Saved(base[level], ApplyLevel(NoChange, edit, level), v[level]);
    assert Saved(base[level + 1], ApplyLevel(NoChange, edit, level + 1), v[level + 1]);
    InputLevelSaved(base[level], v[level], edit, level, in0, in1, outs);
    OutputLevelSaved(base[level + 1], v[level + 1], edit, level, in0, in1, outs);
    forall l | 0 <= l < |v| ensures InOrder(v[l]) { assert Saved(base[l], ApplyLevel(NoChange, edit, l), v[l]); }
  }

  // ---- The versions that installing makes are those that the edits make ----

  lemma {:induction false} AddedIsSaved(base: Levels, v: Levels, level: nat, f: File, edit: VersionEdit)
    requires LevelsInOrder(base) && Added(base, v, level, f)
    requires edit.newFiles == Additions(level, [f]) && edit.deletedFiles == []
    ensures SavedAll(base, edit, v)
  {
    forall l | 0 <= l < NUM_LEVELS ensures Saved(base[l], ApplyLevel(NoChange, edit, l), v[l]) {
      AppliedLevel(edit, level, [f], l);
    }
  }

  lemma {:induction false} ReplacedIsSaved(base: Levels, v: Levels, level: nat, in0: seq<File>, in1: seq<File>,
                                           outs: seq<File>, edit: VersionEdit)
    requires LevelsInOrder(base) && level + 1 < NUM_LEVELS == |base| &&
      (forall l | 0 <= l < NUM_LEVELS :: UniqueNumbers(base[l]))
    requires Closed(base, level, in0, in1) && OwnNumbers(outs) && NewNumbers(base[level + 1], outs)
    requires Replacing(edit, level, in0, in1, outs) && Replaced(base, v, level, in0, in1, outs)
    ensures SavedAll(base, edit, v)
  {
    InputsOf(base, level, in0, in1);
    forall l | 0 <= l < NUM_LEVELS ensures Saved(base[l], ApplyLevel(NoChange, edit, l), v[l]) {
      AppliedLevel(edit, level + 1, outs, l);
      forall f ensures f in v[l] <==> Live(base[l], ApplyLevel(NoChange, edit, l), f) {
        if l == level && f in base[l] { RemovedByNumber(base[l], in0, f); }
        if l == level + 1 && f in base[l] { RemovedByNumber(base[l], in1, f); }
      }
    }
  }

  /** Applies an edit to a version. */
  method LogAndApply(base: Levels, edit: VersionEdit) returns (v: Levels)
    requires |base| == NUM_LEVELS && EditOk(edit)
    requires forall l | 0 <= l < NUM_LEVELS :: Compatible(base[l], ApplyLevel(NoChange, edit, l))
    ensures SavedAll(base, edit, v)
  {
    var builder := new Builder(base);
    builder.Apply(edit);
    v := builder.SaveTo();
  }

  /** The set of removals with the files of a level added. */
  function Removals(deleted: seq<(nat, nat)>, level: nat, files: seq<File>): seq<(nat, nat)> {
    if |files| == 0 then deleted
    else InsertPair(Removals(deleted, level, files[..|files| - 1]), (level, files[|files| - 1].number))
  }

  lemma {:induction false} RemovalsAt(deleted: seq<(nat, nat)>, level: nat, files: seq<File>)
    requires PairsInOrder(deleted)
    ensures PairsInOrder(Removals(deleted, level, files))
    ensures forall l :: DeletedAt(Removals(deleted, level, files), l) == DeletedAt(deleted, l) + if l == level then
      NumberSet(files) else {}
    ensures forall d | d in Removals(deleted, level, files) :: d in deleted || d.0 == level
  {
    if |files| > 0 {
      var n := |files| - 1;
      var r := Removals(deleted, level, files[..n]);
      RemovalsAt(deleted, level, files[..n]);
      InsertPairMembers(r, (level, files[n].number));
      assert files == files[..n] + [files[n]];
      NumberSetAppend(files[..n], files[n]);
      forall l ensures DeletedAt(InsertPair(r, (level, files[n].number)), l) == DeletedAt(r, l) + if l == level then
        {files[n].number} else {} {
        DeletedInsert(r, (level, files[n].number), l);
      }
    }
  }

  lemma {:induction false} NumberSetAppend(files: seq<File>, f: File)
    ensures NumberSet(files + [f]) == NumberSet(files) + {f.number}
  {
    assert f in files + [f];
    assert forall g | g in files :: g in files + [f];
  }

  /** Notes files of a level for removal. */
  method RemoveFiles(deleted: seq<(nat, nat)>, level: nat, files: seq<File>) returns (r: seq<(nat, nat)>)
    ensures r == Removals(deleted, level, files)
  {
    r := deleted;
    for i := 0 to |files|
      invariant r == Removals(deleted, level, files[..i])
    {
      assert files[..i + 1][..i] == files[..i];
      r := InsertPair(r, (level, files[i].number));
    }
    assert files[..|files|] == files;
  }

  /** The edit of a compaction or a move. */
  function ReplacingEdit(level: nat, in0: seq<File>, in1: seq<File>, outs: seq<File>): VersionEdit {
    EMPTY_EDIT.(deletedFiles := Removals(Removals([], level, in0), level + 1, in1), newFiles :=
      Additions(level + 1, outs))
  }

  lemma {:induction false} ReplacingEditOk(level: nat, in0: seq<File>, in1: seq<File>, outs: seq<File>)
    requires level + 1 < NUM_LEVELS
    ensures EditOk(ReplacingEdit(level, in0, in1, outs)) &&
      Replacing(ReplacingEdit(level, in0, in1, outs), level, in0, in1, outs)
  {
    RemovalsAt([], level, in0);
    RemovalsAt(Removals([], level, in0), level + 1, in1);
    assert forall l :: DeletedAt([], l) == {};
  }

  /** Records the removal of the inputs and the addition of the outputs one by one. */
  method CompactionEdit(level: nat, in0: seq<File>, in1: seq<File>, outs: seq<File>) returns (edit: VersionEdit)
    ensures edit == ReplacingEdit(level, in0, in1, outs)
  {
    var deleted := RemoveFiles([], level, in0);
    deleted := RemoveFiles(deleted, level + 1, in1);
    var added := [];
    for i := 0 to |outs|
      invariant added == Additions(level + 1, outs[..i])
    {
      added := added + [(level + 1, outs[i])];
    }
    assert outs[..|outs|] == outs;
    edit := EMPTY_EDIT.(deletedFiles := deleted, newFiles := added);
  }

  lemma {:induction false} ReplacingCompatible(base: Levels, level: nat, in0: seq<File>, in1: seq<File>,
                                               outs: seq<File>, edit: VersionEdit)
    requires LevelsInOrder(base) && level + 1 < NUM_LEVELS == |base|
    requires Replacing(edit, level, in0, in1, outs) && OwnNumbers(outs) && NewNumbers(base[level + 1], outs)
    ensures forall l | 0 <= l < NUM_LEVELS :: Compatible(base[l], ApplyLevel(NoChange, edit, l))
  {
    forall l | 0 <= l < NUM_LEVELS ensures Compatible(base[l], ApplyLevel(NoChange, edit, l)) {
      CompatibleEdit(base[l], edit, level + 1, outs, l);
    }
  }

  /** Replaces the inputs of a compaction or a move by its outputs. */
  method InstallCompactionResults(base: Levels, level: nat, in0: seq<File>, in1: seq<File>, outs: seq<File>)
    returns (v: Levels)
    requires LevelsInOrder(base) && level + 1 < NUM_LEVELS == |base| &&
      (forall l | 0 <= l < NUM_LEVELS :: UniqueNumbers(base[l]))
    requires Closed(base, level, in0, in1) && OwnNumbers(outs) && NewNumbers(base[level + 1], outs)
    ensures Replaced(base, v, level, in0, in1, outs)
  {
    var edit := CompactionEdit(level, in0, in1, outs);
    ReplacingEditOk(level, in0, in1, outs);
    ReplacingCompatible(base, level, in0, in1, outs, edit);
    v := LogAndApply(base, edit);
    ReplacingInstalls(base, v, level, in0, in1, outs, edit);
  }
}
