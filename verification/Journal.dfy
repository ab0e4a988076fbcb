/** The edits that a run of the database logs: they make its trees one after another, and no file number enters a
    level twice. */
module Journal {
  import opened Format
  import opened Tree
  import opened Versions
  import opened Drop
  import opened Install
  import opened Work
  import opened Edits
  import opened Replay
  import opened Store

  /** The file changes that a step logs. */
  function EditOf(a: Action): VersionEdit {
    match a
    case Flush(level, file) => if file.None? then EMPTY_EDIT
      else EMPTY_EDIT.(newFiles := Additions(level, [file.value]))
    case Move(level, file) => ReplacingEdit(level, [file], [], [file])
    case Compact(level, in0, in1, input, outs) => ReplacingEdit(level, in0, in1, outs)
    case _ => EMPTY_EDIT
  }

  predicate Logs(a: Action) { a.Flush? || a.Move? || a.Compact? }

  function EditsOf(actions: seq<Action>): seq<VersionEdit> {
    if |actions| == 0 then [] else
      var n := |actions| - 1;
      EditsOf(actions[..n]) + if Logs(actions[n]) then [EditOf(actions[n])] else []
  }

  /** The tree before the first logged step and after each of them. */
  ghost function TreesOf(states: seq<State>, actions: seq<Action>): seq<Levels>
    requires |states| == |actions| + 1
  {
    if |actions| == 0 then [states[0].levels] else
      var n := |actions| - 1;
      TreesOf(states[..n + 1], actions[..n]) + if Logs(actions[n]) then [states[n + 1].levels] else []
  }

  /** Every number that has entered a level is in use, and its file, if it is still there, has not moved up. */
  ghost predicate Settled(edits: seq<VersionEdit>, levels: Levels, nextFile: nat) {
    forall l, f | 0 <= l < NUM_LEVELS && f in Replayed(edits, l).added ::
      f.number < nextFile && forall m, g | 0 <= m < |levels| && g in levels[m] && g.number == f.number :: l <= m
  }

  /** A file that is there after the step was there before, no deeper, or has a new number. */
  ghost predicate MovesDown(levels: Levels, levels': Levels, nextFile: nat) {
    |levels| == |levels'| &&
    forall m, g | 0 <= m < |levels'| && g in levels'[m] ::
      g.number >= nextFile || exists k :: 0 <= k <= m && g in levels[k]
  }

  lemma {:induction false} NewIsFresh(edits: seq<VersionEdit>, levels: Levels, nextFile: nat, edit: VersionEdit,
                                      target: nat, outs: seq<File>)
    requires Settled(edits, levels, nextFile) && target < NUM_LEVELS && edit.newFiles == Additions(target, outs) &&
      OwnNumbers(outs)
    requires forall f | f in outs ::
      f.number >= nextFile || exists k :: 0 <= k < target && k < |levels| && f in levels[k]
    ensures FreshFor(edits, edit)
  {
    forall l, i, g | 0 <= l < NUM_LEVELS && 0 <= i < |edit.newFiles| && edit.newFiles[i].0 == l &&
      g in Replayed(edits, l).added
      ensures edit.newFiles[i].1.number != g.number
    {
      assert outs[i] in outs;
    }
  }

  lemma {:induction false} SettledStep(edits: seq<VersionEdit>, levels: Levels, levels': Levels, nextFile: nat,
                                       nextFile': nat, edit: VersionEdit, target: nat, outs: seq<File>)
    requires EntersOnce(edits) && Settled(edits, levels, nextFile) && nextFile <= nextFile' &&
      MovesDown(levels, levels', nextFile)
    requires target < NUM_LEVELS == |levels'| && edit.newFiles == Additions(target, outs)
    requires FreshFor(edits, edit) && Numbers(levels', nextFile') && forall f | f in outs :: f in levels'[target]
    ensures Settled(edits + [edit], levels', nextFile')
  {
    forall l, f | 0 <= l < NUM_LEVELS && f in Replayed(edits + [edit], l).added
      ensures f.number < nextFile' && forall m, g | 0 <= m < |levels'| && g in levels'[m] &&
        g.number == f.number :: l <= m
    {
      assert (edits + [edit])[..|edits|] == edits;
      ReplayedOrdered(edits, l);
      AppliedMembers(Replayed(edits, l), edit, l);
      if f !in Replayed(edits, l).added {
        AdditionsAt(target, outs, l);
        assert f in levels'[target];
      }
    }
  }

  lemma {:induction false} NothingLogged(edits: seq<VersionEdit>, levels: Levels, nextFile: nat, nextFile': nat)
    requires Settled(edits, levels, nextFile) && nextFile <= nextFile'
    ensures Settled(edits, levels, nextFile')
  {
  }

  /** An edit that changes no file. */
  lemma {:induction false} EmptySaves(levels: Levels)
    requires |levels| == NUM_LEVELS && LevelsInOrder(levels)
    ensures SavedAll(levels, EMPTY_EDIT, levels)
  {
    forall l | 0 <= l < NUM_LEVELS ensures Saved(levels[l], ApplyLevel(NoChange, EMPTY_EDIT, l), levels[l]) {
      assert ApplyLevel(NoChange, EMPTY_EDIT, l) == LevelState({} + DeletedAt([], l), []);
    }
  }

  /** What a logged step contributes: its edit makes the next tree, and its files are new to their level. */
  ghost predicate Contributes(edits: seq<VersionEdit>, levels: Levels, edit: VersionEdit, levels': Levels,
                              nextFile': nat) {
    SavedAll(levels, edit, levels') && FreshFor(edits, edit) && Settled(edits + [edit], levels', nextFile')
  }

  lemma {:induction false} FlushContributes(edits: seq<VersionEdit>, s: State, s': State, level: nat,
                                            file: Option<File>)
    requires TreeOk(s.levels) && Numbers(s.levels, s.nextFile) && LevelsInOrder(s.levels)
    requires EntersOnce(edits) && Settled(edits, s.levels, s.nextFile) && FlushStep(s, s', level, file) &&
      Numbers(s'.levels, s'.nextFile)
    ensures Contributes(edits, s.levels, EditOf(Flush(level, file)), s'.levels, s'.nextFile)
  {
    var edit := EditOf(Flush(level, file));
    var outs := if file.None? then [] else [file.value];
    var target := if file.None? then 0 else level;
    assert edit.newFiles == Additions(target, outs);
    if file.None? { EmptySaves(s.levels); } else { AddedIsSaved(s.levels, s'.levels, level, file.value, edit); }
    NewIsFresh(edits, s.levels, s.nextFile, edit, target, outs);
    assert MovesDown(s.levels, s'.levels, s.nextFile);
    SettledStep(edits, s.levels, s'.levels, s.nextFile, s'.nextFile, edit, target, outs);
  }

  lemma {:induction false} ReplacedMovesDown(levels: Levels, levels': Levels, level: nat, in0: seq<File>,
                                             in1: seq<File>, outs: seq<File>, nextFile: nat)
    requires level + 1 < NUM_LEVELS && Replaced(levels, levels', level, in0, in1, outs)
    requires forall f | f in outs :: f.number >= nextFile || f in levels[level]
    ensures MovesDown(levels, levels', nextFile) && forall f | f in outs :: f in levels'[level + 1]
  {
  }

  lemma {:induction false} ReplacingContributes(edits: seq<VersionEdit>, levels: Levels, levels': Levels, nextFile: nat,
                                                nextFile': nat, level: nat, in0: seq<File>, in1: seq<File>,
                                                outs: seq<File>)
    requires TreeOk(levels) && LevelsInOrder(levels) && level + 1 < NUM_LEVELS && Closed(levels, level, in0, in1)
    requires EntersOnce(edits) && Settled(edits, levels, nextFile) && nextFile <= nextFile' &&
      Numbers(levels', nextFile')
    requires Replaced(levels, levels', level, in0, in1, outs) && OwnNumbers(outs) && NewNumbers(levels[level + 1], outs)
    requires forall f | f in outs :: f.number >= nextFile || f in levels[level]
    ensures Contributes(edits, levels, ReplacingEdit(level, in0, in1, outs), levels', nextFile')
  {
    var edit := ReplacingEdit(level, in0, in1, outs);
    ReplacingEditOk(level, in0, in1, outs);
    ReplacedIsSaved(levels, levels', level, in0, in1, outs, edit);
    NewIsFresh(edits, levels, nextFile, edit, level + 1, outs);
    ReplacedMovesDown(levels, levels', level, in0, in1, outs, nextFile);
    SettledStep(edits, levels, levels', nextFile, nextFile', edit, level + 1, outs);
  }

  lemma {:induction false} MoveContributes(edits: seq<VersionEdit>, s: State, s': State, level: nat, file: File)
    requires TreeOk(s.levels) && Numbers(s.levels, s.nextFile) && LevelsInOrder(s.levels)
    requires EntersOnce(edits) && Settled(edits, s.levels, s.nextFile) && MoveStep(s, s', level, file) &&
      Numbers(s'.levels, s'.nextFile)
    ensures Contributes(edits, s.levels, ReplacingEdit(level, [file], [], [file]), s'.levels, s'.nextFile)
  {
    assert file in [file] && file in s.levels[level];
    forall f | f in s.levels[level + 1] ensures f.number != file.number {
    }
    ReplacingContributes(edits, s.levels, s'.levels, s.nextFile, s'.nextFile, level, [file], [], [file]);
  }

  lemma {:induction false} CompactContributes(edits: seq<VersionEdit>, s: State, s': State, level: nat, in0: seq<File>,
                                              in1: seq<File>, input: seq<Entry>, outs: seq<File>)
    requires TreeOk(s.levels) && Numbers(s.levels, s.nextFile) && LevelsInOrder(s.levels)
    requires EntersOnce(edits) && Settled(edits, s.levels, s.nextFile)
    requires CompactStep(s, s', level, in0, in1, input, outs) && Numbers(s'.levels, s'.nextFile)
    ensures Contributes(edits, s.levels, ReplacingEdit(level, in0, in1, outs), s'.levels, s'.nextFile)
  {
    CompactPieces(s, s', level, in0, in1, input, outs);
    NewFileNumbers(s.levels, s.nextFile, level, outs);
    FinishedNumbers(outs, s.nextFile);
    ReplacingContributes(edits, s.levels, s'.levels, s.nextFile, s'.nextFile, level, in0, in1, outs);
  }

  lemma {:induction false} CompactPieces(s: State, s': State, level: nat, in0: seq<File>, in1: seq<File>,
                                         input: seq<Entry>, outs: seq<File>)
    requires CompactStep(s, s', level, in0, in1, input, outs)
    ensures level + 1 < NUM_LEVELS && Closed(s.levels, level, in0, in1) &&
      Replaced(s.levels, s'.levels, level, in0, in1, outs)
    ensures Finished(outs, s.nextFile) && s.nextFile <= s'.nextFile
  {
  }

  lemma {:induction false} StepContributes(edits: seq<VersionEdit>, s: State, a: Action, s': State)
    requires WellFormed(s) && WellFormed(s') && Next(s, a, s') && EntersOnce(edits) &&
      Settled(edits, s.levels, s.nextFile)
    ensures if Logs(a) then Contributes(edits, s.levels, EditOf(a), s'.levels, s'.nextFile)
      else s'.levels == s.levels && Settled(edits, s'.levels, s'.nextFile)
  {
    match a
    case Flush(level, file) => FlushContributes(edits, s, s', level, file);
    case Move(level, file) => MoveContributes(edits, s, s', level, file);
    case Compact(level, in0, in1, input, outs) => CompactContributes(edits, s, s', level, in0, in1, input, outs);
    case _ => NothingLogged(edits, s.levels, s.nextFile, s'.nextFile);
  }

  lemma {:induction false} RunBefore(states: seq<State>, actions: seq<Action>, n: nat)
    requires Run(states, actions) && n <= |actions|
    ensures Run(states[..n + 1], actions[..n])
  {
    forall i | 0 <= i < n ensures Next(states[..n + 1][i], actions[..n][i], states[..n + 1][i + 1]) {
      assert Next(states[i], actions[i], states[i + 1]);
    }
  }

  /** The edits make the trees, the last of which is that of the state. */
  ghost predicate JournalOk(edits: seq<VersionEdit>, trees: seq<Levels>, s: State) {
    Chain(edits, trees) && EntersOnce(edits) && trees[|edits|] == s.levels && Settled(edits, s.levels, s.nextFile)
  }

  lemma {:induction false} JournalStep(edits: seq<VersionEdit>, trees: seq<Levels>, s: State, a: Action, s': State)
    requires JournalOk(edits, trees, s) && WellFormed(s) && WellFormed(s') && Next(s, a, s')
    ensures if Logs(a) then JournalOk(edits + [EditOf(a)], trees + [s'.levels], s') else JournalOk(edits, trees, s')
  {
    StepContributes(edits, s, a, s');
    if Logs(a) { ChainGrows(edits, trees, EditOf(a), s'.levels); }
  }

  lemma {:induction false} JournalStart(s: State)
    requires Init(s)
    ensures JournalOk([], [s.levels], s)
  {
  }

  /** Over every run the logged edits make the trees of the run one after another, and a file number enters a level at
      most once: what replaying a descriptor log relies on. */
  lemma {:induction false} RunJournal(states: seq<State>, actions: seq<Action>)
    requires Run(states, actions)
    ensures JournalOk(EditsOf(actions), TreesOf(states, actions), states[|actions|])
  {
    if |actions| == 0 {
      JournalStart(states[0]);
    } else {
      var n := |actions| - 1;
      RunBefore(states, actions, n);
      RunJournal(states[..n + 1], actions[..n]);
      RunWellFormed(states, actions, n);
      RunWellFormed(states, actions, n + 1);
      JournalNext(states, actions);
    }
  }

  lemma {:induction false} JournalNext(states: seq<State>, actions: seq<Action>)
    requires Run(states, actions) && |actions| > 0
    requires var n := |actions| - 1; WellFormed(states[n]) && WellFormed(states[n + 1])
    requires var n := |actions| - 1; JournalOk(EditsOf(actions[..n]), TreesOf(states[..n + 1], actions[..n]), states[n])
    ensures JournalOk(EditsOf(actions), TreesOf(states, actions), states[|actions|])
  {
    var n := |actions| - 1;
    var edits, trees := EditsOf(actions[..n]), TreesOf(states[..n + 1], actions[..n]);
    JournalStep(edits, trees, states[n], actions[n], states[n + 1]);
    if !Logs(actions[n]) {
      assert EditsOf(actions) == edits && TreesOf(states, actions) == trees;
    } else {
      assert EditsOf(actions) == edits + [EditOf(actions[n])] &&
        TreesOf(states, actions) == trees + [states[n + 1].levels];
    }
  }
}
