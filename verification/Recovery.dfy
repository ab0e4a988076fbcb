/** What a crash leaves of a run: recovery from the descriptor log that the run wrote. */
module Recovery {
  import opened Format
  import opened Tree
  import opened Versions
  import opened Install
  import opened Edits
  import opened Replay
  import opened Store
  import opened Journal
  import opened Coding
  import Manifest
  import Log

  predicate SameFiles(a: VersionEdit, b: VersionEdit) {
    a.deletedFiles == b.deletedFiles && a.newFiles == b.newFiles
  }

  /** The snapshot of the empty version. */
  predicate NamesComparator(e: VersionEdit, name: seq<Byte>) {
    e.comparator == Some(name) && e.deletedFiles == [] && e.newFiles == [] &&
    e.logNumber.None? && e.prevLogNumber.None? && e.nextFileNumber.None? && e.lastSequence.None?
  }

  /** A descriptor log of these file changes: the snapshot of the empty version, then the changes, with all numbers
      set. */
  ghost predicate Descriptor(st: Manifest.Storage, name: seq<Byte>, logged: seq<VersionEdit>, edits: seq<VersionEdit>) {
    Manifest.StorageOk(st) && |edits| == |logged| + 1 && NamesComparator(edits[0], name) &&
    (forall e | e in edits :: Manifest.Encodable(st, e)) &&
    forall i | 0 <= i < |logged| ::
      SameFiles(edits[i + 1], logged[i]) && Manifest.Complete(edits[i + 1]) && edits[i + 1].comparator.None?
  }

  lemma {:induction false} SameApply(s: LevelState, a: VersionEdit, b: VersionEdit, l: nat)
    requires SameFiles(a, b)
    ensures ApplyLevel(s, a, l) == ApplyLevel(s, b, l)
  {
  }

  lemma {:induction false} NothingApplied(e: VersionEdit, l: nat)
    requires e.deletedFiles == [] && e.newFiles == []
    ensures ApplyLevel(NoChange, e, l) == NoChange
  {
    assert DeletedAt([], l) == {};
  }

  lemma {:induction false} ReplayedSame(st: Manifest.Storage, name: seq<Byte>, logged: seq<VersionEdit>,
                                        edits: seq<VersionEdit>, n: nat, l: nat)
    requires Descriptor(st, name, logged, edits) && n <= |logged|
    ensures Replayed(edits[..n + 1], l) == Replayed(logged[..n], l)
  {
    if n == 0 {
      assert edits[..1] == [edits[0]] && [edits[0]][..0] == [];
      NothingApplied(edits[0], l);
    } else {
      ReplayedSame(st, name, logged, edits, n - 1, l);
      assert edits[..n + 1][..n] == edits[..n] && logged[..n][..n - 1] == logged[..n - 1];
      SameApply(Replayed(logged[..n - 1], l), edits[n], logged[n - 1], l);
    }
  }

  lemma {:induction false} ChainSame(st: Manifest.Storage, name: seq<Byte>, logged: seq<VersionEdit>,
                                     edits: seq<VersionEdit>, trees: seq<Levels>)
    requires Descriptor(st, name, logged, edits) && Chain(logged, trees) && LevelsInOrder(EMPTY_LEVELS)
    ensures Chain(edits, [EMPTY_LEVELS] + trees)
  {
    var versions := [EMPTY_LEVELS] + trees;
    forall k | 0 <= k < |edits| ensures SavedAll(versions[k], edits[k], versions[k + 1]) {
      if k == 0 {
        forall l | 0 <= l < NUM_LEVELS
          ensures Saved(EMPTY_LEVELS[l], ApplyLevel(NoChange, edits[0], l), EMPTY_LEVELS[l]) {
          NothingApplied(edits[0], l);
        }
      } else {
        assert SavedAll(trees[k - 1], logged[k - 1], trees[k]);
        forall l | 0 <= l < NUM_LEVELS ensures Saved(trees[k - 1][l], ApplyLevel(NoChange, edits[k], l), trees[k][l]) {
          SameApply(NoChange, edits[k], logged[k - 1], l);
        }
      }
    }
  }

  lemma {:induction false} EntersSame(st: Manifest.Storage, name: seq<Byte>, logged: seq<VersionEdit>,
                                      edits: seq<VersionEdit>)
    requires Descriptor(st, name, logged, edits) && EntersOnce(logged)
    ensures EntersOnce(edits)
  {
    forall k, l | 0 <= k < |edits| && 0 <= l < NUM_LEVELS
      ensures FreshNumbers(Replayed(edits[..k], l).added, edits[k].newFiles, l)
    {
      if k > 0 { ReplayedSame(st, name, logged, edits, k - 1, l); }
    }
  }

  /** Only the snapshot edit names the comparator. */
  lemma {:induction false} NamesNone(st: Manifest.Storage, name: seq<Byte>, logged: seq<VersionEdit>,
                                     edits: seq<VersionEdit>, i: nat)
    requires Descriptor(st, name, logged, edits) && 0 < i < |edits|
    ensures edits[i].comparator.None?
  {
    var k := i - 1;
    assert SameFiles(edits[k + 1], logged[k]);
  }

  /** The log of a run is one that recovery can read. */
  lemma {:induction false} RunWritten(st: Manifest.Storage, name: seq<Byte>, states: seq<State>, actions: seq<Action>,
                                      edits: seq<VersionEdit>)
    requires Run(states, actions) && Descriptor(st, name, EditsOf(actions), edits)
    ensures Manifest.Written(st, name, edits, [EMPTY_LEVELS] + TreesOf(states, actions))
  {
    RunJournal(states, actions);
    ChainSame(st, name, EditsOf(actions), edits, TreesOf(states, actions));
    EntersSame(st, name, EditsOf(actions), edits);
    assert edits[..1] == [edits[0]] && [edits[0]][..0] == [];
    assert Manifest.FieldsOf([edits[0]]) == Manifest.Override(Manifest.FieldsOf([]), edits[0]);
    forall i | 0 < i < |edits| ensures Manifest.Complete(edits[i]) {
      assert SameFiles(edits[i - 1 + 1], EditsOf(actions)[i - 1]);
    }
    forall i | 0 < i < |edits| ensures edits[i].comparator.None? {
      NamesNone(st, name, EditsOf(actions), edits, i);
    }
    forall e | e in edits && e.comparator.Some? ensures e.comparator.value == name {
      assert e == edits[0];
    }
  }

  /** The trees of a run: the first one, and one for each logged step; the last one is the tree the run ends with. */
  lemma {:induction false} RunTrees(states: seq<State>, actions: seq<Action>)
    requires Run(states, actions)
    ensures |TreesOf(states, actions)| == |EditsOf(actions)| + 1
    ensures TreesOf(states, actions)[|TreesOf(states, actions)| - 1] == states[|actions|].levels
  {
    RunJournal(states, actions);
  }

  /** Recovery from a log that may be cut off. */
  method RecoverTrees(st: Manifest.Storage, crc: Log.Crc, name: seq<Byte>, file: seq<Byte>,
                      ghost edits: seq<VersionEdit>, ghost trees: seq<Levels>)
    returns (r: Manifest.Recovered, ghost k: nat)
    requires Log.Composes(crc) && Manifest.Written(st, name, edits, [EMPTY_LEVELS] + trees)
    requires file <= Log.LogBytes(crc, Manifest.Records(st, edits)) && |edits| == |trees|
    ensures Log.HoldsWhole(crc, Manifest.Records(st, edits), |file|, k)
    ensures if k < 2 then r.Failed? else r.Recovered? && k <= |trees| && r.levels == trees[k - 1]
    ensures file == Log.LogBytes(crc, Manifest.Records(st, edits)) && |edits| > 1 ==>
      r.Recovered? && r.levels == trees[|trees| - 1]
  {
    r, k := Manifest.Recover(st, crc, name, file, edits, [EMPTY_LEVELS] + trees);
    if file == Log.LogBytes(crc, Manifest.Records(st, edits)) {
      Log.HoldsAll(crc, Manifest.Records(st, edits), k);
    }
  }

  /** After any run of the database, a descriptor log of it that is cut off at any byte recovers the tree after exactly
      those of its logged steps whose records are whole; the whole log recovers the tree the run ended with. */
  method RecoverRun(st: Manifest.Storage, crc: Log.Crc, name: seq<Byte>, file: seq<Byte>,
                    ghost states: seq<State>, ghost actions: seq<Action>, ghost edits: seq<VersionEdit>)
    returns (r: Manifest.Recovered, ghost k: nat)
    requires Log.Composes(crc) && Run(states, actions) && Descriptor(st, name, EditsOf(actions), edits)
    requires file <= Log.LogBytes(crc, Manifest.Records(st, edits))
    ensures Log.HoldsWhole(crc, Manifest.Records(st, edits), |file|, k)
    ensures if k < 2 then r.Failed?
      else r.Recovered? && k - 1 < |TreesOf(states, actions)| && r.levels == TreesOf(states, actions)[k - 1]
    ensures file == Log.LogBytes(crc, Manifest.Records(st, edits)) && |edits| > 1 ==>
      r.Recovered? && r.levels == states[|actions|].levels
  {
    RunWritten(st, name, states, actions, edits);
    RunTrees(states, actions);
    r, k := RecoverTrees(st, crc, name, file, edits, TreesOf(states, actions));
  }
}
