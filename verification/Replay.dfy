/** Replaying a list of edits through one builder against applying them one version at a time. */
module Replay {
  import opened Format
  import opened Tree
  import opened Versions
  import opened Install
  import opened Edits

  const EMPTY_LEVELS: Levels := [[], [], [], [], [], [], []]

  /** What one builder holds for a level after all the edits. */
  function Replayed(edits: seq<VersionEdit>, l: nat): LevelState {
    if |edits| == 0 then NoChange else ApplyLevel(Replayed(edits[..|edits| - 1], l), edits[|edits| - 1], l)
  }

  /** Each edit makes the next version from the one before, starting from nothing. */
  ghost predicate Chain(edits: seq<VersionEdit>, versions: seq<Levels>) {
    |versions| == |edits| + 1 && versions[0] == EMPTY_LEVELS &&
    forall k | 0 <= k < |edits| :: SavedAll(versions[k], edits[k], versions[k + 1])
  }

  /** A file number enters a level at most once. */
  ghost predicate EntersOnce(edits: seq<VersionEdit>) {
    forall k, l | 0 <= k < |edits| &&
      0 <= l < NUM_LEVELS :: FreshNumbers(Replayed(edits[..k], l).added, edits[k].newFiles, l)
  }

  lemma {:induction false} ReplayedOrdered(edits: seq<VersionEdit>, l: nat)
    requires EntersOnce(edits) && l < NUM_LEVELS
    ensures InOrder(Replayed(edits, l).added)
  {
    if |edits| > 0 {
      var n := |edits| - 1;
      EntersBefore(edits, n);
      ReplayedOrdered(edits[..n], l);
      AppliedMembers(Replayed(edits[..n], l), edits[n], l);
    }
  }

  lemma {:induction false} EntersBefore(edits: seq<VersionEdit>, n: nat)
    requires EntersOnce(edits) && n <= |edits|
    ensures EntersOnce(edits[..n])
  {
    forall k, l | 0 <= k < n && 0 <= l < NUM_LEVELS
      ensures FreshNumbers(Replayed(edits[..n][..k], l).added, edits[..n][k].newFiles, l)
    {
      assert edits[..n][..k] == edits[..k];
    }
  }

  lemma {:induction false} AppliedMembers(s: LevelState, edit: VersionEdit, l: nat)
    requires InOrder(s.added) && FreshNumbers(s.added, edit.newFiles, l)
    ensures InOrder(ApplyLevel(s, edit, l).added)
    ensures forall f :: f in ApplyLevel(s, edit, l).added <==> f in s.added || f in NewAt(edit.newFiles, l)
    ensures ApplyLevel(s, edit, l).deleted == s.deleted +
      DeletedAt(edit.deletedFiles, l) - NumbersOf(NewAt(edit.newFiles, l))
  {
    AddAllMembers(LevelState(s.deleted + DeletedAt(edit.deletedFiles, l), s.added), edit.newFiles, l);
  }

  /** A file that an edit does not add keeps its place unless the edit deletes it. */
  lemma {:induction false} FreshNumber(added: seq<File>, newFiles: seq<(nat, File)>, l: nat, f: File)
    requires FreshNumbers(added, newFiles, l) && f in added
    ensures f.number !in NumbersOf(NewAt(newFiles, l))
  {
    forall g | g in NewAt(newFiles, l) ensures g.number != f.number {
      var n :| n in newFiles && n.0 == l && n.1 == g;
      var i :| 0 <= i < |newFiles| && newFiles[i] == n;
      assert newFiles[i].1.number != f.number;
    }
  }

  /** One more edit: the next version holds the files that the builder has live. */
  lemma {:induction false} ReplayStep(base: seq<File>, s: LevelState, edit: VersionEdit, l: nat, files: seq<File>)
    requires InOrder(s.added) && FreshNumbers(s.added, edit.newFiles, l)
    requires Saved([], s, base) && Saved(base, ApplyLevel(NoChange, edit, l), files)
    ensures Saved([], ApplyLevel(s, edit, l), files)
  {
    var now, one := ApplyLevel(s, edit, l), ApplyLevel(NoChange, edit, l);
    AppliedMembers(s, edit, l);
    FreshAlone(s.added, edit.newFiles, l);
    AppliedMembers(NoChange, edit, l);
    forall f ensures f in files <==> Live([], now, f) {
      assert f in base <==> Live([], s, f);
      if f in s.added { FreshNumber(s.added, edit.newFiles, l, f); }
    }
  }

  lemma {:induction false} FreshAlone(added: seq<File>, newFiles: seq<(nat, File)>, l: nat)
    requires FreshNumbers(added, newFiles, l)
    ensures FreshNumbers([], newFiles, l)
  {
  }

  /** After any number of edits the builder's live files are exactly those of the version. */
  lemma {:induction false} ReplayIsVersion(edits: seq<VersionEdit>, versions: seq<Levels>, l: nat)
    requires Chain(edits, versions) && EntersOnce(edits) && l < NUM_LEVELS
    ensures |versions[|edits|]| == NUM_LEVELS && Saved([], Replayed(edits, l), versions[|edits|][l])
  {
    if |edits| > 0 {
      var n := |edits| - 1;
      EntersBefore(edits, n);
      ChainBefore(edits, versions, n);
      ReplayIsVersion(edits[..n], versions[..n + 1], l);
      ReplayedOrdered(edits[..n], l);
      assert SavedAll(versions[n], edits[n], versions[n + 1]);
      ReplayStep(versions[n][l], Replayed(edits[..n], l), edits[n], l, versions[n + 1][l]);
    }
  }

  lemma {:induction false} ChainBefore(edits: seq<VersionEdit>, versions: seq<Levels>, n: nat)
    requires Chain(edits, versions) && n <= |edits|
    ensures Chain(edits[..n], versions[..n + 1])
  {
  }

  /** What one builder saves after all the edits is the last version, file for file. */
  lemma {:induction false} ReplaySaves(edits: seq<VersionEdit>, versions: seq<Levels>, v: Levels)
    requires Chain(edits, versions) && EntersOnce(edits)
    requires |v| == NUM_LEVELS && forall l | 0 <= l < NUM_LEVELS :: Saved([], Replayed(edits, l), v[l])
    ensures v == versions[|edits|]
  {
    forall l | 0 <= l < NUM_LEVELS ensures |versions[|edits|]| == NUM_LEVELS && v[l] == versions[|edits|][l] {
      ReplayIsVersion(edits, versions, l);
      OrderedUnique(v[l], versions[|edits|][l]);
    }
    ReplayIsVersion(edits, versions, 0);
  }

  // ---- One more edit ----

  /** The edit's files are new to their levels. */
  ghost predicate FreshFor(edits: seq<VersionEdit>, edit: VersionEdit) {
    forall l | 0 <= l < NUM_LEVELS :: FreshNumbers(Replayed(edits, l).added, edit.newFiles, l)
  }

  lemma {:induction false} ChainGrows(edits: seq<VersionEdit>, versions: seq<Levels>, edit: VersionEdit, v: Levels)
    requires Chain(edits, versions) && EntersOnce(edits) && FreshFor(edits, edit) &&
      SavedAll(versions[|edits|], edit, v)
    ensures Chain(edits + [edit], versions + [v]) && EntersOnce(edits + [edit])
  {
    var all := edits + [edit];
    forall k, l | 0 <= k < |all| && 0 <= l < NUM_LEVELS
      ensures FreshNumbers(Replayed(all[..k], l).added, all[k].newFiles, l) {
      assert all[..k] == if k < |edits| then edits[..k] else edits;
    }
  }
}
