/** Iterators over internal entries: one sorted run, and the merge of several. */
module Iterators {
  import opened Format

  /** A position in one sorted run (a memtable, a table, or the concatenated tables of a level).
      Position |entries| is the invalid one. */
  class RunIterator {
    const entries: seq<Entry>
    var pos: nat

    ghost predicate Ok()
      reads this
    {
      Sorted(entries) && pos <= |entries|
    }

    constructor (run: seq<Entry>)
      requires Sorted(run)
      ensures Ok() && entries == run && pos == |run|
    {
      entries := run;
      pos := |run|;
    }

    predicate Valid()
      reads this
    {
      pos < |entries|
    }

    function Current(): Entry
      requires Valid()
      reads this
    {
      entries[pos]
    }

    method SeekToFirst()
      requires Ok()
      modifies this
      ensures Ok() && pos == 0
    {
      pos := 0;
    }

    method SeekToLast()
      requires Ok()
      modifies this
      ensures Ok() && pos == if |entries| == 0 then 0 else |entries| - 1
    {
      pos := if |entries| == 0 then 0 else |entries| - 1;
    }

    method Seek(target: Key)
      requires Ok()
      modifies this
      ensures Ok() && pos == LowerBound(entries, target)
    {
      pos := LowerBound(entries, target);
    }

    method Next()
      requires Ok() && Valid()
      modifies this
      ensures Ok() && pos == old(pos) + 1
    {
      pos := pos + 1;
    }

    method Prev()
      requires Ok() && Valid()
      modifies this
      ensures Ok() && pos == if old(pos) == 0 then |entries| else old(pos) - 1
    {
      pos := if pos == 0 then |entries| else pos - 1;
    }
  }

  /** Index of an entry in the merged run. */
  ghost function Rank(merged: seq<Entry>, e: Entry): (r: nat)
    requires e in merged
    ensures r < |merged| && merged[r] == e
  {
    var r :| 0 <= r < |merged| && merged[r] == e;
    r
  }

  lemma {:induction false} RankLess(merged: seq<Entry>, a: Entry, b: Entry)
    requires Sorted(merged) && a in merged && b in merged
    ensures Less(a.key, b.key) <==> Rank(merged, a) < Rank(merged, b)
    ensures Rank(merged, a) == Rank(merged, b) <==> a == b
  {
  }

  /** Positioned at the first entry of the run that is merged[m] or later. */
  ghost predicate ForwardCut(entries: seq<Entry>, pos: nat, merged: seq<Entry>, m: nat) {
    pos <= |entries| && (forall e | e in entries :: e in merged) &&
    forall i | 0 <= i < |entries| :: i < pos <==> Rank(merged, entries[i]) < m
  }

  /** Positioned at the last entry of the run before merged[m]; invalid if there is none. */
  ghost predicate ReverseCut(entries: seq<Entry>, pos: nat, merged: seq<Entry>, m: nat) {
    pos <= |entries| && (forall e | e in entries :: e in merged) &&
    forall i | 0 <= i < |entries| :: (pos < |entries| && i <= pos) <==> Rank(merged, entries[i]) < m
  }

  lemma {:induction false} RanksIncrease(entries: seq<Entry>, merged: seq<Entry>)
    requires Sorted(entries) && Sorted(merged) && forall e | e in entries :: e in merged
    ensures forall i, j | 0 <= i < j < |entries| :: Rank(merged, entries[i]) < Rank(merged, entries[j])
  {
    forall i, j | 0 <= i < j < |entries|
      ensures Rank(merged, entries[i]) < Rank(merged, entries[j])
    {
      RankLess(merged, entries[i], entries[j]);
    }
  }

  lemma {:induction false} LowerBoundSplits(es: seq<Entry>, target: Key, j: nat)
    requires Sorted(es) && j < |es|
    ensures Less(es[j].key, target) <==> j < LowerBound(es, target)
  {
    var p := LowerBound(es, target);
    if p < j { assert Less(es[p].key, es[j].key); }
  }

  lemma {:induction false} SeekCuts(entries: seq<Entry>, merged: seq<Entry>, target: Key)
    requires Sorted(entries) && Sorted(merged) && forall e | e in entries :: e in merged
    ensures ForwardCut(entries, LowerBound(entries, target), merged, LowerBound(merged, target))
  {
    forall i | 0 <= i < |entries|
      ensures i < LowerBound(entries, target) <==> Rank(merged, entries[i]) < LowerBound(merged, target)
    {
      LowerBoundSplits(entries, target, i);
      LowerBoundSplits(merged, target, Rank(merged, entries[i]));
    }
  }

  datatype Direction = Forward | Reverse

  /** Runs whose sorted union is merged, no entry in two runs. */
  ghost predicate Merges(runs: seq<seq<Entry>>, merged: seq<Entry>) {
    Sorted(merged) && (forall k | 0 <= k < |runs| :: Sorted(runs[k])) &&
    (forall k, e | 0 <= k < |runs| && e in runs[k] :: e in merged) &&
    (forall e | e in merged :: exists k :: 0 <= k < |runs| && e in runs[k]) &&
    (forall j, k, e | 0 <= j < |runs| && 0 <= k < |runs| && e in runs[j] && e in runs[k] :: j == k)
  }

  class MergingIterator {
    const children: seq<RunIterator>
    var current: RunIterator?
    var direction: Direction
    ghost const runs: seq<seq<Entry>>
    ghost const merged: seq<Entry>
    /** Where the iterator is in the merged run; -1 when it is not valid. */
    ghost var index: int

    /** The children are separate objects over runs whose union is merged. */
    ghost predicate Shape()
      reads children
    {
      |runs| == |children| &&
      (forall k | 0 <= k < |children| :: children[k].Ok() && children[k].entries == runs[k]) &&
      (forall j, k | 0 <= j < k < |children| :: children[j] != children[k]) &&
      Merges(runs, merged)
    }

    ghost predicate AllForward(m: nat)
      reads children
    {
      forall k | 0 <= k < |children| :: ForwardCut(children[k].entries, children[k].pos, merged, m)
    }

    ghost predicate AllReverse(m: nat)
      reads children
    {
      forall k | 0 <= k < |children| :: ReverseCut(children[k].entries, children[k].pos, merged, m)
    }

    ghost predicate Ok()
      reads this, children
    {
      Shape() && -1 <= index < |merged| &&
      (current == null <==> index == -1) &&
      (current != null ==>
        current in children && current.Valid() && current.Current() == merged[index] &&
        if direction.Forward? then AllForward(index) else AllReverse(index + 1))
    }

    /** c is a valid child with the least key, or null if no child is valid. */
    ghost predicate IsSmallest(c: RunIterator?)
      requires forall k | 0 <= k < |children| :: children[k].Ok()
      reads children
    {
      if c == null then
        forall k | 0 <= k < |children| :: !children[k].Valid()
      else
        c in children && c.Valid() &&
        forall k | 0 <= k < |children| && children[k].Valid() :: !Less(children[k].Current().key, c.Current().key)
    }

    ghost predicate IsLargest(c: RunIterator?)
      requires forall k | 0 <= k < |children| :: children[k].Ok()
      reads children
    {
      if c == null then
        forall k | 0 <= k < |children| :: !children[k].Valid()
      else
        c in children && c.Valid() &&
        forall k | 0 <= k < |children| && children[k].Valid() :: !Less(c.Current().key, children[k].Current().key)
    }

    constructor (children: seq<RunIterator>, ghost runs: seq<seq<Entry>>, ghost merged: seq<Entry>)
      requires |runs| == |children|
      requires forall k | 0 <= k < |children| :: children[k].Ok() && children[k].entries == runs[k]
      requires forall j, k | 0 <= j < k < |children| :: children[j] != children[k]
      requires Merges(runs, merged)
      ensures Ok() && this.children == children && this.runs == runs && this.merged == merged && index == -1
    {
      this.children := children;
      this.runs := runs;
      this.merged := merged;
      current := null;
      direction := Forward;
      index := -1;
    }

    lemma {:induction false} RunsInMerged(k: nat)
      requires Shape() && k < |children|
      ensures forall e | e in children[k].entries :: e in merged
    {
      assert children[k].entries == runs[k];
    }

    predicate Valid()
      reads this
    {
      current != null
    }

    function Entry(): Entry
      requires Ok() && Valid()
      reads this, children
      ensures Entry() == merged[index]
    {
      current.Current()
    }

    /** Selects the valid child with the least key. */
    method FindSmallest(ghost m: nat)
      requires Shape() && AllForward(m) && m <= |merged|
      modifies this
      ensures direction.Forward? && Ok() && index == if m == |merged| then -1 else m
    {
      var smallest: RunIterator? := null;
      for i := 0 to |children|
        invariant smallest == null ==> forall k | 0 <= k < i :: !children[k].Valid()
        invariant smallest != null ==> smallest in children && smallest.Valid()
        invariant smallest != null ==>
          forall k | 0 <= k < i && children[k].Valid() :: !Less(children[k].Current().key, smallest.Current().key)
      {
        var child := children[i];
        if child.Valid() {
          if smallest == null {
            smallest := child;
          } else if Less(child.Current().key, smallest.Current().key) {
            smallest := child;
          }
        }
      }
      current := smallest;
      direction := Forward;
      SmallestIs(m, current);
      index := if m == |merged| then -1 else m;
    }

    /** Selects the valid child with the greatest key. */
    method FindLargest(ghost m: nat)
      requires Shape() && AllReverse(m) && m <= |merged|
      modifies this
      ensures direction.Reverse? && Ok() && index == m - 1
    {
      var largest: RunIterator? := null;
      for i := |children| downto 0
        invariant largest == null ==> forall k | i <= k < |children| :: !children[k].Valid()
        invariant largest != null ==> largest in children && largest.Valid()
        invariant largest != null ==>
          forall k | i <= k < |children| &&
            children[k].Valid() :: !Less(largest.Current().key, children[k].Current().key)
      {
        var child := children[i];
        if child.Valid() {
          if largest == null {
            largest := child;
          } else if Less(largest.Current().key, child.Current().key) {
            largest := child;
          }
        }
      }
      current := largest;
      direction := Reverse;
      LargestIs(m, current);
      index := m - 1;
    }

    /** With every child cut at m, the smallest child shows merged[m]. */
    lemma {:induction false} SmallestIs(m: nat, c: RunIterator?)
      requires Shape() && AllForward(m) && m <= |merged|
      requires IsSmallest(c)
      ensures if m == |merged| then c == null else c != null && c.Current() == merged[m]
    {
      if m == |merged| {
      } else {
        assert merged[m] in merged;
        var k :| 0 <= k < |runs| && merged[m] in runs[k];
        var ch := children[k];
        var i :| 0 <= i < |ch.entries| && ch.entries[i] == merged[m];
        RankLess(merged, merged[m], ch.entries[i]);
        assert Rank(merged, merged[m]) == m by { RankIs(merged, m); }
        assert ch.pos <= i && ch.Valid();
        RanksIncrease(ch.entries, merged);
        assert ch.pos == i;
        var j :| 0 <= j < |children| && children[j] == c;
        assert runs[j] == c.entries && c.Current() in runs[j];
        assert Rank(merged, c.Current()) >= m;
        RankLess(merged, merged[m], c.Current());
      }
    }

    /** With every child cut before m, the largest child shows merged[m - 1]. */
    lemma {:induction false} LargestIs(m: nat, c: RunIterator?)
      requires Shape() && AllReverse(m) && m <= |merged|
      requires IsLargest(c)
      ensures if m == 0 then c == null else c != null && c.Current() == merged[m - 1]
    {
      if m == 0 {
      } else {
        assert merged[m - 1] in merged;
        var k :| 0 <= k < |runs| && merged[m - 1] in runs[k];
        var ch := children[k];
        var i :| 0 <= i < |ch.entries| && ch.entries[i] == merged[m - 1];
        assert Rank(merged, merged[m - 1]) == m - 1 by { RankIs(merged, m - 1); }
        assert ch.Valid() && i <= ch.pos;
        RanksIncrease(ch.entries, merged);
        assert ch.pos == i;
        var j :| 0 <= j < |children| && children[j] == c;
        assert runs[j] == c.entries && c.Current() in runs[j];
        assert Rank(merged, c.Current()) < m;
        RankLess(merged, merged[m - 1], c.Current());
      }
    }

    method SeekToFirst()
      requires Ok()
      modifies this, children
      ensures Ok() && index == if |merged| == 0 then -1 else 0
    {
      for i := 0 to |children|
        invariant Shape()
        invariant forall k | 0 <= k < i :: children[k].pos == 0
      {
        children[i].SeekToFirst();
      }
      forall k | 0 <= k < |children|
        ensures ForwardCut(children[k].entries, children[k].pos, merged, 0)
      {
        RunsInMerged(k);
      }
      FindSmallest(0);
    }

    method SeekToLast()
      requires Ok()
      modifies this, children
      ensures Ok() && index == |merged| - 1
    {
      for i := 0 to |children|
        invariant Shape()
        invariant forall k | 0 <= k < i :: children[k].pos == if |children[k].entries| == 0 then 0
          else |children[k].entries| - 1
      {
        children[i].SeekToLast();
      }
      assert AllReverse(|merged|) by {
        forall k | 0 <= k < |children|
          ensures ReverseCut(children[k].entries, children[k].pos, merged, |merged|)
        {
          RunsInMerged(k);
        }
      }
      FindLargest(|merged|);
    }

    method Seek(target: Key)
      requires Ok()
      modifies this, children
      ensures Ok()
      ensures index == if LowerBound(merged, target) == |merged| then -1 else LowerBound(merged, target)
    {
      for i := 0 to |children|
        invariant Shape()
        invariant forall k | 0 <= k < i :: children[k].pos == LowerBound(children[k].entries, target)
      {
        children[i].Seek(target);
      }
      forall k | 0 <= k < |children|
        ensures ForwardCut(children[k].entries, children[k].pos, merged, LowerBound(merged, target))
      {
        RunsInMerged(k);
        SeekCuts(children[k].entries, merged, target);
      }
      FindSmallest(LowerBound(merged, target));
    }

    /** A child without merged[p] that is cut at p is cut at p + 1. */
    lemma {:induction false} SkipForward(c: RunIterator, p: nat)
      requires c.Ok() && Sorted(merged) && p < |merged| && ForwardCut(c.entries, c.pos, merged, p) &&
        merged[p] !in c.entries
      ensures ForwardCut(c.entries, c.pos, merged, p + 1)
    {
    }

    lemma {:induction false} SkipReverse(c: RunIterator, p: nat)
      requires c.Ok() && Sorted(merged) && p < |merged| && merged[p] !in c.entries
      ensures ReverseCut(c.entries, c.pos, merged, p + 1) <==> ReverseCut(c.entries, c.pos, merged, p)
    {
    }

    lemma {:induction false} OnlyHolder(c: RunIterator, k: nat)
      requires Shape() && k < |children| && c in children && c.Valid() && children[k] != c
      ensures c.Current() !in children[k].entries
    {
      var j :| 0 <= j < |children| && children[j] == c;
      assert c.Current() in runs[j];
    }

    /** Moves a child that is not current to its first entry after the current key. */
    method SeekAfter(k: nat, key: Key)
      requires Shape() && k < |children| && 0 <= index < |merged| && key == merged[index].key
      requires merged[index] !in children[k].entries
      modifies children[k]
      ensures children[k].Ok() && ForwardCut(children[k].entries, children[k].pos, merged, index)
    {
      var child := children[k];
      RunsInMerged(k);
      SeekCuts(child.entries, merged, key);
      LowerBoundIs(merged, index);
      child.Seek(key);
      ghost var again := child.Valid() && child.Current().key == key;
      if child.Valid() && child.Current().key == key {
        child.Next();
      }
      KeyAbsent(child.entries, merged, index);
      assert !again;
    }

    /** Moves a child that is not current to its last entry before the current key. */
    method SeekBefore(k: nat, key: Key)
      requires Shape() && k < |children| && 0 <= index < |merged| && key == merged[index].key
      modifies children[k]
      ensures children[k].Ok() && ReverseCut(children[k].entries, children[k].pos, merged, index)
    {
      var child := children[k];
      RunsInMerged(k);
      SeekCuts(child.entries, merged, key);
      LowerBoundIs(merged, index);
      child.Seek(key);
      if child.Valid() {
        child.Prev();
      } else {
        child.SeekToLast();
      }
    }

    /** The same, for a child that does not hold the current entry. */
    method PlaceBefore(k: nat, key: Key)
      requires Shape() && k < |children| && 0 <= index < |merged| && key == merged[index].key
      requires merged[index] !in children[k].entries
      modifies children[k]
      ensures children[k].Ok() && ReverseCut(children[k].entries, children[k].pos, merged, index + 1)
    {
      SeekBefore(k, key);
      SkipReverse(children[k], index);
    }

    method TurnForward()
      requires Ok() && Valid() && direction.Reverse?
      modifies this`direction, children
      ensures Ok() && direction.Forward? && index == old(index)
    {
      var key := current.Current().key;
      for i := 0 to |children|
        invariant Shape() && current.pos == old(current.pos)
        invariant forall k | 0 <= k < i && children[k] != current ::
          ForwardCut(children[k].entries, children[k].pos, merged, index)
      {
        if children[i] != current {
          OnlyHolder(current, i);
          SeekAfter(i, key);
        }
      }
      direction := Forward;
      CurrentForward();
    }

    method TurnReverse()
      requires Ok() && Valid() && direction.Forward?
      modifies this`direction, children
      ensures Ok() && direction.Reverse? && index == old(index)
    {
      var key := current.Current().key;
      for i := 0 to |children|
        invariant Shape() && current.pos == old(current.pos)
        invariant forall k | 0 <= k < i && children[k] != current ::
          ReverseCut(children[k].entries, children[k].pos, merged, index + 1)
      {
        if children[i] != current {
          OnlyHolder(current, i);
          PlaceBefore(i, key);
        }
      }
      direction := Reverse;
      CurrentReverse();
    }

    lemma {:induction false} StepsForward()
      requires Ok() && Valid() && direction.Forward?
      ensures forall k | 0 <= k < |children| && children[k] != current ::
        ForwardCut(children[k].entries, children[k].pos, merged, index + 1)
    {
      forall k | 0 <= k < |children| && children[k] != current
        ensures ForwardCut(children[k].entries, children[k].pos, merged, index + 1)
      {
        OnlyHolder(current, k);
        SkipForward(children[k], index);
      }
    }

    lemma {:induction false} StepsReverse()
      requires Ok() && Valid() && direction.Reverse?
      ensures forall k | 0 <= k < |children| && children[k] != current ::
        ReverseCut(children[k].entries, children[k].pos, merged, index)
    {
      forall k | 0 <= k < |children| && children[k] != current
        ensures ReverseCut(children[k].entries, children[k].pos, merged, index)
      {
        OnlyHolder(current, k);
        SkipReverse(children[k], index);
      }
    }

    method StepForward()
      requires Ok() && Valid() && direction.Forward?
      modifies current
      ensures Shape() && AllForward(index + 1)
    {
      StepsForward();
      CurrentForward();
      current.Next();
    }

    method StepReverse()
      requires Ok() && Valid() && direction.Reverse?
      modifies current
      ensures Shape() && AllReverse(index)
    {
      StepsReverse();
      CurrentReverse();
      current.Prev();
    }

    method Next()
      requires Ok() && Valid()
      modifies this, children
      ensures Ok() && index == if old(index) + 1 == |merged| then -1 else old(index) + 1
    {
      if direction != Forward {
        TurnForward();
      }
      StepForward();
      FindSmallest(index + 1);
    }

    method Prev()
      requires Ok() && Valid()
      modifies this, children
      ensures Ok() && index == old(index) - 1
    {
      if direction != Reverse {
        TurnReverse();
      }
      StepReverse();
      FindLargest(index);
    }

    /** One step of the current child takes it past the current key. */
    lemma {:induction false} CurrentForward()
      requires Shape() && current != null && current in children && current.Valid()
      requires 0 <= index < |merged| && current.Current() == merged[index]
      ensures ForwardCut(current.entries, current.pos, merged, index)
      ensures ForwardCut(current.entries, current.pos + 1, merged, index + 1)
    {
      var j :| 0 <= j < |children| && children[j] == current;
      RunsInMerged(j);
      RanksIncrease(current.entries, merged);
      RankIs(merged, index);
    }

    lemma {:induction false} CurrentReverse()
      requires Shape() && current != null && current in children && current.Valid()
      requires 0 <= index < |merged| && current.Current() == merged[index]
      ensures ReverseCut(current.entries, current.pos, merged, index + 1)
      ensures ReverseCut(current.entries, if current.pos == 0 then |current.entries|
        else current.pos - 1, merged, index)
    {
      var j :| 0 <= j < |children| && children[j] == current;
      RunsInMerged(j);
      RanksIncrease(current.entries, merged);
      RankIs(merged, index);
    }
  }

  lemma {:induction false} KeyAbsent(entries: seq<Entry>, merged: seq<Entry>, p: nat)
    requires Sorted(merged) && p < |merged| && (forall e | e in entries :: e in merged) && merged[p] !in entries
    ensures forall e | e in entries :: e.key != merged[p].key
  {
    forall e | e in entries ensures e.key != merged[p].key {
      RankLess(merged, e, merged[p]);
      RankLess(merged, merged[p], e);
    }
  }

  lemma {:induction false} LowerBoundIs(merged: seq<Entry>, p: nat)
    requires Sorted(merged) && p < |merged|
    ensures LowerBound(merged, merged[p].key) == p
  {
    LowerBoundSplits(merged, merged[p].key, p);
  }

  lemma {:induction false} RankIs(merged: seq<Entry>, m: nat)
    requires Sorted(merged) && m < |merged|
    ensures Rank(merged, merged[m]) == m
  {
  }
}
