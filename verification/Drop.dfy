/** Which entries a compaction may forget, and what that does to reads. */
module Drop {
  import opened Format
  import opened Tree
  import opened Compaction

  /** No file below the output level has the user key in its range. */
  ghost predicate BaseLevel(levels: Levels, level: nat, user: int) {
    forall l, f | level + 2 <= l < |levels| && f in levels[l] :: !Holds(f, user)
  }

  /** Rule (A): the entry before it has the same user key and is itself at or below the smallest snapshot. */
  ghost predicate Hidden(input: seq<Entry>, i: nat, smallest: nat)
    requires i < |input|
  {
    i > 0 && input[i - 1].key.user == input[i].key.user && input[i - 1].key.sn <= smallest
  }

  /** The other rule: a tombstone every snapshot can see, with nothing below the output level to hide. */
  ghost predicate Obsolete(e: Entry, smallest: nat, levels: Levels, level: nat) {
    e.key.kind.Deletion? && e.key.sn <= smallest && BaseLevel(levels, level, e.key.user)
  }

  ghost predicate Dropped(input: seq<Entry>, i: nat, smallest: nat, levels: Levels, level: nat)
    requires i < |input|
  {
    Hidden(input, i, smallest) || Obsolete(input[i], smallest, levels, level)
  }

  /** What is left of the first n entries. */
  ghost function Kept(input: seq<Entry>, n: nat, smallest: nat, levels: Levels, level: nat): seq<Entry>
    requires n <= |input|
  {
    if n == 0 then [] else
      Kept(input, n - 1, smallest, levels, level) +
      if Dropped(input, n - 1, smallest, levels, level) then [] else [input[n - 1]]
  }

  lemma {:induction false} KeptMember(input: seq<Entry>, n: nat, smallest: nat, levels: Levels, level: nat, e: Entry)
    requires n <= |input|
    ensures e in Kept(input, n, smallest, levels, level) <==>
      exists i :: 0 <= i < n && input[i] == e && !Dropped(input, i, smallest, levels, level)
  {
    if n > 0 { KeptMember(input, n - 1, smallest, levels, level, e); }
  }

  lemma {:induction false} KeptSorted(input: seq<Entry>, n: nat, smallest: nat, levels: Levels, level: nat)
    requires Sorted(input) && n <= |input|
    ensures Sorted(Kept(input, n, smallest, levels, level))
    ensures forall e | e in Kept(input, n, smallest, levels, level) :: n < |input| ==> Less(e.key, input[n].key)
  {
    if n > 0 {
      KeptSorted(input, n - 1, smallest, levels, level);
    }
  }

  /** What a compaction has to keep of its data: each entry that no newer one which every snapshot sees hides, except a
      deletion which every snapshot sees and which no file below the output level could need. Of two entries of one
      user key the newer comes first. */
  ghost predicate Needed(e: Entry, data: set<Entry>, smallest: nat, levels: Levels, level: nat) {
    (forall n | n in data && n.key.user == e.key.user && Less(n.key, e.key) :: n.key.sn > smallest) &&
    (e.key.kind.Deletion? && e.key.sn <= smallest ==>
      exists l, f :: level + 2 <= l < |levels| && f in levels[l] && f.smallest.user <= e.key.user <= f.largest.user)
  }

  lemma {:induction false} InFront(input: seq<Entry>, a: nat, i: nat)
    requires Sorted(input) && a < |input| && i < |input|
    ensures a <= i || Less(input[i].key, input[a].key)
  {
  }

  lemma {:induction false} HiddenIs(input: seq<Entry>, i: nat, smallest: nat)
    requires Sorted(input) && i < |input|
    ensures Hidden(input, i, smallest) <==>
      exists n :: n in input && n.key.user == input[i].key.user && Less(n.key, input[i].key) && n.key.sn <= smallest
  {
    if Hidden(input, i, smallest) {
      assert Less(input[i - 1].key, input[i].key) && input[i - 1] in input;
    }
    if n :| n in input && n.key.user == input[i].key.user && Less(n.key, input[i].key) && n.key.sn <= smallest {
      var a :| 0 <= a < |input| && input[a] == n;
      InFront(input, a, i);
      HiddenBehind(input, a, i, smallest);
    }
  }

  /** The two rules, which look only at the entry before, keep exactly what is needed. */
  lemma {:induction false} KeptNeeded(input: seq<Entry>, smallest: nat, levels: Levels, level: nat)
    requires Sorted(input)
    ensures forall e :: e in Kept(input, |input|, smallest, levels, level) <==>
      e in input && Needed(e, EntrySet(input), smallest, levels, level)
  {
    forall e
      ensures e in Kept(input, |input|, smallest, levels, level) <==>
        e in input && Needed(e, EntrySet(input), smallest, levels, level)
    {
      KeptMember(input, |input|, smallest, levels, level, e);
      forall i | 0 <= i < |input| && input[i] == e
        ensures Dropped(input, i, smallest, levels, level) <==> !Needed(e, EntrySet(input), smallest, levels, level)
      {
        HiddenIs(input, i, smallest);
        ObsoleteIs(e, smallest, levels, level);
      }
    }
  }

  lemma {:induction false} ObsoleteIs(e: Entry, smallest: nat, levels: Levels, level: nat)
    ensures Obsolete(e, smallest, levels, level) <==>
      e.key.kind.Deletion? && e.key.sn <= smallest &&
      !exists l, f :: level + 2 <= l < |levels| && f in levels[l] && f.smallest.user <= e.key.user <= f.largest.user
  {
    if !BaseLevel(levels, level, e.key.user) {
      var l, f :| level + 2 <= l < |levels| && f in levels[l] && Holds(f, e.key.user);
      assert f.smallest.user <= e.key.user <= f.largest.user;
    } else {
      forall l, f | level + 2 <= l < |levels| && f in levels[l]
        ensures !(f.smallest.user <= e.key.user <= f.largest.user)
      {
        assert !Holds(f, e.key.user);
      }
    }
  }

  /** The compaction's inputs, as the theorem below needs them: no file left in the input level holds an older
      entry of an input user key, and the next level gives every file meeting some user-key range that
      contains the inputs of the input level. */
  ghost predicate Closed(levels: Levels, level: nat, in0: seq<File>, in1: seq<File>) {
    level + 1 < |levels| && (forall f | f in in0 :: f in levels[level]) &&
    (forall g | g in levels[level] && g !in in0 :: NewerThan(EntrySet(g.entries), LevelData(in0))) &&
    exists lo, hi :: ClosedRange(levels, level, in0, in1, lo, hi)
  }

  ghost predicate ClosedRange(levels: Levels, level: nat, in0: seq<File>, in1: seq<File>, lo: int, hi: int) {
    level + 1 < |levels| &&
    (forall f | f in in0 :: lo <= f.smallest.user && f.largest.user <= hi) &&
    forall g :: g in in1 <==> g in levels[level + 1] && Overlaps(g, Some(lo), Some(hi))
  }

  ghost function InputData(in0: seq<File>, in1: seq<File>): set<Entry> { LevelData(in0) + LevelData(in1) }

  ghost function DroppedSet(input: seq<Entry>, smallest: nat, levels: Levels, level: nat): set<Entry> {
    set i | 0 <= i < |input| && Dropped(input, i, smallest, levels, level) :: input[i]
  }

  /** Entries of the files of the next level that are not inputs. */
  ghost function LeftData(levels: Levels, level: nat, in1: seq<File>): set<Entry>
    requires level + 1 < |levels|
  {
    set g, e | g in levels[level + 1] && g !in in1 && e in g.entries :: e
  }

  /** One compaction: its inputs, their merge, and the memtable data above the tree. */
  ghost predicate Setup(upper: set<Entry>, levels: Levels, level: nat, in0: seq<File>, in1: seq<File>,
                        input: seq<Entry>) {
    TreeOk(levels) && level + 1 < NUM_LEVELS && Closed(levels, level, in0, in1) &&
    Sorted(input) && EntrySet(input) == InputData(in0, in1) &&
    NewerThan(upper, TreeData(levels)) && Distinct(upper + TreeData(levels))
  }

  /** Dropping the tombstone n of a user key uncovers the value v, which a file of the next level keeps. */
  ghost predicate Uncovers(upper: set<Entry>, levels: Levels, level: nat, in0: seq<File>, in1: seq<File>, smallest: nat,
                           user: int, n: Entry, v: Entry)
    requires level + 1 < |levels|
  {
    IsNewest(upper + TreeData(levels), user, smallest, n) && n in InputData(in0, in1) &&
    Obsolete(n, smallest, levels, level) &&
    IsNewest(LeftData(levels, level, in1), user, n.key.sn, v) && v.key.kind.Value?
  }

  ghost predicate NothingUncovered(upper: set<Entry>, levels: Levels, level: nat, in0: seq<File>, in1: seq<File>,
                                   smallest: nat)
    requires level + 1 < |levels|
  {
    forall user, n, v :: !Uncovers(upper, levels, level, in0, in1, smallest, user, n, v)
  }

  lemma {:induction false} InTree(levels: Levels, l: nat, f: File, e: Entry)
    requires l < |levels| && f in levels[l] && e in f.entries
    ensures e in LevelData(levels[l]) && e in TreeData(levels)
  {
  }

  lemma {:induction false} InputInLevel(levels: Levels, level: nat, in0: seq<File>, in1: seq<File>, e: Entry)
    requires Closed(levels, level, in0, in1) && e in InputData(in0, in1)
    ensures e in LevelData(in0) ==> e in LevelData(levels[level])
    ensures e in LevelData(in1) ==> e in LevelData(levels[level + 1])
    ensures e in TreeData(levels)
  {
    if e in LevelData(in0) {
      var f :| f in in0 && e in f.entries;
      InTree(levels, level, f, e);
    }
    if e in LevelData(in1) {
      var f :| f in in1 && e in f.entries;
      InTree(levels, level + 1, f, e);
    }
  }

  lemma {:induction false} ShallowerIsNewer(levels: Levels, l: nat, m: nat, c: Entry, n: Entry)
    requires Recency(levels) && l < m < |levels|
    requires c in LevelData(levels[l]) && n in LevelData(levels[m]) && c.key.user == n.key.user
    ensures c.key.sn > n.key.sn
  {
    assert NewerThan(LevelData(levels[l]), LevelData(levels[m]));
  }

  lemma {:induction false} RangeHolds(levels: Levels, l: nat, g: File, c: Entry)
    requires ShapeOk(levels) && l < NUM_LEVELS && g in levels[l] && c in g.entries
    ensures Holds(g, c.key.user)
  {
    assert FilesOk(levels[l]);
    EntryInRange(g, c);
  }

  /** An entry behind a visible one of the same user key is hidden by its predecessor. */
  lemma {:induction false} HiddenBehind(input: seq<Entry>, a: nat, b: nat, smallest: nat)
    requires Sorted(input) && a < b < |input|
    requires input[a].key.user == input[b].key.user && input[a].key.sn <= smallest
    ensures Hidden(input, b, smallest)
  {
    if a < b - 1 {
      assert Less(input[a].key, input[b - 1].key) && Less(input[b - 1].key, input[b].key);
    }
  }

  /** An older entry that survives an obsolete input tombstone is not an input. */
  lemma {:induction false} SurvivorNotInput(input: seq<Entry>, smallest: nat, levels: Levels, level: nat, n: Entry,
                                            c: Entry)
    requires Sorted(input) && n in input && n.key.sn <= smallest
    requires c.key.user == n.key.user && c.key.sn < n.key.sn
    requires c !in DroppedSet(input, smallest, levels, level)
    ensures c !in input
  {
    if c in input {
      var a :| 0 <= a < |input| && input[a] == n;
      var b :| 0 <= b < |input| && input[b] == c;
      HiddenBehind(input, a, b, smallest);
    }
  }

  /** A shallower level holds nothing older. */
  lemma {:induction false} NotShallower(levels: Levels, l: nat, m: nat, n: Entry, c: Entry)
    requires Recency(levels) && l < |levels| && m < |levels| && c in LevelData(levels[l]) && n in LevelData(levels[m])
    requires c.key.user == n.key.user && c.key.sn < n.key.sn
    ensures l >= m
  {
    if l < m { ShallowerIsNewer(levels, l, m, c, n); }
  }

  /** A file beside the inputs of the input level holds nothing older than they do. */
  lemma {:induction false} NotBeside(levels: Levels, level: nat, in0: seq<File>, in1: seq<File>, n: Entry, c: Entry,
                                     g: File)
    requires Closed(levels, level, in0, in1) && n in LevelData(in0) && g in levels[level] && c in g.entries &&
      c !in LevelData(in0)
    requires c.key.user == n.key.user
    ensures c.key.sn > n.key.sn
  {
    assert g !in in0;
    assert c in EntrySet(g.entries);
  }

  /** Where an older entry that is no input can be. */
  lemma {:induction false} OlderPlace(levels: Levels, level: nat, in0: seq<File>, in1: seq<File>, smallest: nat,
                                      n: Entry, c: Entry, l: nat, g: File)
    requires ShapeOk(levels) && Recency(levels) && Closed(levels, level, in0, in1)
    requires n in InputData(in0, in1) && Obsolete(n, smallest, levels, level)
    requires l < |levels| && g in levels[l] && c in g.entries && c !in InputData(in0, in1)
    requires c.key.user == n.key.user && c.key.sn < n.key.sn
    ensures l == level + 1 && g !in in1
  {
    InputInLevel(levels, level, in0, in1, n);
    InTree(levels, l, g, c);
    if l > level + 1 { RangeHolds(levels, l, g, c); }
    if n in LevelData(in0) {
      NotShallower(levels, l, level, n, c);
      if l == level { NotBeside(levels, level, in0, in1, n, c, g); }
    } else {
      NotShallower(levels, l, level + 1, n, c);
    }
  }

  /** What is older than an obsolete input tombstone and survives can only be in a file left in the next level. */
  lemma {:induction false} OlderSurvivor(upper: set<Entry>, levels: Levels, level: nat, in0: seq<File>, in1: seq<File>,
                                         input: seq<Entry>, smallest: nat, n: Entry, c: Entry)
    requires Setup(upper, levels, level, in0, in1, input)
    requires n in InputData(in0, in1) && Obsolete(n, smallest, levels, level)
    requires c in upper + TreeData(levels) && c !in DroppedSet(input, smallest, levels, level)
    requires c.key.user == n.key.user && c.key.sn < n.key.sn
    ensures c in LeftData(levels, level, in1)
  {
    assert n in EntrySet(input);
    SurvivorNotInput(input, smallest, levels, level, n, c);
    assert c !in EntrySet(input);
    assert n in TreeData(levels) by { InputInLevel(levels, level, in0, in1, n); }
    assert c !in upper;
    var l :| 0 <= l < |levels| && c in LevelData(levels[l]);
    var g :| g in levels[l] && c in g.entries;
    OlderPlace(levels, level, in0, in1, smallest, n, c, l, g);
  }

  /** Everything a reader can see before and after the compaction. */
  ghost function After(upper: set<Entry>, levels: Levels, level: nat, input: seq<Entry>, smallest: nat): set<Entry> {
    upper + TreeData(levels) - DroppedSet(input, smallest, levels, level)
  }

  lemma {:induction false} InputInBefore(upper: set<Entry>, levels: Levels, level: nat, in0: seq<File>, in1: seq<File>,
                                         input: seq<Entry>)
    requires Setup(upper, levels, level, in0, in1, input)
    ensures forall i | 0 <= i < |input| :: input[i] in TreeData(levels) && input[i] in InputData(in0, in1)
  {
    forall i | 0 <= i < |input|
      ensures input[i] in TreeData(levels) && input[i] in InputData(in0, in1)
    {
      assert input[i] in EntrySet(input);
      InputInLevel(levels, level, in0, in1, input[i]);
    }
  }

  /** A newest entry that the compaction drops is an obsolete tombstone. */
  lemma {:induction false} DroppedNewest(upper: set<Entry>, levels: Levels, level: nat, in0: seq<File>, in1: seq<File>,
                                         input: seq<Entry>, smallest: nat, user: int, snapshot: nat, n: Entry)
    requires Setup(upper, levels, level, in0, in1, input) && snapshot >= smallest
    requires IsNewest(upper + TreeData(levels), user, snapshot, n)
    requires n in DroppedSet(input, smallest, levels, level)
    ensures n in InputData(in0, in1) && Obsolete(n, smallest, levels, level)
    ensures IsNewest(upper + TreeData(levels), user, smallest, n)
  {
    InputInBefore(upper, levels, level, in0, in1, input);
    var i :| 0 <= i < |input| && Dropped(input, i, smallest, levels, level) && input[i] == n;
    assert Hidden(input, i, smallest) ==> Less(input[i - 1].key, n.key) && Candidate(input[i - 1], user, snapshot);
  }

  /** An entry is in one level. */
  lemma {:induction false} OneLevel(levels: Levels, l: nat, m: nat, v: Entry)
    requires Recency(levels) && l < m < |levels| && v in LevelData(levels[m])
    ensures v !in LevelData(levels[l])
  {
    assert NewerThan(LevelData(levels[l]), LevelData(levels[m]));
  }

  lemma {:induction false} LeftNotInput(levels: Levels, level: nat, in0: seq<File>, in1: seq<File>, v: Entry)
    requires ShapeOk(levels) && Recency(levels) && Closed(levels, level, in0, in1) && v in LeftData(levels, level, in1)
    ensures v !in InputData(in0, in1)
  {
    var g :| g in levels[level + 1] && g !in in1 && v in g.entries;
    InTree(levels, level + 1, g, v);
    OneLevel(levels, level, level + 1, v);
    assert LevelData(in0) <= LevelData(levels[level]);
    if v in LevelData(in1) {
      var f :| f in in1 && v in f.entries;
      HeldOnce(levels[level + 1], f, g, v);
    }
  }

  lemma {:induction false} SurvivesLeft(upper: set<Entry>, levels: Levels, level: nat, in0: seq<File>, in1: seq<File>,
                                        input: seq<Entry>, smallest: nat, v: Entry)
    requires Setup(upper, levels, level, in0, in1, input) && v in LeftData(levels, level, in1)
    ensures v in After(upper, levels, level, input, smallest)
  {
    var g :| g in levels[level + 1] && g !in in1 && v in g.entries;
    InTree(levels, level + 1, g, v);
    LeftNotInput(levels, level, in0, in1, v);
    InputInBefore(upper, levels, level, in0, in1, input);
  }

  /** One user key at one snapshot: the compaction keeps the answer unless it uncovers a value there. */
  lemma {:induction false} CompactionReadAt(upper: set<Entry>, levels: Levels, level: nat, in0: seq<File>,
                                            in1: seq<File>, input: seq<Entry>, smallest: nat, user: int, snapshot: nat)
    requires Setup(upper, levels, level, in0, in1, input) && snapshot >= smallest
    requires forall n, v :: !Uncovers(upper, levels, level, in0, in1, smallest, user, n, v)
    ensures Read(After(upper, levels, level, input, smallest), user, snapshot) ==
      Read(upper + TreeData(levels), user, snapshot)
  {
    var before, after := upper + TreeData(levels), After(upper, levels, level, input, smallest);
    if n :| IsNewest(before, user, snapshot, n) {
      ReadNewest(before, user, snapshot, n);
      if n in after {
        assert IsNewest(after, user, snapshot, n);
        ReadNewest(after, user, snapshot, n);
      } else {
        DroppedNewest(upper, levels, level, in0, in1, input, smallest, user, snapshot, n);
        if m :| IsNewest(after, user, snapshot, m) {
          ReadNewest(after, user, snapshot, m);
          OlderNewest(upper, levels, level, in0, in1, input, smallest, n, m, user, snapshot);
          assert !Uncovers(upper, levels, level, in0, in1, smallest, user, n, m);
        }
      }
    } else {
      if m :| IsNewest(after, user, snapshot, m) {
        NewestExists(before, user, snapshot);
      }
    }
  }

  /** The newest survivor behind a dropped tombstone is the newest left entry behind it. */
  lemma {:induction false} OlderNewest(upper: set<Entry>, levels: Levels, level: nat, in0: seq<File>, in1: seq<File>,
                                       input: seq<Entry>, smallest: nat, n: Entry, m: Entry, user: int, snapshot: nat)
    requires Setup(upper, levels, level, in0, in1, input) && snapshot >= smallest
    requires n in InputData(in0, in1) && Obsolete(n, smallest, levels, level)
    requires IsNewest(upper + TreeData(levels), user, snapshot, n)
    requires n in DroppedSet(input, smallest, levels, level)
    requires IsNewest(After(upper, levels, level, input, smallest), user, snapshot, m)
    ensures IsNewest(LeftData(levels, level, in1), user, n.key.sn, m)
  {
    var after := After(upper, levels, level, input, smallest);
    assert Candidate(m, user, snapshot) && m in upper + TreeData(levels);
    assert m.key.sn < n.key.sn;
    OlderSurvivor(upper, levels, level, in0, in1, input, smallest, n, m);
    forall o | o in LeftData(levels, level, in1) && Candidate(o, user, n.key.sn)
      ensures o.key.sn <= m.key.sn
    {
      SurvivesLeft(upper, levels, level, in0, in1, input, smallest, o);
      assert Candidate(o, user, snapshot);
    }
  }

  /** An uncovered value is read at the smallest snapshot, where the tombstone said there is nothing. */
  lemma {:induction false} UncoveredRead(upper: set<Entry>, levels: Levels, level: nat, in0: seq<File>, in1: seq<File>,
                                         input: seq<Entry>, smallest: nat, user: int, n: Entry, v: Entry)
    requires Setup(upper, levels, level, in0, in1, input)
    requires Uncovers(upper, levels, level, in0, in1, smallest, user, n, v)
    ensures Read(upper + TreeData(levels), user, smallest) == None
    ensures Read(After(upper, levels, level, input, smallest), user, smallest) == Some(v.value)
  {
    var before, after := upper + TreeData(levels), After(upper, levels, level, input, smallest);
    ReadNewest(before, user, smallest, n);
    assert n in EntrySet(input);
    var i :| 0 <= i < |input| && input[i] == n;
    assert Dropped(input, i, smallest, levels, level);
    assert n in DroppedSet(input, smallest, levels, level);
    SurvivesLeft(upper, levels, level, in0, in1, input, smallest, v);
    LeftNotInput(levels, level, in0, in1, v);
    forall o | o in after && Candidate(o, user, smallest)
      ensures o.key.sn <= v.key.sn
    {
      assert Candidate(o, user, smallest) && o in before;
      assert o.key.sn < n.key.sn;
      OlderSurvivor(upper, levels, level, in0, in1, input, smallest, n, o);
      assert Candidate(o, user, n.key.sn);
    }
    assert IsNewest(after, user, smallest, v);
    ReadNewest(after, user, smallest, v);
  }

  /** One compaction keeps every read at every snapshot from the smallest live one on exactly when it uncovers
      nothing. */
  lemma {:induction false} CompactionPreservesReads(upper: set<Entry>, levels: Levels, level: nat, in0: seq<File>,
                                                    in1: seq<File>, input: seq<Entry>, smallest: nat)
    requires Setup(upper, levels, level, in0, in1, input)
    ensures NothingUncovered(upper, levels, level, in0, in1, smallest) <==>
      forall user: int, snapshot: nat | snapshot >= smallest ::
        Read(After(upper, levels, level, input, smallest), user, snapshot) ==
          Read(upper + TreeData(levels), user, snapshot)
  {
    if NothingUncovered(upper, levels, level, in0, in1, smallest) {
      forall user: int, snapshot: nat | snapshot >= smallest
        ensures Read(After(upper, levels, level, input, smallest), user, snapshot) ==
          Read(upper + TreeData(levels), user, snapshot)
      {
        CompactionReadAt(upper, levels, level, in0, in1, input, smallest, user, snapshot);
      }
    } else {
      var user, n, v :| Uncovers(upper, levels, level, in0, in1, smallest, user, n, v);
      UncoveredRead(upper, levels, level, in0, in1, input, smallest, user, n, v);
    }
  }

  // ---- The inputs that the code chooses are closed ----

  lemma {:induction false} ChosenRange(levels: Levels, level: nat, in0: seq<File>, in1: seq<File>, i: nat, j: nat)
    requires ShapeOk(levels) && level + 1 < NUM_LEVELS && Chosen(levels, level, in0, in1, i, j)
    ensures exists lo, hi :: ClosedRange(levels, level, in0, in1, lo, hi)
  {
    var smallest, largest :| IsHull(in0, smallest, largest) &&
      in1 == Overlapping(levels[level + 1], Some(smallest.user), Some(largest.user));
    OverlappingMembers(levels[level + 1], Some(smallest.user), Some(largest.user));
    assert ClosedRange(levels, level, in0, in1, smallest.user, largest.user);
  }

  lemma {:induction false} SliceMember(files: seq<File>, slice: seq<File>, i: nat, j: nat, f: File) returns (m: nat)
    requires IsSlice(files, slice, i, j) && f in slice
    ensures i <= m < j && files[m] == f
  {
    var k :| 0 <= k < |slice| && slice[k] == f;
    m := i + k;
  }

  lemma {:induction false} OutsideSlice(files: seq<File>, slice: seq<File>, i: nat, j: nat, g: File) returns (k: nat)
    requires IsSlice(files, slice, i, j) && g in files && g !in slice
    ensures k < |files| && files[k] == g && (k < i || j <= k)
  {
    k :| 0 <= k < |files| && files[k] == g;
    if i <= k < j { InsideSlice(files, slice, i, j, k); }
  }

  lemma {:induction false} InsideSlice(files: seq<File>, slice: seq<File>, i: nat, j: nat, k: nat)
    requires IsSlice(files, slice, i, j) && i <= k < j
    ensures files[k] in slice
  {
    assert slice[k - i] == files[k];
  }

  ghost predicate NoContinuation(files: seq<File>, inputs: seq<File>) {
    forall key | Compaction.IsLargest(inputs, key) :: IsBoundary(files, key, None)
  }

  lemma {:induction false} NextStartsLater(files: seq<File>, slice: seq<File>, i: nat, j: nat)
    requires SpansOk(files) && LevelSorted(files) && IsSlice(files, slice, i, j) && j < |files| &&
      NoContinuation(files, slice)
    ensures files[j - 1].largest.user < files[j].smallest.user
  {
    var smallest, largest := GetRangeOf(slice);
    HullLargest(slice, smallest, largest);
    SliceLargest(files, slice, i, j, largest);
    FilesIncrease(files, j - 1, j);
    assert files[j] in files && !Continues(files[j], largest);
  }

  /** A file behind the slice shares no user key with it. */
  lemma {:induction false} BehindSlice(files: seq<File>, slice: seq<File>, i: nat, j: nat, m: nat, k: nat)
    requires SpansOk(files) && LevelSorted(files) && IsSlice(files, slice, i, j) && m < j <= k < |files|
    requires NoContinuation(files, slice)
    ensures files[m].largest.user < files[k].smallest.user
  {
    NextStartsLater(files, slice, i, j);
    if m < j - 1 { FilesIncrease(files, m, j - 1); }
    if j < k { FilesIncrease(files, j, k); }
    assert SpanOk(files[j]) && SpanOk(files[j - 1]);
  }

  /** In a sorted level, a file before the slice is newer and a file behind it shares no user key. */
  lemma {:induction false} SliceClosed(files: seq<File>, in0: seq<File>, i: nat, j: nat, g: File, f: File, x: Entry,
                                       y: Entry)
    requires FilesOk(files) && LevelSorted(files) && IsSlice(files, in0, i, j) && NoContinuation(files, in0)
    requires g in files && g !in in0 && x in g.entries && f in in0 && y in f.entries && x.key.user == y.key.user
    ensures Less(x.key, y.key)
  {
    FilesSpan(files);
    var m := SliceMember(files, in0, i, j, f);
    var k := OutsideSlice(files, in0, i, j, g);
    EntryInRange(files[k], x);
    EntryInRange(files[m], y);
    if k < i { FilesIncrease(files, k, m); } else { BehindSlice(files, in0, i, j, m, k); }
  }

  lemma {:induction false} ZeroClosedApart(files: seq<File>, in0: seq<File>, g: File, f: File, x: int)
    requires ZeroClosed(files, in0) && g in files && g !in in0 && f in in0
    ensures !(Holds(g, x) && Holds(f, x))
  {
    var ub, ue :| ZeroRange(files, in0, ub, ue);
    OverlappingMembers(files, ub, ue);
    assert !Overlaps(g, ub, ue);
  }

  lemma {:induction false} ChosenPair(levels: Levels, level: nat, in0: seq<File>, in1: seq<File>, i: nat, j: nat,
                                      g: File, x: Entry, y: Entry)
    requires ShapeOk(levels) && level + 1 < NUM_LEVELS && Distinct(TreeData(levels)) &&
      Chosen(levels, level, in0, in1, i, j)
    requires g in levels[level] && g !in in0 && x in g.entries && y in LevelData(in0) && x.key.user == y.key.user
    ensures x.key.sn > y.key.sn
  {
    var f :| f in in0 && y in f.entries;
    PickedMember(levels[level], level, in0, i, j, f);
    if level == 0 {
      RangeHolds(levels, 0, g, x);
      RangeHolds(levels, 0, f, y);
      ZeroClosedApart(levels[0], in0, g, f, x.key.user);
    } else {
      SliceClosed(levels[level], in0, i, j, g, f, x, y);
      InTree(levels, level, g, x);
      InTree(levels, level, f, y);
    }
  }

  /** Inputs set up by the code are closed in the sense the theorem needs. */
  lemma {:induction false} ChosenClosed(levels: Levels, level: nat, in0: seq<File>, in1: seq<File>, i: nat, j: nat)
    requires ShapeOk(levels) && level + 1 < NUM_LEVELS && Distinct(TreeData(levels)) &&
      Chosen(levels, level, in0, in1, i, j)
    ensures Closed(levels, level, in0, in1)
  {
    ChosenRange(levels, level, in0, in1, i, j);
    forall f | f in in0 ensures f in levels[level] {
      PickedMember(levels[level], level, in0, i, j, f);
    }
    forall g | g in levels[level] && g !in in0 ensures NewerThan(EntrySet(g.entries), LevelData(in0)) {
      forall x, y | x in EntrySet(g.entries) && y in LevelData(in0) && x.key.user == y.key.user
        ensures x.key.sn > y.key.sn {
        ChosenPair(levels, level, in0, in1, i, j, g, x, y);
      }
    }
  }

  // ---- When nothing is uncovered ----

  /** In the next level a left file that shares a user key with an earlier input continues the inputs' largest key. */
  lemma {:induction false} LeftContinues(next: seq<File>, in1: seq<File>, lo: int, hi: int, f: File, g: File, user: int)
    requires SpansOk(next) && LevelSorted(next) && forall h :: h in in1 <==>
      h in next && Overlaps(h, Some(lo), Some(hi))
    requires f in in1 && g in next && g !in in1 && Holds(f, user) && Holds(g, user) && Less(f.largest, g.smallest)
    ensures !NoContinuation(next, in1)
  {
    assert |in1| > 0;
    var smallest, largest := GetRangeOf(in1);
    HullLargest(in1, smallest, largest);
    var h :| h in in1 && h.largest == largest;
    var a :| 0 <= a < |next| && next[a] == f;
    var b :| 0 <= b < |next| && next[b] == h;
    var c :| 0 <= c < |next| && next[c] == g;
    FilesCompare(next, a, b);
    FilesCompare(next, a, c);
    assert a == b;
    assert Continues(g, largest);
  }

  /** An input entry is no newer than a left entry of its user key that follows it. */
  lemma {:induction false} LeftPair(levels: Levels, level: nat, in0: seq<File>, in1: seq<File>, lo: int, hi: int,
                                    f: File, g: File, n: Entry, v: Entry)
    requires ShapeOk(levels) && level + 1 < NUM_LEVELS && ClosedRange(levels, level, in0, in1, lo, hi)
    requires NoContinuation(levels[level + 1], in1)
    requires (f in in0 && f in levels[level]) || f in in1
    requires g in levels[level + 1] && g !in in1 && n in f.entries && v in g.entries && n.key.user == v.key.user
    ensures v.key.sn >= n.key.sn
  {
    if f in in1 {
      LeftBehind(levels[level + 1], in1, lo, hi, f, g, n, v);
    } else {
      RangeHolds(levels, level + 1, g, v);
      RangeHolds(levels, level, f, n);
    }
  }

  lemma {:induction false} NotUncovered(levels: Levels, level: nat, in0: seq<File>, in1: seq<File>, n: Entry, v: Entry)
    requires ShapeOk(levels) && level + 1 < NUM_LEVELS && Closed(levels, level, in0, in1)
    requires NoContinuation(levels[level + 1], in1)
    requires n in InputData(in0, in1) && v in LeftData(levels, level, in1) && n.key.user == v.key.user
    ensures v.key.sn >= n.key.sn
  {
    var lo, hi :| ClosedRange(levels, level, in0, in1, lo, hi);
    var g :| g in levels[level + 1] && g !in in1 && v in g.entries;
    var f :| (f in in0 || f in in1) && n in f.entries;
    LeftPair(levels, level, in0, in1, lo, hi, f, g, n, v);
  }

  /** The guard a caller can check: if no file of the next level continues the largest key of the inputs taken
      from it, the compaction uncovers nothing. */
  lemma {:induction false} NextClosedUncoversNothing(upper: set<Entry>, levels: Levels, level: nat, in0: seq<File>,
                                                     in1: seq<File>, smallest: nat)
    requires ShapeOk(levels) && level + 1 < NUM_LEVELS && Closed(levels, level, in0, in1)
    requires Distinct(upper + TreeData(levels)) && NoContinuation(levels[level + 1], in1)
    ensures NothingUncovered(upper, levels, level, in0, in1, smallest)
  {
    forall user, n, v ensures !Uncovers(upper, levels, level, in0, in1, smallest, user, n, v) {
      UncoversNot(upper, levels, level, in0, in1, smallest, user, n, v);
    }
  }

  /** The same for inputs as the code chooses them. */
  lemma {:induction false} GuardUncoversNothing(upper: set<Entry>, levels: Levels, level: nat, in0: seq<File>,
                                                in1: seq<File>, smallest: nat, i: nat, j: nat)
    requires ShapeOk(levels) && level + 1 < NUM_LEVELS && Chosen(levels, level, in0, in1, i, j)
    requires Distinct(TreeData(levels)) && Distinct(upper + TreeData(levels)) && NoContinuation(levels[level + 1], in1)
    ensures NothingUncovered(upper, levels, level, in0, in1, smallest)
  {
    ChosenClosed(levels, level, in0, in1, i, j);
    NextClosedUncoversNothing(upper, levels, level, in0, in1, smallest);
  }

  lemma {:induction false} UncoversNot(upper: set<Entry>, levels: Levels, level: nat, in0: seq<File>, in1: seq<File>,
                                       smallest: nat, user: int, n: Entry, v: Entry)
    requires ShapeOk(levels) && level + 1 < NUM_LEVELS && Closed(levels, level, in0, in1)
    requires Distinct(upper + TreeData(levels)) && NoContinuation(levels[level + 1], in1)
    ensures !Uncovers(upper, levels, level, in0, in1, smallest, user, n, v)
  {
    if IsNewest(LeftData(levels, level, in1), user, n.key.sn, v) && n in InputData(in0, in1) && n.key.user == user {
      NotUncovered(levels, level, in0, in1, n, v);
      var g :| g in levels[level + 1] && g !in in1 && v in g.entries;
      InTree(levels, level + 1, g, v);
      InputInLevel(levels, level, in0, in1, n);
      assert n == v;
    }
  }

  lemma {:induction false} LeftBehind(next: seq<File>, in1: seq<File>, lo: int, hi: int, f: File, g: File, n: Entry,
                                      v: Entry)
    requires FilesOk(next) && LevelSorted(next) && forall h :: h in in1 <==>
      h in next && Overlaps(h, Some(lo), Some(hi))
    requires NoContinuation(next, in1) && f in in1 && g in next && g !in in1
    requires n in f.entries && v in g.entries && n.key.user == v.key.user
    ensures v.key.sn >= n.key.sn
  {
    FilesSpan(next);
    var a :| 0 <= a < |next| && next[a] == f;
    var b :| 0 <= b < |next| && next[b] == g;
    EntryInRange(next[a], n);
    EntryInRange(next[b], v);
    FilesCompare(next, a, b);
    if a < b { LeftContinues(next, in1, lo, hi, f, g, n.key.user); }
  }
}
