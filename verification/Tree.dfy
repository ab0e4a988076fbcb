/** Sorted tables arranged in seven levels, and the searches over them. */
module Tree {
  import opened Format

  const NUM_LEVELS: nat := 7
  const MAX_MEM_COMPACT_LEVEL: nat := 2

  /** File metadata together with the table's contents. */
  datatype File = File(number: nat, size: nat, smallest: Key, largest: Key, entries: seq<Entry>)

  type Levels = seq<seq<File>>

  ghost predicate FileOk(f: File) {
    |f.entries| > 0 && Sorted(f.entries) &&
    f.smallest == f.entries[0].key && f.largest == f.entries[|f.entries| - 1].key
  }

  ghost predicate FilesOk(files: seq<File>) {
    forall i | 0 <= i < |files| :: FileOk(files[i])
  }

  ghost predicate SpanOk(f: File) { !Less(f.largest, f.smallest) }

  ghost predicate SpansOk(files: seq<File>) {
    forall i | 0 <= i < |files| :: SpanOk(files[i])
  }

  lemma {:induction false} FilesSpan(files: seq<File>)
    requires FilesOk(files)
    ensures SpansOk(files)
  {
    forall i | 0 <= i < |files| ensures SpanOk(files[i]) {
      EntryInRange(files[i], files[i].entries[0]);
    }
  }

  /** A level above 0: key ranges are disjoint and increasing. A user key may still end one file and start the next. */
  ghost predicate LevelSorted(files: seq<File>) {
    forall i, j | 0 <= i < j < |files| :: Less(files[i].largest, files[j].smallest)
  }

  ghost function LevelData(files: seq<File>): set<Entry> {
    set f, e | f in files && e in f.entries :: e
  }

  ghost function TreeData(levels: Levels): set<Entry> {
    set l, e | 0 <= l < |levels| && e in LevelData(levels[l]) :: e
  }

  /** No entry of a deeper place is newer than an entry of a shallower one for the same user key. */
  ghost predicate NewerThan(a: set<Entry>, b: set<Entry>) {
    forall x, y | x in a && y in b && x.key.user == y.key.user :: x.key.sn > y.key.sn
  }

  ghost predicate Recency(levels: Levels) {
    (forall i, j | 0 <= i < j < |levels| :: NewerThan(LevelData(levels[i]), LevelData(levels[j]))) &&
    (|levels| > 0 ==> ZeroRecency(levels[0]))
  }

  /** In level 0 a higher file number means newer data. */
  ghost predicate ZeroRecency(files: seq<File>) {
    forall f, g | f in files && g in files && f.number > g.number ::
      NewerThan(EntrySet(f.entries), EntrySet(g.entries))
  }

  ghost predicate UniqueNumbers(files: seq<File>) {
    forall f, g | f in files && g in files && f.number == g.number :: f == g
  }

  ghost predicate ShapeOk(levels: Levels) {
    |levels| == NUM_LEVELS &&
    (forall l | 0 <= l < NUM_LEVELS :: FilesOk(levels[l])) &&
    (forall l | 1 <= l < NUM_LEVELS :: LevelSorted(levels[l]))
  }

  ghost predicate TreeOk(levels: Levels) {
    ShapeOk(levels) && (forall l | 0 <= l < NUM_LEVELS :: UniqueNumbers(levels[l])) && Recency(levels)
  }

  // ---- Key ranges ----

  lemma {:induction false} EntryInRange(f: File, e: Entry)
    requires FileOk(f) && e in f.entries
    ensures !Less(e.key, f.smallest) && !Less(f.largest, e.key)
    ensures f.smallest.user <= e.key.user <= f.largest.user
  {
    var i :| 0 <= i < |f.entries| && f.entries[i] == e;
  }

  predicate AfterFile(user: Option<int>, f: File) { user.Some? && user.value > f.largest.user }

  predicate BeforeFile(user: Option<int>, f: File) { user.Some? && user.value < f.smallest.user }

  /** The file's user-key range meets [lo, hi]; a missing bound is unlimited. */
  predicate Overlaps(f: File, lo: Option<int>, hi: Option<int>) {
    !AfterFile(lo, f) && !BeforeFile(hi, f)
  }

  /** Binary search for the first file whose largest key is at or above the target. */
  method FindFile(files: seq<File>, key: Key) returns (index: nat)
    requires SpansOk(files) && LevelSorted(files)
    ensures index <= |files|
    ensures forall i | 0 <= i < index :: Less(files[i].largest, key)
    ensures forall i | index <= i < |files| :: !Less(files[i].largest, key)
  {
    var left, right := 0, |files|;
    while left < right
      invariant 0 <= left <= right <= |files|
      invariant forall i | 0 <= i < left :: Less(files[i].largest, key)
      invariant forall i | right <= i < |files| :: !Less(files[i].largest, key)
    {
      var mid := (left + right) / 2;
      LargestIncrease(files);
      if Less(files[mid].largest, key) {
        left := mid + 1;
      } else {
        right := mid;
      }
    }
    index := right;
  }

  lemma {:induction false} LargestIncrease(files: seq<File>)
    requires SpansOk(files) && LevelSorted(files)
    ensures forall i, j | 0 <= i < j < |files| :: Less(files[i].largest, files[j].largest)
    ensures forall i, j | 0 <= i < j < |files| :: Less(files[i].smallest, files[j].smallest)
    ensures forall i, j | 0 <= i < j < |files| ::
      files[i].smallest.user <= files[i].largest.user <= files[j].smallest.user <= files[j].largest.user
  {
  }

  /** The same for two chosen files. */
  lemma {:induction false} FilesIncrease(files: seq<File>, i: nat, j: nat)
    requires SpansOk(files) && LevelSorted(files) && i < j < |files|
    ensures Less(files[i].largest, files[j].smallest) && Less(files[i].largest, files[j].largest)
    ensures Less(files[i].smallest, files[j].smallest)
    ensures files[i].smallest.user <= files[i].largest.user <= files[j].smallest.user <= files[j].largest.user
  {
    assert SpanOk(files[i]) && SpanOk(files[j]);
  }

  lemma {:induction false} FilesCompare(files: seq<File>, i: nat, j: nat)
    requires SpansOk(files) && LevelSorted(files) && i < |files| && j < |files|
    ensures i < j ==> Less(files[i].largest, files[j].smallest) && files[i].largest.user <= files[j].smallest.user
    ensures j < i ==> Less(files[j].largest, files[i].smallest) && files[j].largest.user <= files[i].smallest.user
    ensures files[i].smallest.user <= files[i].largest.user && files[j].smallest.user <= files[j].largest.user
    ensures !Less(files[i].largest, files[i].smallest) && !Less(files[j].largest, files[j].smallest)
  {
    assert SpanOk(files[i]) && SpanOk(files[j]);
  }

  /** In a sorted level an entry is in one file. */
  lemma {:induction false} HeldOnce(files: seq<File>, f: File, g: File, e: Entry)
    requires FilesOk(files) && LevelSorted(files) && f in files && g in files && e in f.entries && e in g.entries
    ensures f == g
  {
    var i :| 0 <= i < |files| && files[i] == f;
    var j :| 0 <= j < |files| && files[j] == g;
    EntryInRange(f, e);
    EntryInRange(g, e);
  }

  method SomeFileOverlapsRange(disjointSorted: bool, files: seq<File>, lo: Option<int>, hi: Option<int>)
    returns (b: bool)
    requires SpansOk(files) && (disjointSorted ==> LevelSorted(files))
    ensures b <==> exists f :: f in files && Overlaps(f, lo, hi)
  {
    if !disjointSorted {
      for i := 0 to |files|
        invariant forall j | 0 <= j < i :: !Overlaps(files[j], lo, hi)
      {
        if AfterFile(lo, files[i]) || BeforeFile(hi, files[i]) {
        } else {
          assert Overlaps(files[i], lo, hi);
          return true;
        }
      }
      return false;
    }
    var index := 0;
    if lo.Some? {
      index := FindFile(files, Key(lo.value, MAX_SEQUENCE, Value));
    }
    LargestIncrease(files);
    if index >= |files| {
      return false;
    }
    b := !BeforeFile(hi, files[index]);
    assert b ==> Overlaps(files[index], lo, hi);
  }

  function TotalFileSize(files: seq<File>): nat {
    if |files| == 0 then 0 else files[0].size + TotalFileSize(files[1..])
  }

  lemma {:induction false} TotalSnoc(files: seq<File>, f: File)
    ensures TotalFileSize(files + [f]) == TotalFileSize(files) + f.size
  {
    if |files| == 0 {
      assert files + [f] == [f] && [f][1..] == [];
    } else {
      TotalSnoc(files[1..], f);
      assert (files + [f])[1..] == files[1..] + [f];
    }
  }

  // ---- Overlapping inputs ----

  /** The files that meet the range, in level order. */
  function Overlapping(files: seq<File>, lo: Option<int>, hi: Option<int>): seq<File> {
    if |files| == 0 then [] else
      var n := |files| - 1;
      Overlapping(files[..n], lo, hi) + if Overlaps(files[n], lo, hi) then [files[n]] else []
  }

  lemma {:induction false} OverlappingMembers(files: seq<File>, lo: Option<int>, hi: Option<int>)
    ensures forall f :: f in Overlapping(files, lo, hi) <==> f in files && Overlaps(f, lo, hi)
  {
    if |files| > 0 {
      var n := |files| - 1;
      OverlappingMembers(files[..n], lo, hi);
      assert files == files[..n] + [files[n]];
    }
  }

  /** Taking one more file. */
  lemma {:induction false} OverlappingStep(files: seq<File>, i: nat, lo: Option<int>, hi: Option<int>)
    requires i < |files|
    ensures Overlapping(files[..i + 1], lo, hi) ==
      Overlapping(files[..i], lo, hi) + if Overlaps(files[i], lo, hi) then [files[i]] else []
  {
    assert files[..i + 1][..i] == files[..i];
  }

  predicate InRange(x: int, lo: Option<int>, hi: Option<int>) {
    (lo.Some? ==> lo.value <= x) && (hi.Some? ==> x <= hi.value)
  }

  predicate Holds(f: File, x: int) { f.smallest.user <= x <= f.largest.user }

  predicate Meet(f: File, g: File) {
    f.smallest.user <= g.largest.user && g.smallest.user <= f.largest.user
  }

  /** t holds every file that meets the range, and every file that meets a file of t. */
  ghost predicate OverlapClosed(files: seq<File>, lo: Option<int>, hi: Option<int>, t: set<File>) {
    (forall f | f in files && Overlaps(f, lo, hi) :: f in t) &&
    (forall f, g | f in files && g in t && Meet(f, g) :: f in t)
  }

  /** Every user key of the grown range [ub, ue] is in the range asked for or inside a file of t. */
  ghost predicate Covered(ub: Option<int>, ue: Option<int>, lo: Option<int>, hi: Option<int>, t: set<File>) {
    forall x: int | InRange(x, ub, ue) :: InRange(x, lo, hi) || exists f :: f in t && Holds(f, x)
  }

  /** The grown range is forced: any closed set covers it. */
  ghost predicate Forced(files: seq<File>, ub: Option<int>, ue: Option<int>, lo: Option<int>, hi: Option<int>) {
    ((ub.Some? && ue.Some? && ub.value > ue.value) ==> ub == lo && ue == hi) &&
    (ub.None? <==> lo.None?) && (ue.None? <==> hi.None?) &&
    (lo.Some? ==> ub.value <= lo.value) && (hi.Some? ==> hi.value <= ue.value) &&
    forall t: set<File> | OverlapClosed(files, lo, hi, t) :: Covered(ub, ue, lo, hi, t)
  }

  lemma {:induction false} ForcedMember(files: seq<File>, ub: Option<int>, ue: Option<int>, lo: Option<int>,
                                        hi: Option<int>, f: File, t: set<File>)
    requires SpansOk(files) && Forced(files, ub, ue, lo, hi)
    requires f in files && Overlaps(f, ub, ue) && OverlapClosed(files, lo, hi, t)
    ensures f in t
  {
    assert SpanOk(f);
    if ub.Some? && ue.Some? && ub.value > ue.value {
    } else {
      var x := if ub.Some? && f.smallest.user < ub.value then ub.value else f.smallest.user;
      assert InRange(x, ub, ue) && Holds(f, x);
      if !InRange(x, lo, hi) {
        var g :| g in t && Holds(g, x);
        assert Meet(f, g);
      } else {
        assert Overlaps(f, lo, hi);
      }
    }
  }

  /** Growing either end of the range to a file that meets it keeps the range forced. */
  lemma {:induction false} ForcedGrows(files: seq<File>, ub: Option<int>, ue: Option<int>, lo: Option<int>,
                                       hi: Option<int>, f: File)
    requires SpansOk(files) && Forced(files, ub, ue, lo, hi)
    requires f in files && Overlaps(f, ub, ue)
    ensures ub.Some? && f.smallest.user < ub.value ==> Forced(files, Some(f.smallest.user), ue, lo, hi)
    ensures ue.Some? && f.largest.user > ue.value ==> Forced(files, ub, Some(f.largest.user), lo, hi)
  {
    assert SpanOk(f);
    forall t: set<File> | OverlapClosed(files, lo, hi, t)
      ensures ub.Some? && f.smallest.user < ub.value ==> Covered(Some(f.smallest.user), ue, lo, hi, t)
      ensures ue.Some? && f.largest.user > ue.value ==> Covered(ub, Some(f.largest.user), lo, hi, t)
    {
      ForcedMember(files, ub, ue, lo, hi, f, t);
      assert forall x | !InRange(x, ub, ue) && Holds(f, x) :: exists g :: g in t && Holds(g, x);
    }
  }

  /** Ends of files that stick out of the range; what the restarting scan uses up. */
  function Sticking(files: seq<File>, ub: Option<int>, ue: Option<int>): nat {
    if |files| == 0 then 0 else
      (if ub.Some? && files[0].smallest.user < ub.value then 1 else 0) +
      (if ue.Some? && files[0].largest.user > ue.value then 1 else 0) +
      Sticking(files[1..], ub, ue)
  }

  predicate Absorbed(f: File, ub: Option<int>, ue: Option<int>, ub': Option<int>, ue': Option<int>) {
    (ub.Some? && ub'.Some? && ub'.value <= f.smallest.user < ub.value) ||
    (ue.Some? && ue'.Some? && ue.value < f.largest.user <= ue'.value)
  }

  lemma {:induction false} StickingShrinks(files: seq<File>, ub: Option<int>, ue: Option<int>, ub': Option<int>,
                                           ue': Option<int>)
    requires ub.Some? == ub'.Some? && (ub.Some? ==> ub'.value <= ub.value)
    requires ue.Some? == ue'.Some? && (ue.Some? ==> ue.value <= ue'.value)
    ensures Sticking(files, ub', ue') <= Sticking(files, ub, ue)
    ensures (exists f :: f in files && Absorbed(f, ub, ue, ub', ue')) ==>
      Sticking(files, ub', ue') < Sticking(files, ub, ue)
  {
    if |files| > 0 {
      StickingShrinks(files[1..], ub, ue, ub', ue');
      assert forall f :: f in files <==> f == files[0] || f in files[1..];
    }
  }

  ghost predicate AllWithin(files: seq<File>, ub: Option<int>, ue: Option<int>) {
    forall f | f in files :: (ub.Some? ==> ub.value <= f.smallest.user) && (ue.Some? ==> f.largest.user <= ue.value)
  }

  /** The files of a level that meet [lo, hi]. In level 0, where files overlap, a file that sticks out of the
      range grows it and restarts the scan. The ghost results are the range the scan ends with. */
  method GetOverlappingInputs(level: nat, files: seq<File>, lo: Option<int>, hi: Option<int>)
    returns (inputs: seq<File>, ghost ub: Option<int>, ghost ue: Option<int>)
    requires SpansOk(files)
    ensures inputs == Overlapping(files, ub, ue) && Forced(files, ub, ue, lo, hi)
    ensures level > 0 ==> ub == lo && ue == hi
    ensures level == 0 ==> AllWithin(inputs, ub, ue)
  {
    inputs := [];
    var userBegin, userEnd := lo, hi;
    var i := 0;
    while i < |files|
      invariant 0 <= i <= |files|
      invariant inputs == Overlapping(files[..i], userBegin, userEnd)
      invariant Forced(files, userBegin, userEnd, lo, hi)
      invariant level > 0 ==> userBegin == lo && userEnd == hi
      invariant level == 0 ==> AllWithin(inputs, userBegin, userEnd)
      decreases Sticking(files, userBegin, userEnd), |files| - i
    {
      var f := files[i];
      OverlappingStep(files, i, userBegin, userEnd);
      i := i + 1;
      if userBegin.Some? && f.largest.user < userBegin.value {
      } else if userEnd.Some? && f.smallest.user > userEnd.value {
      } else {
        inputs := inputs + [f];
        if level == 0 {
          ForcedGrows(files, userBegin, userEnd, lo, hi, f);
          if userBegin.Some? && f.smallest.user < userBegin.value {
            StickingShrinks(files, userBegin, userEnd, Some(f.smallest.user), userEnd);
            assert Absorbed(f, userBegin, userEnd, Some(f.smallest.user), userEnd);
            userBegin := Some(f.smallest.user);
            inputs := [];
            i := 0;
          } else if userEnd.Some? && f.largest.user > userEnd.value {
            StickingShrinks(files, userBegin, userEnd, userBegin, Some(f.largest.user));
            assert Absorbed(f, userBegin, userEnd, userBegin, Some(f.largest.user));
            userEnd := Some(f.largest.user);
            inputs := [];
            i := 0;
          }
        }
      }
    }
    assert files[..|files|] == files;
    ub, ue := userBegin, userEnd;
  }

  /** At level 0 the result is the least set that meets the range and is closed under overlap. */
  lemma {:induction false} OverlappingInputsLeast(files: seq<File>, lo: Option<int>, hi: Option<int>, ub: Option<int>,
                                                  ue: Option<int>)
    requires SpansOk(files) && Forced(files, ub, ue, lo, hi) && AllWithin(Overlapping(files, ub, ue), ub, ue)
    ensures OverlapClosed(files, lo, hi, set f | f in Overlapping(files, ub, ue))
    ensures forall t: set<File> | OverlapClosed(files, lo, hi, t) :: forall f | f in Overlapping(files, ub, ue) ::
      f in t
  {
    OverlappingMembers(files, ub, ue);
    forall t: set<File>, f | OverlapClosed(files, lo, hi, t) && f in Overlapping(files, ub, ue)
      ensures f in t
    {
      ForcedMember(files, ub, ue, lo, hi, f, t);
    }
  }

  // ---- Where a flushed memtable goes ----

  ghost predicate SomeOverlap(levels: Levels, level: nat, lo: int, hi: int)
    requires level < |levels|
  {
    exists f :: f in levels[level] && Overlaps(f, Some(lo), Some(hi))
  }

  /** A table at the level would go no deeper: the next level meets the range, or the one after it holds too much of
      it. */
  ghost predicate Blocked(levels: Levels, level: nat, lo: int, hi: int, maxGrandParentOverlap: nat)
    requires level + 2 < |levels|
  {
    SomeOverlap(levels, level + 1, lo, hi) ||
    TotalFileSize(Overlapping(levels[level + 2], Some(lo), Some(hi))) > maxGrandParentOverlap
  }

  /** The deepest level, down to 2, that can be reached from level 0 without meeting the range. */
  ghost predicate Deepest(levels: Levels, level: nat, lo: int, hi: int, maxGrandParentOverlap: nat) {
    |levels| == NUM_LEVELS && level <= 2 &&
      (level > 0 ==> forall l | 0 <= l <= level :: !SomeOverlap(levels, l, lo, hi)) &&
    (forall l | 0 <= l < level :: !Blocked(levels, l, lo, hi, maxGrandParentOverlap)) &&
    (level < 2 && !SomeOverlap(levels, 0, lo, hi) ==> Blocked(levels, level, lo, hi, maxGrandParentOverlap))
  }

  /** Descends while the next level holds nothing in the range and the level after that does not hold too much. */
  method PickLevelForMemTableOutput(levels: Levels, lo: int, hi: int, maxGrandParentOverlap: nat) returns (level: nat)
    requires ShapeOk(levels)
    ensures level <= MAX_MEM_COMPACT_LEVEL
    ensures level > 0 ==> forall l | 0 <= l <= level :: !SomeOverlap(levels, l, lo, hi)
    ensures forall l | 0 <= l < level :: !Blocked(levels, l, lo, hi, maxGrandParentOverlap)
    ensures level < MAX_MEM_COMPACT_LEVEL && !SomeOverlap(levels, 0, lo, hi) ==>
      Blocked(levels, level, lo, hi, maxGrandParentOverlap)
    ensures Deepest(levels, level, lo, hi, maxGrandParentOverlap)
  {
    level := 0;
    forall l | 0 <= l < NUM_LEVELS ensures SpansOk(levels[l]) { FilesSpan(levels[l]); }
    var overlap := SomeFileOverlapsRange(false, levels[0], Some(lo), Some(hi));
    if !overlap {
      while level < MAX_MEM_COMPACT_LEVEL
        invariant level <= MAX_MEM_COMPACT_LEVEL
        invariant forall l | 0 <= l <= level :: !SomeOverlap(levels, l, lo, hi)
        invariant forall l | 0 <= l < level :: !Blocked(levels, l, lo, hi, maxGrandParentOverlap)
      {
        overlap := SomeFileOverlapsRange(true, levels[level + 1], Some(lo), Some(hi));
        if overlap {
          break;
        }
        if level + 2 < NUM_LEVELS {
          var overlaps, _, _ := GetOverlappingInputs(level + 2, levels[level + 2], Some(lo), Some(hi));
          if TotalFileSize(overlaps) > maxGrandParentOverlap {
            break;
          }
        }
        level := level + 1;
      }
    }
  }

  // ---- Point lookup ----

  datatype SaverState = NotFound | Found(value: string) | Deleted

  function StateOf(e: Entry): SaverState { if e.key.kind.Value? then Found(e.value) else Deleted }

  /** Position at the first entry at or above the lookup key; it answers if it has the user key. */
  function TableGet(entries: seq<Entry>, user: int, snapshot: Sequence): SaverState {
    var i := LowerBound(entries, LookupKey(user, snapshot));
    if i < |entries| && entries[i].key.user == user then StateOf(entries[i]) else NotFound
  }

  ghost predicate NoCandidate(data: set<Entry>, user: int, snapshot: nat) {
    forall e | e in data :: !Candidate(e, user, snapshot)
  }

  /** The result is the newest visible entry of the data, or there is none. */
  ghost predicate Resolves(data: set<Entry>, user: int, snapshot: nat, r: SaverState) {
    if r.NotFound? then NoCandidate(data, user, snapshot)
    else exists e :: IsNewest(data, user, snapshot, e) && StateOf(e) == r
  }

  lemma {:induction false} TableGetResolves(entries: seq<Entry>, user: int, snapshot: Sequence)
    requires Sorted(entries)
    ensures Resolves(EntrySet(entries), user, snapshot, TableGet(entries, user, snapshot))
  {
    var i := LowerBound(entries, LookupKey(user, snapshot));
    if i < |entries| && entries[i].key.user == user {
      assert IsNewest(EntrySet(entries), user, snapshot, entries[i]);
    } else {
      assert i < |entries| ==> entries[i].key.user > user;
    }
  }

  /** Data searched first settles the question if it is newer than the rest. */
  lemma {:induction false} ResolvesFirst(a: set<Entry>, b: set<Entry>, user: int, snapshot: nat, r: SaverState)
    requires NewerThan(a, b) && Resolves(a, user, snapshot, r) && !r.NotFound?
    ensures Resolves(a + b, user, snapshot, r)
  {
    var e :| IsNewest(a, user, snapshot, e) && StateOf(e) == r;
    assert IsNewest(a + b, user, snapshot, e);
  }

  lemma {:induction false} ResolvesSecond(a: set<Entry>, b: set<Entry>, user: int, snapshot: nat, r: SaverState)
    requires NoCandidate(a, user, snapshot) && Resolves(b, user, snapshot, r)
    ensures Resolves(a + b, user, snapshot, r)
  {
    if !r.NotFound? {
      var e :| IsNewest(b, user, snapshot, e) && StateOf(e) == r;
      assert IsNewest(a + b, user, snapshot, e);
    }
  }

  /** In a sorted level only the file found by binary search can hold the answer, even when the user key
      straddles files. */
  lemma {:induction false} LevelGetResolves(files: seq<File>, user: int, snapshot: Sequence, index: nat)
    requires FilesOk(files) && LevelSorted(files) && index <= |files|
    requires forall i | 0 <= i < index :: Less(files[i].largest, LookupKey(user, snapshot))
    requires forall i | index <= i < |files| :: !Less(files[i].largest, LookupKey(user, snapshot))
    ensures index == |files| || user < files[index].smallest.user ==> NoCandidate(LevelData(files), user, snapshot)
    ensures index < |files| ==>
      Resolves(LevelData(files), user, snapshot, TableGet(files[index].entries, user, snapshot))
  {
    FilesSpan(files);
    LargestIncrease(files);
    forall f, e | f in files && e in f.entries && Candidate(e, user, snapshot)
      ensures index < |files| && (f == files[index] || Less(files[index].largest, e.key))
    {
      var j :| 0 <= j < |files| && files[j] == f;
      EntryInRange(f, e);
      assert j >= index;
    }
    if index < |files| {
      var f := files[index];
      TableGetResolves(f.entries, user, snapshot);
      var i := LowerBound(f.entries, LookupKey(user, snapshot));
      EntryInRange(f, f.entries[i]);
      if f.entries[i].key.user == user {
        assert IsNewest(EntrySet(f.entries), user, snapshot, f.entries[i]);
        assert f.entries[i] in LevelData(files);
        assert IsNewest(LevelData(files), user, snapshot, f.entries[i]);
      }
      forall e | e in f.entries ensures user < f.smallest.user ==> !Candidate(e, user, snapshot) {
        EntryInRange(f, e);
      }
    }
  }

  predicate NewestFirst(a: File, b: File) { a.number > b.number }

  /** Insertion into a list sorted by descending file number. */
  function InsertNewestFirst(files: seq<File>, f: File): (r: seq<File>)
    ensures multiset(r) == multiset(files) + multiset{f}
  {
    if |files| == 0 || !NewestFirst(files[0], f) then [f] + files
    else
      assert files == [files[0]] + files[1..];
      [files[0]] + InsertNewestFirst(files[1..], f)
  }

  function SortNewestFirst(files: seq<File>): (r: seq<File>)
    ensures multiset(r) == multiset(files)
  {
    if |files| == 0 then [] else
      assert files == [files[0]] + files[1..];
      InsertNewestFirst(SortNewestFirst(files[1..]), files[0])
  }

  ghost predicate Descending(files: seq<File>) {
    forall i, j | 0 <= i < j < |files| :: files[i].number >= files[j].number
  }

  lemma {:induction false} InsertDescending(files: seq<File>, f: File)
    requires Descending(files)
    ensures Descending(InsertNewestFirst(files, f))
  {
    if |files| == 0 || !NewestFirst(files[0], f) {
    } else {
      InsertDescending(files[1..], f);
      var r := InsertNewestFirst(files[1..], f);
      forall j | 0 <= j < |r| ensures files[0].number >= r[j].number {
        assert r[j] in multiset(r);
        assert r[j] in files[1..] || r[j] == f;
      }
    }
  }

  lemma {:induction false} SortDescending(files: seq<File>)
    ensures Descending(SortNewestFirst(files))
    ensures forall f :: f in SortNewestFirst(files) <==> f in files
  {
    if |files| > 0 {
      SortDescending(files[1..]);
      InsertDescending(SortNewestFirst(files[1..]), files[0]);
    }
    forall f ensures f in SortNewestFirst(files) <==> f in files {
      assert f in multiset(files) <==> f in multiset(SortNewestFirst(files));
    }
  }

  /** tmp holds, newest file first, every file of level 0 whose range holds the user key. */
  ghost predicate SearchOrder(files: seq<File>, tmp: seq<File>, user: int) {
    Descending(tmp) && (forall f :: f in tmp <==> f in files && Overlaps(f, Some(user), Some(user)))
  }

  method FilesHolding(files: seq<File>, user: int) returns (tmp: seq<File>)
    ensures SearchOrder(files, tmp, user)
  {
    tmp := [];
    for i := 0 to |files|
      invariant tmp == Overlapping(files[..i], Some(user), Some(user))
    {
      OverlappingStep(files, i, Some(user), Some(user));
      if files[i].smallest.user <= user <= files[i].largest.user {
        tmp := tmp + [files[i]];
      }
    }
    assert files[..|files|] == files;
    OverlappingMembers(files, Some(user), Some(user));
    SortDescending(tmp);
    tmp := SortNewestFirst(tmp);
  }

  /** Level 0: the files whose range holds the user key, newest first, stopping at the first match. */
  method SearchLevelZero(files: seq<File>, user: int, snapshot: Sequence) returns (r: SaverState)
    requires FilesOk(files) && UniqueNumbers(files) && ZeroRecency(files)
    ensures Resolves(LevelData(files), user, snapshot, r)
  {
    var tmp := FilesHolding(files, user);
    for i := 0 to |tmp|
      invariant forall j | 0 <= j < i :: NoCandidate(EntrySet(tmp[j].entries), user, snapshot)
    {
      assert FileOk(tmp[i]) by {
        assert tmp[i] in files;
      }
      r := TableGet(tmp[i].entries, user, snapshot);
      TableGetResolves(tmp[i].entries, user, snapshot);
      if !r.NotFound? {
        LevelZeroResolves(files, tmp, i, user, snapshot, r);
        return;
      }
    }
    r := NotFound;
    LevelZeroAbsent(files, tmp, user, snapshot);
  }

  lemma {:induction false} Placed(files: seq<File>, tmp: seq<File>, user: int, snapshot: Sequence, e: Entry)
    returns (j: nat)
    requires FilesOk(files) && SearchOrder(files, tmp, user)
    requires e in LevelData(files) && Candidate(e, user, snapshot)
    ensures j < |tmp| && e in EntrySet(tmp[j].entries)
  {
    var f :| f in files && e in f.entries;
    EntryInRange(f, e);
    j :| 0 <= j < |tmp| && tmp[j] == f;
  }

  lemma {:induction false} LevelZeroAbsent(files: seq<File>, tmp: seq<File>, user: int, snapshot: Sequence)
    requires FilesOk(files) && SearchOrder(files, tmp, user)
    requires forall j | 0 <= j < |tmp| :: NoCandidate(EntrySet(tmp[j].entries), user, snapshot)
    ensures NoCandidate(LevelData(files), user, snapshot)
  {
    forall e | e in LevelData(files) ensures !Candidate(e, user, snapshot) {
      if Candidate(e, user, snapshot) {
        var j := Placed(files, tmp, user, snapshot, e);
      }
    }
  }

  /** A deeper level: one binary search, at most one table. */
  method SearchLevel(files: seq<File>, user: int, snapshot: Sequence) returns (r: SaverState)
    requires FilesOk(files) && LevelSorted(files)
    ensures Resolves(LevelData(files), user, snapshot, r)
  {
    if |files| == 0 {
      return NotFound;
    }
    FilesSpan(files);
    var index := FindFile(files, LookupKey(user, snapshot));
    LevelGetResolves(files, user, snapshot, index);
    if index < |files| {
      if user < files[index].smallest.user {
        return NotFound;
      }
      return TableGet(files[index].entries, user, snapshot);
    }
    r := NotFound;
  }

  /** Levels from shallow to deep, stopping at the first match. */
  method VersionGet(levels: Levels, user: int, snapshot: Sequence) returns (r: SaverState)
    requires TreeOk(levels)
    ensures Resolves(TreeData(levels), user, snapshot, r)
  {
    r := SearchLevelZero(levels[0], user, snapshot);
    if !r.NotFound? {
      LevelsResolve(levels, 0, user, snapshot, r);
      return;
    }
    for level := 1 to NUM_LEVELS
      invariant forall l | 0 <= l < level :: NoCandidate(LevelData(levels[l]), user, snapshot)
    {
      r := SearchLevel(levels[level], user, snapshot);
      if !r.NotFound? {
        LevelsResolve(levels, level, user, snapshot, r);
        return;
      }
    }
    r := NotFound;
  }

  lemma {:induction false} LevelZeroResolves(files: seq<File>, tmp: seq<File>, i: nat, user: int, snapshot: Sequence,
                                             r: SaverState)
    requires FilesOk(files) && UniqueNumbers(files) && ZeroRecency(files) && SearchOrder(files, tmp, user)
    requires i < |tmp| && forall j | 0 <= j < i :: NoCandidate(EntrySet(tmp[j].entries), user, snapshot)
    requires !r.NotFound? && Resolves(EntrySet(tmp[i].entries), user, snapshot, r)
    ensures Resolves(LevelData(files), user, snapshot, r)
  {
    var n :| IsNewest(EntrySet(tmp[i].entries), user, snapshot, n) && StateOf(n) == r;
    forall e | e in LevelData(files) && Candidate(e, user, snapshot)
      ensures e.key.sn <= n.key.sn
    {
      var j := Placed(files, tmp, user, snapshot, e);
      assert j >= i && tmp[j] in files && tmp[i] in files;
      if tmp[j] != tmp[i] {
        assert tmp[i].number > tmp[j].number;
        assert NewerThan(EntrySet(tmp[i].entries), EntrySet(tmp[j].entries));
      }
    }
    assert tmp[i] in files && n in LevelData(files);
    assert IsNewest(LevelData(files), user, snapshot, n);
  }

  lemma {:induction false} LevelsResolve(levels: Levels, level: nat, user: int, snapshot: Sequence, r: SaverState)
    requires TreeOk(levels) && level < NUM_LEVELS
    requires forall l | 0 <= l < level :: NoCandidate(LevelData(levels[l]), user, snapshot)
    requires !r.NotFound? && Resolves(LevelData(levels[level]), user, snapshot, r)
    ensures Resolves(TreeData(levels), user, snapshot, r)
  {
    var n :| IsNewest(LevelData(levels[level]), user, snapshot, n) && StateOf(n) == r;
    forall e | e in TreeData(levels) && Candidate(e, user, snapshot)
      ensures e.key.sn <= n.key.sn
    {
      var l :| 0 <= l < |levels| && e in LevelData(levels[l]);
      assert l >= level;
      if l > level { assert NewerThan(LevelData(levels[level]), LevelData(levels[l])); }
    }
    assert n in TreeData(levels);
    assert IsNewest(TreeData(levels), user, snapshot, n);
  }
}
