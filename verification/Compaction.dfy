/** Choosing the inputs of a compaction, merging them, and deciding what to drop. */
module Compaction {
  import opened Format
  import opened Tree
  import opened Iterators

  // ---- Boundary files ----

  ghost predicate IsLargest(files: seq<File>, key: Key) {
    (exists f :: f in files && f.largest == key) && forall f | f in files :: !Less(key, f.largest)
  }

  method FindLargestKey(files: seq<File>) returns (found: bool, key: Key)
    ensures found == (|files| > 0) && (found ==> IsLargest(files, key))
  {
    if |files| == 0 {
      return false, LookupKey(0, 0);
    }
    key := files[0].largest;
    for i := 1 to |files|
      invariant IsLargest(files[..i], key)
    {
      assert files[..i + 1] == files[..i] + [files[i]];
      if Less(key, files[i].largest) {
        key := files[i].largest;
      }
    }
    assert files[..|files|] == files;
    found := true;
  }

  /** The file starts after the key with the key's own user key. */
  predicate Continues(f: File, key: Key) { Less(key, f.smallest) && f.smallest.user == key.user }

  ghost predicate IsBoundary(levelFiles: seq<File>, key: Key, r: Option<File>) {
    if r.None? then forall f | f in levelFiles :: !Continues(f, key)
    else
      r.value in levelFiles && Continues(r.value, key) &&
      forall f | f in levelFiles && Continues(f, key) :: !Less(f.smallest, r.value.smallest)
  }

  method FindSmallestBoundaryFile(levelFiles: seq<File>, key: Key) returns (r: Option<File>)
    ensures IsBoundary(levelFiles, key, r)
  {
    r := None;
    for i := 0 to |levelFiles|
      invariant IsBoundary(levelFiles[..i], key, r)
    {
      var f := levelFiles[i];
      assert levelFiles[..i + 1] == levelFiles[..i] + [f];
      if Continues(f, key) {
        if r.None? || Less(f.smallest, r.value.smallest) {
          r := Some(f);
        }
      }
    }
    assert levelFiles[..|levelFiles|] == levelFiles;
  }

  /** Files that start above the key: what the search for boundary files uses up. */
  function Above(files: seq<File>, key: Key): nat {
    if |files| == 0 then 0 else (if Less(key, files[0].smallest) then 1 else 0) + Above(files[1..], key)
  }

  lemma {:induction false} AboveShrinks(files: seq<File>, key: Key, key': Key)
    requires !Less(key', key)
    ensures Above(files, key') <= Above(files, key)
    ensures (exists f :: f in files && Less(key, f.smallest) && !Less(key', f.smallest)) ==>
      Above(files, key') < Above(files, key)
  {
    if |files| > 0 { AboveShrinks(files[1..], key, key'); }
  }

  /** The inputs of a sorted level are the files i..j of it. */
  ghost predicate IsSlice(levelFiles: seq<File>, files: seq<File>, i: nat, j: nat) {
    i < j <= |levelFiles| && files == levelFiles[i..j]
  }

  /** The file is the first of those that continue the largest user key of the ones before. */
  ghost predicate ContinuesAll(levelFiles: seq<File>, before: seq<File>, f: File) {
    exists key :: IsLargest(before, key) && IsBoundary(levelFiles, key, Some(f))
  }

  /** The files, then one after another those that continue them, until none does. */
  ghost predicate Grew(levelFiles: seq<File>, files: seq<File>, r: seq<File>) {
    files <= r && (forall key | IsLargest(r, key) :: IsBoundary(levelFiles, key, None)) &&
    forall k | |files| <= k < |r| :: ContinuesAll(levelFiles, r[..k], r[k])
  }

  /** Adds the files that continue the inputs' largest user key. */
  method AddBoundaryInputs(levelFiles: seq<File>, compactionFiles: seq<File>, ghost lo: nat, ghost hi: nat)
    returns (r: seq<File>, ghost hi': nat)
    requires SpansOk(levelFiles)
    ensures |compactionFiles| == 0 ==> r == compactionFiles
    ensures Grew(levelFiles, compactionFiles, r)
    ensures compactionFiles <= r && forall f | f in r :: f in compactionFiles || f in levelFiles
    ensures forall key | IsLargest(r, key) :: IsBoundary(levelFiles, key, None)
    ensures LevelSorted(levelFiles) && IsSlice(levelFiles, compactionFiles, lo, hi) ==> IsSlice(levelFiles, r, lo, hi')
    ensures (forall key | IsLargest(compactionFiles, key) :: IsBoundary(levelFiles, key, None)) ==> r == compactionFiles
  {
    r := compactionFiles;
    hi' := hi;
    var found, largest := FindLargestKey(compactionFiles);
    if !found {
      return;
    }
    var continueSearching := true;
    while continueSearching
      invariant compactionFiles <= r && forall f | f in r :: f in compactionFiles || f in levelFiles
      invariant forall k | |compactionFiles| <= k < |r| :: ContinuesAll(levelFiles, r[..k], r[k])
      invariant IsLargest(r, largest)
      invariant !continueSearching ==> IsBoundary(levelFiles, largest, None)
      invariant LevelSorted(levelFiles) && IsSlice(levelFiles, compactionFiles, lo, hi) ==>
        IsSlice(levelFiles, r, lo, hi')
      invariant (forall key | IsLargest(compactionFiles, key) :: IsBoundary(levelFiles, key, None)) ==>
        r == compactionFiles
      decreases Above(levelFiles, largest), continueSearching
    {
      var b := FindSmallestBoundaryFile(levelFiles, largest);
      if b.Some? {
        var f := b.value;
        BoundaryStep(levelFiles, r, lo, hi', largest, f);
        hi' := if hi' < |levelFiles| then hi' + 1 else hi';
        ContinuedOnce(levelFiles, |compactionFiles|, r, f, largest);
        r := r + [f];
        largest := f.largest;
      } else {
        continueSearching := false;
      }
    }
  }

  lemma {:induction false} ContinuedOnce(levelFiles: seq<File>, n: nat, r: seq<File>, f: File, largest: Key)
    requires n <= |r| && IsLargest(r, largest) && IsBoundary(levelFiles, largest, Some(f))
    requires forall k | n <= k < |r| :: ContinuesAll(levelFiles, r[..k], r[k])
    ensures forall k | n <= k < |r + [f]| :: ContinuesAll(levelFiles, (r + [f])[..k], (r + [f])[k])
  {
    forall k | n <= k < |r + [f]| ensures ContinuesAll(levelFiles, (r + [f])[..k], (r + [f])[k]) {
      assert (r + [f])[..k] == r[..k];
      if k == |r| { assert r[..k] == r; }
    }
  }

  lemma {:induction false} BoundaryStep(levelFiles: seq<File>, r: seq<File>, lo: nat, hi: nat, largest: Key, f: File)
    requires SpansOk(levelFiles) && IsLargest(r, largest) && IsBoundary(levelFiles, largest, Some(f))
    ensures IsLargest(r + [f], f.largest) && Above(levelFiles, f.largest) < Above(levelFiles, largest)
    ensures LevelSorted(levelFiles) && IsSlice(levelFiles, r, lo, hi) ==>
      hi < |levelFiles| && IsSlice(levelFiles, r + [f], lo, hi + 1)
  {
    assert SpanOk(f);
    AboveShrinks(levelFiles, largest, f.largest);
    assert f in r + [f];
    if LevelSorted(levelFiles) && IsSlice(levelFiles, r, lo, hi) {
      NextBoundary(levelFiles, r, lo, hi, largest, f);
    }
  }

  lemma {:induction false} NextBoundary(levelFiles: seq<File>, r: seq<File>, lo: nat, hi: nat, largest: Key, f: File)
    requires SpansOk(levelFiles) && LevelSorted(levelFiles) && IsSlice(levelFiles, r, lo, hi)
    requires IsLargest(r, largest) && IsBoundary(levelFiles, largest, Some(f))
    ensures hi < |levelFiles| && f == levelFiles[hi] && IsSlice(levelFiles, r + [f], lo, hi + 1)
  {
    SliceLargest(levelFiles, r, lo, hi, largest);
    var k :| 0 <= k < |levelFiles| && levelFiles[k] == f;
    assert SpanOk(levelFiles[hi - 1]);
    assert k >= hi;
    FilesIncrease(levelFiles, hi - 1, hi);
    if k > hi { FilesIncrease(levelFiles, hi, k); }
  }

  lemma {:induction false} SliceLargest(levelFiles: seq<File>, r: seq<File>, lo: nat, hi: nat, largest: Key)
    requires SpansOk(levelFiles) && LevelSorted(levelFiles) && IsSlice(levelFiles, r, lo, hi) && IsLargest(r, largest)
    ensures largest == levelFiles[hi - 1].largest
  {
    var f :| f in r && f.largest == largest;
    var k :| 0 <= k < |r| && r[k] == f;
    assert r[|r| - 1] == levelFiles[hi - 1] && r[k] == levelFiles[lo + k];
    assert r[|r| - 1] in r;
    assert SpanOk(levelFiles[hi - 1]);
  }

  // ---- The inputs of a compaction ----

  ghost predicate IsHull(files: seq<File>, smallest: Key, largest: Key) {
    (forall f | f in files :: !Less(f.smallest, smallest) && !Less(largest, f.largest)) &&
    (exists f :: f in files && f.smallest == smallest) && (exists f :: f in files && f.largest == largest)
  }

  /** The least range that covers the inputs. */
  method GetRange(inputs: seq<File>) returns (smallest: Key, largest: Key)
    requires |inputs| > 0
    ensures IsHull(inputs, smallest, largest)
  {
    smallest, largest := inputs[0].smallest, inputs[0].largest;
    for i := 1 to |inputs|
      invariant IsHull(inputs[..i], smallest, largest)
    {
      assert inputs[..i + 1] == inputs[..i] + [inputs[i]];
      if Less(inputs[i].smallest, smallest) {
        smallest := inputs[i].smallest;
      }
      if Less(largest, inputs[i].largest) {
        largest := inputs[i].largest;
      }
    }
    assert inputs[..|inputs|] == inputs;
  }

  /** The inputs are the files that meet a range, and lie inside it. */
  ghost predicate ZeroRange(files: seq<File>, inputs: seq<File>, ub: Option<int>, ue: Option<int>) {
    inputs == Overlapping(files, ub, ue) && AllWithin(inputs, ub, ue)
  }

  /** Level-0 inputs: all files that meet a range, and lie inside it; no other file of the level shares a user key with
      them. */
  ghost predicate ZeroClosed(files: seq<File>, inputs: seq<File>) {
    exists ub, ue :: ZeroRange(files, inputs, ub, ue)
  }

  /** What a caller hands over: closed at level 0, a run of neighbouring files deeper down. */
  ghost predicate Picked(files: seq<File>, level: nat, inputs: seq<File>, i: nat, j: nat) {
    |inputs| > 0 && if level == 0 then ZeroClosed(files, inputs) else IsSlice(files, inputs, i, j)
  }

  lemma {:induction false} PickedMember(files: seq<File>, level: nat, inputs: seq<File>, i: nat, j: nat, f: File)
    requires Picked(files, level, inputs, i, j) && f in inputs
    ensures f in files
  {
    if level == 0 {
      var ub, ue :| ZeroRange(files, inputs, ub, ue);
      OverlappingMembers(files, ub, ue);
    }
  }

  /** The inputs once closed: nothing left in the level continues them, and the next level gives every file
      in their user-key range. */
  ghost predicate Chosen(levels: Levels, level: nat, in0: seq<File>, in1: seq<File>, i: nat, j: nat)
    requires level + 1 < |levels|
  {
    Picked(levels[level], level, in0, i, j) &&
    (forall key | IsLargest(in0, key) :: IsBoundary(levels[level], key, None)) &&
    exists smallest, largest :: IsHull(in0, smallest, largest) &&
      in1 == Overlapping(levels[level + 1], Some(smallest.user), Some(largest.user))
  }

  lemma {:induction false} HullLargest(files: seq<File>, smallest: Key, largest: Key)
    requires IsHull(files, smallest, largest)
    ensures IsLargest(files, largest)
    ensures forall key | IsLargest(files, key) :: key.user == largest.user && !Less(key, largest) && !Less(largest, key)
  {
  }

  /** A closed level-0 set has no boundary file. */
  lemma {:induction false} ZeroClosedBoundary(files: seq<File>, inputs: seq<File>, key: Key)
    requires SpansOk(files) && ZeroClosed(files, inputs) && IsLargest(inputs, key)
    ensures IsBoundary(files, key, None)
  {
    var ub, ue :| ZeroRange(files, inputs, ub, ue);
    OverlappingMembers(files, ub, ue);
    var g :| g in inputs && g.largest == key;
    assert g in files && SpanOk(g);
    forall f | f in files ensures !Continues(f, key) {
      assert SpanOk(f);
      if f.smallest.user == key.user {
        assert Overlaps(f, ub, ue);
      }
    }
  }

  lemma {:induction false} GetRangeOf(inputs: seq<File>) returns (smallest: Key, largest: Key)
    requires |inputs| > 0
    ensures IsHull(inputs, smallest, largest)
  {
    var n := |inputs| - 1;
    assert inputs == inputs[..n] + [inputs[n]];
    if n == 0 {
      smallest, largest := inputs[0].smallest, inputs[0].largest;
    } else {
      smallest, largest := GetRangeOf(inputs[..n]);
      if Less(inputs[n].smallest, smallest) { smallest := inputs[n].smallest; }
      if Less(largest, inputs[n].largest) { largest := inputs[n].largest; }
    }
  }

  /** The level-0 scan returns a closed set. */
  lemma {:induction false} ScanIsClosed(files: seq<File>, inputs: seq<File>, ub: Option<int>, ue: Option<int>)
    requires inputs == Overlapping(files, ub, ue) && AllWithin(inputs, ub, ue)
    ensures ZeroClosed(files, inputs)
  {
    assert ZeroRange(files, inputs, ub, ue);
  }

  /** In a sorted level the files that end before lo come first, and those that start after hi come last. */
  ghost predicate Cuts(files: seq<File>, lo: Option<int>, hi: Option<int>, i: nat, j: nat) {
    i <= |files| && j <= |files| && forall k | 0 <= k < |files| ::
      (AfterFile(lo, files[k]) <==> k < i) && (BeforeFile(hi, files[k]) <==> j <= k)
  }

  lemma {:induction false} CutsExist(files: seq<File>, lo: Option<int>, hi: Option<int>) returns (i: nat, j: nat)
    requires SpansOk(files) && LevelSorted(files)
    ensures Cuts(files, lo, hi, i, j)
  {
    LargestIncrease(files);
    i := 0;
    while i < |files| && AfterFile(lo, files[i])
      invariant i <= |files| && forall k | 0 <= k < i :: AfterFile(lo, files[k])
    {
      i := i + 1;
    }
    j := |files|;
    while j > 0 && BeforeFile(hi, files[j - 1])
      invariant j <= |files| && forall k | j <= k < |files| :: BeforeFile(hi, files[k])
    {
      j := j - 1;
    }
  }

  lemma {:induction false} OverlappingIsSlice(files: seq<File>, lo: Option<int>, hi: Option<int>, i: nat, j: nat,
                                              n: nat)
    requires Cuts(files, lo, hi, i, j) && n <= |files|
    ensures Overlapping(files[..n], lo, hi) == if i < n && i < j then files[i..if j < n then j else n] else []
  {
    if n > 0 {
      OverlappingStep(files, n - 1, lo, hi);
      OverlappingIsSlice(files, lo, hi, i, j, n - 1);
      if i < n - 1 < j { assert files[i..n] == files[i..n - 1] + [files[n - 1]]; }
    }
  }

  /** Exactly the files that meet the range of the inputs. */
  ghost predicate InRange(files: seq<File>, inputs: seq<File>, r: seq<File>) {
    forall smallest, largest | IsHull(inputs, smallest, largest) ::
      r == Overlapping(files, Some(smallest.user), Some(largest.user))
  }

  /** The picked files with those that continue them, and what of the next level meets their range. */
  ghost predicate Closing(levels: Levels, level: nat, picked: seq<File>, in0: seq<File>, in1: seq<File>)
    requires level + 1 < |levels|
  {
    Grew(levels[level], picked, in0) && InRange(levels[level + 1], in0, in1)
  }

  /** Adds boundary files and collects the files of the next level in the range of the result. */
  method CloseInputs(levels: Levels, level: nat, inputs: seq<File>, ghost i: nat, ghost j: nat)
    returns (in0: seq<File>, in1: seq<File>, smallest: Key, largest: Key, ghost j': nat)
    requires ShapeOk(levels) && level + 1 < NUM_LEVELS && Picked(levels[level], level, inputs, i, j)
    ensures Chosen(levels, level, in0, in1, i, j') && IsHull(in0, smallest, largest) &&
      forall f | f in inputs :: f in in0
    ensures Closing(levels, level, inputs, in0, in1)
  {
    FilesSpan(levels[level]);
    FilesSpan(levels[level + 1]);
    in0, j' := AddBoundaryInputs(levels[level], inputs, i, j);
    if level == 0 {
      forall key | IsLargest(inputs, key) ensures IsBoundary(levels[0], key, None) {
        ZeroClosedBoundary(levels[0], inputs, key);
      }
    }
    smallest, largest := GetRange(in0);
    ghost var ub, ue;
    in1, ub, ue := GetOverlappingInputs(level + 1, levels[level + 1], Some(smallest.user), Some(largest.user));
    HullRange(levels[level + 1], in0, in1, smallest, largest);
  }

  lemma {:induction false} HullRange(files: seq<File>, inputs: seq<File>, r: seq<File>, smallest: Key, largest: Key)
    requires IsHull(inputs, smallest, largest) && r == Overlapping(files, Some(smallest.user), Some(largest.user))
    ensures InRange(files, inputs, r)
  {
    forall s, l | IsHull(inputs, s, l) ensures r == Overlapping(files, Some(s.user), Some(l.user)) {
      HullUsers(inputs, smallest, largest, s, l);
    }
  }

  /** The files of a range: those that meet it; at level 0 the least set of files that holds these and all files that
      share user keys with it. */
  ghost predicate Scanned(files: seq<File>, level: nat, lo: Option<int>, hi: Option<int>, r: seq<File>) {
    if level > 0 then r == Overlapping(files, lo, hi)
    else exists ub, ue :: Forced(files, ub, ue, lo, hi) && ZeroRange(files, r, ub, ue)
  }

  lemma {:induction false} ScannedHolds(files: seq<File>, level: nat, lo: Option<int>, hi: Option<int>, r: seq<File>)
    requires SpansOk(files) && Scanned(files, level, lo, hi, r)
    ensures forall f | f in files && Overlaps(f, lo, hi) :: f in r
  {
    if level > 0 {
      OverlappingMembers(files, lo, hi);
    } else {
      var ub, ue :| Forced(files, ub, ue, lo, hi) && ZeroRange(files, r, ub, ue);
      OverlappingMembers(files, ub, ue);
      GrownOverlaps(files, lo, hi, ub, ue);
    }
  }

  /** The files of the level in a range that meets one of them. */
  method ExpandInputs(levels: Levels, level: nat, lo: int, hi: int, ghost f: File)
    returns (r: seq<File>, ghost i: nat, ghost j: nat)
    requires ShapeOk(levels) && level < NUM_LEVELS
    requires f in levels[level] && Overlaps(f, Some(lo), Some(hi))
    ensures Picked(levels[level], level, r, i, j)
    ensures forall g | g in levels[level] && Overlaps(g, Some(lo), Some(hi)) :: g in r
    ensures Scanned(levels[level], level, Some(lo), Some(hi), r)
  {
    FilesSpan(levels[level]);
    ghost var ub, ue;
    r, ub, ue := GetOverlappingInputs(level, levels[level], Some(lo), Some(hi));
    OverlappingMembers(levels[level], ub, ue);
    i, j := ExpandedPicked(levels[level], level, r, Some(lo), Some(hi), ub, ue, f);
  }

  lemma {:induction false} ExpandedPicked(files: seq<File>, level: nat, r: seq<File>, lo: Option<int>, hi: Option<int>,
                       ub: Option<int>, ue: Option<int>, f: File) returns (i: nat, j: nat)
    requires SpansOk(files) && (level > 0 ==> LevelSorted(files) && ub == lo && ue == hi)
    requires r == Overlapping(files, ub, ue) && (level == 0 ==> AllWithin(r, ub, ue)) && f in r
    ensures Picked(files, level, r, i, j)
  {
    i, j := 0, 0;
    if level == 0 {
      ScanIsClosed(files, r, ub, ue);
    } else {
      i, j := ExpandedSlice(files, r, lo, hi, f);
    }
  }

  lemma {:induction false} ExpandedSlice(files: seq<File>, r: seq<File>, lo: Option<int>, hi: Option<int>, f: File)
    returns (i: nat, j: nat)
    requires SpansOk(files) && LevelSorted(files) && r == Overlapping(files, lo, hi) && f in r
    ensures IsSlice(files, r, i, j)
  {
    i, j := CutsExist(files, lo, hi);
    OverlappingIsSlice(files, lo, hi, i, j, |files|);
    assert files[..|files|] == files;
  }

  /** Larger inputs: closed again, and with every file of the level that meets the range of the smaller ones. */
  ghost predicate Expansion(levels: Levels, level: nat, old0: seq<File>, old1: seq<File>, e0: seq<File>, e1: seq<File>,
                            i: nat, j: nat)
    requires level + 1 < |levels|
  {
    Chosen(levels, level, e0, e1, i, j) &&
    forall smallest, largest, f | IsHull(old0 + old1, smallest, largest) && f in levels[level] &&
      Overlaps(f, Some(smallest.user), Some(largest.user)) :: f in e0
  }

  /** The expansion takes more files of the level, none of the next one, and stays under the size limit. */
  predicate Worthwhile(old0: seq<File>, old1: seq<File>, e0: seq<File>, e1: seq<File>, expandedLimit: nat) {
    |e0| > |old0| && TotalFileSize(old1) + TotalFileSize(e0) < expandedLimit && |e1| == |old1|
  }

  lemma {:induction false} HullUsers(files: seq<File>, s: Key, l: Key, s': Key, l': Key)
    requires IsHull(files, s, l) && IsHull(files, s', l')
    ensures s.user == s'.user && l.user == l'.user
  {
  }

  lemma {:induction false} ExpansionFrom(levels: Levels, level: nat, old0: seq<File>, old1: seq<File>, e0: seq<File>,
                                         e1: seq<File>, i: nat, j: nat, smallest: Key, largest: Key)
    requires level + 1 < |levels| && Chosen(levels, level, e0, e1, i, j) && IsHull(old0 + old1, smallest, largest)
    requires forall f | f in levels[level] && Overlaps(f, Some(smallest.user), Some(largest.user)) :: f in e0
    ensures Expansion(levels, level, old0, old1, e0, e1, i, j)
  {
    forall s, l, f | IsHull(old0 + old1, s, l) && f in levels[level] && Overlaps(f, Some(s.user), Some(l.user))
      ensures f in e0
    {
      HullUsers(old0 + old1, smallest, largest, s, l);
    }
  }

  /** All files of the level that meet the range of both inputs. */
  ghost predicate Rescanned(levels: Levels, level: nat, old0: seq<File>, old1: seq<File>, scanned: seq<File>)
    requires level < |levels|
  {
    forall smallest, largest | IsHull(old0 + old1, smallest, largest) ::
      Scanned(levels[level], level, Some(smallest.user), Some(largest.user), scanned)
  }

  lemma {:induction false} RescannedFrom(levels: Levels, level: nat, old0: seq<File>, old1: seq<File>,
                                         scanned: seq<File>, smallest: Key, largest: Key)
    requires level < |levels| && IsHull(old0 + old1, smallest, largest)
    requires Scanned(levels[level], level, Some(smallest.user), Some(largest.user), scanned)
    ensures Rescanned(levels, level, old0, old1, scanned)
  {
    forall s, l | IsHull(old0 + old1, s, l) ensures Scanned(levels[level], level, Some(s.user), Some(l.user), scanned) {
      HullUsers(old0 + old1, smallest, largest, s, l);
    }
  }

  method ExpandBoth(levels: Levels, level: nat, old0: seq<File>, old1: seq<File>, ghost i0: nat, ghost j0: nat)
    returns (e0: seq<File>, e1: seq<File>, ghost i: nat, ghost j: nat, ghost scanned: seq<File>)
    requires ShapeOk(levels) && level + 1 < NUM_LEVELS && Chosen(levels, level, old0, old1, i0, j0)
    ensures Expansion(levels, level, old0, old1, e0, e1, i, j) && forall f | f in old0 :: f in e0
    ensures Rescanned(levels, level, old0, old1, scanned) && Closing(levels, level, scanned, e0, e1)
  {
    var allStart, allLimit := GetRange(old0 + old1);
    RangeMeets(levels, level, old0, old1, i0, j0, allStart, allLimit);
    var expanded, newStart, newLimit;
    expanded, i, j := ExpandInputs(levels, level, allStart.user, allLimit.user, old0[0]);
    e0, e1, newStart, newLimit, j := CloseInputs(levels, level, expanded, i, j);
    scanned := expanded;
    RescannedFrom(levels, level, old0, old1, scanned, allStart, allLimit);
    ExpansionFrom(levels, level, old0, old1, e0, e1, i, j, allStart, allLimit);
  }

  /** Grows the inputs to an expansion exactly if that is worthwhile. */
  method GrowInputs(levels: Levels, level: nat, old0: seq<File>, old1: seq<File>, expandedLimit: nat,
                    ghost i0: nat, ghost j0: nat)
    returns (in0: seq<File>, in1: seq<File>, ghost i: nat, ghost j: nat, ghost scanned: seq<File>,
             ghost e0: seq<File>, ghost e1: seq<File>)
    requires ShapeOk(levels) && level + 1 < NUM_LEVELS && Chosen(levels, level, old0, old1, i0, j0)
    ensures Chosen(levels, level, in0, in1, i, j) && forall f | f in old0 :: f in in0
    ensures exists x: nat, y: nat :: Expansion(levels, level, old0, old1, e0, e1, x, y)
    ensures Rescanned(levels, level, old0, old1, scanned) && Closing(levels, level, scanned, e0, e1)
    ensures if Worthwhile(old0, old1, e0, e1, expandedLimit) then in0 == e0 && in1 == e1 else in0 == old0 && in1 == old1
  {
    in0, in1, i, j, scanned := ExpandBoth(levels, level, old0, old1, i0, j0);
    e0, e1 := in0, in1;
    if !(|in0| > |old0| && TotalFileSize(old1) + TotalFileSize(in0) < expandedLimit && |in1| == |old1|) {
      in0, in1, i, j := old0, old1, i0, j0;
    }
  }

  /** The picked files closed, and, if the next level has files in their range, what they may grow to. */
  datatype Growth = Growth(c0: seq<File>, c1: seq<File>, scanned: seq<File>, e0: seq<File>, e1: seq<File>)

  ghost predicate GrowthOf(levels: Levels, level: nat, picked: seq<File>, g: Growth)
    requires level + 1 < |levels|
  {
    Closing(levels, level, picked, g.c0, g.c1) &&
    (|g.c1| > 0 ==>
      Rescanned(levels, level, g.c0, g.c1, g.scanned) && Closing(levels, level, g.scanned, g.e0, g.e1))
  }

  ghost predicate Grown(g: Growth, expandedLimit: nat, in0: seq<File>, in1: seq<File>) {
    if |g.c1| > 0 && Worthwhile(g.c0, g.c1, g.e0, g.e1, expandedLimit) then in0 == g.e0 && in1 == g.e1
    else in0 == g.c0 && in1 == g.c1
  }

  /** The inputs that a set of picked files leads to. */
  ghost predicate SetUp(levels: Levels, level: nat, picked: seq<File>, expandedLimit: nat, in0: seq<File>,
                        in1: seq<File>)
    requires level + 1 < |levels|
  {
    exists g :: GrowthOf(levels, level, picked, g) && Grown(g, expandedLimit, in0, in1)
  }

  /** Exactly the files two levels down that the range of the inputs meets. */
  ghost predicate GrandparentsOf(levels: Levels, level: nat, inputs: seq<File>, grandparents: seq<File>) {
    if level + 2 >= |levels| then grandparents == []
    else forall smallest, largest | IsHull(inputs, smallest, largest) ::
      grandparents == Overlapping(levels[level + 2], Some(smallest.user), Some(largest.user))
  }

  /** The files two levels down that the compaction's range meets. */
  method Grandparents(levels: Levels, level: nat, inputs: seq<File>) returns (grandparents: seq<File>)
    requires ShapeOk(levels) && |inputs| > 0
    ensures GrandparentsOf(levels, level, inputs, grandparents)
  {
    var allStart, allLimit := GetRange(inputs);
    grandparents := [];
    if level + 2 < NUM_LEVELS {
      FilesSpan(levels[level + 2]);
      ghost var ub, ue;
      grandparents, ub, ue :=
        GetOverlappingInputs(level + 2, levels[level + 2], Some(allStart.user), Some(allLimit.user));
      forall smallest, largest | IsHull(inputs, smallest, largest)
        ensures grandparents == Overlapping(levels[level + 2], Some(smallest.user), Some(largest.user))
      {
        HullUsers(inputs, allStart, allLimit, smallest, largest);
      }
    }
  }

  lemma {:induction false} GrandparentsInLevel(levels: Levels, level: nat, inputs: seq<File>, grandparents: seq<File>)
    requires ShapeOk(levels) && |inputs| > 0 && GrandparentsOf(levels, level, inputs, grandparents)
    ensures forall f | f in grandparents :: level + 2 < NUM_LEVELS && f in levels[level + 2]
  {
    if level + 2 < NUM_LEVELS {
      var smallest, largest := GetRangeOf(inputs);
      OverlappingMembers(levels[level + 2], Some(smallest.user), Some(largest.user));
    }
  }

  /** Grows the closed inputs if the next level has files in their range. */
  method MaybeGrow(levels: Levels, level: nat, c0: seq<File>, c1: seq<File>, expandedLimit: nat, ghost i0: nat,
                   ghost j0: nat, ghost picked: seq<File>)
    returns (in0: seq<File>, in1: seq<File>, ghost i: nat, ghost j: nat)
    requires ShapeOk(levels) && level + 1 < NUM_LEVELS && Chosen(levels, level, c0, c1, i0, j0)
    requires Closing(levels, level, picked, c0, c1)
    ensures Chosen(levels, level, in0, in1, i, j) && forall f | f in c0 :: f in in0
    ensures SetUp(levels, level, picked, expandedLimit, in0, in1)
  {
    in0, in1, i, j := c0, c1, i0, j0;
    ghost var scanned, e0, e1 := [], [], [];
    if |c1| > 0 {
      in0, in1, i, j, scanned, e0, e1 := GrowInputs(levels, level, c0, c1, expandedLimit, i, j);
    }
    SetUpBy(levels, level, picked, expandedLimit, in0, in1, Growth(c0, c1, scanned, e0, e1));
  }

  lemma {:induction false} SetUpBy(levels: Levels, level: nat, picked: seq<File>, expandedLimit: nat, in0: seq<File>,
                                   in1: seq<File>, g: Growth)
    requires level + 1 < |levels| && GrowthOf(levels, level, picked, g) && Grown(g, expandedLimit, in0, in1)
    ensures SetUp(levels, level, picked, expandedLimit, in0, in1)
  {
  }

  method SetupOtherInputs(levels: Levels, level: nat, inputs: seq<File>, expandedLimit: nat, ghost i0: nat,
                          ghost j0: nat)
    returns (in0: seq<File>, in1: seq<File>, grandparents: seq<File>, ghost i: nat, ghost j: nat)
    requires ShapeOk(levels) && level + 1 < NUM_LEVELS && Picked(levels[level], level, inputs, i0, j0)
    ensures Chosen(levels, level, in0, in1, i, j) && forall f | f in inputs :: f in in0
    ensures GrandparentsOf(levels, level, in0 + in1, grandparents)
    ensures SetUp(levels, level, inputs, expandedLimit, in0, in1)
  {
    i := i0;
    var smallest, largest;
    in0, in1, smallest, largest, j := CloseInputs(levels, level, inputs, i0, j0);
    in0, in1, i, j := MaybeGrow(levels, level, in0, in1, expandedLimit, i, j, inputs);
    grandparents := Grandparents(levels, level, in0 + in1);
  }

  lemma {:induction false} RangeMeets(levels: Levels, level: nat, in0: seq<File>, in1: seq<File>, i: nat, j: nat,
                                      smallest: Key, largest: Key)
    requires ShapeOk(levels) && level + 1 < NUM_LEVELS && Chosen(levels, level, in0, in1, i, j)
    requires IsHull(in0 + in1, smallest, largest)
    ensures forall f | f in in0 :: f in levels[level] && Overlaps(f, Some(smallest.user), Some(largest.user))
  {
    FilesSpan(levels[level]);
    forall f | f in in0
      ensures f in levels[level] && Overlaps(f, Some(smallest.user), Some(largest.user))
    {
      assert f in in0 + in1;
      PickedMember(levels[level], level, in0, i, j, f);
      assert SpanOk(f);
    }
  }

  // ---- What gets compacted ----

  const EXPANDED_LIMIT_FACTOR: nat := 25

  datatype Inputs = Inputs(level: nat, in0: seq<File>, in1: seq<File>, grandparents: seq<File>)

  /** The file ends behind the pointer. */
  predicate EndsBehind(f: File, pointer: Option<Key>) { pointer.None? || Less(pointer.value, f.largest) }

  /** The first file that ends behind the pointer; the first file of all if none does. */
  ghost predicate NextFile(files: seq<File>, pointer: Option<Key>, k: nat) {
    k < |files| && (forall i | 0 <= i < k :: !EndsBehind(files[i], pointer)) &&
    (EndsBehind(files[k], pointer) || (k == 0 && forall f | f in files :: !EndsBehind(f, pointer)))
  }

  method FileAfterPointer(files: seq<File>, pointer: Option<Key>) returns (k: nat)
    requires |files| > 0
    ensures NextFile(files, pointer, k)
  {
    for i := 0 to |files|
      invariant forall j | 0 <= j < i :: !EndsBehind(files[j], pointer)
    {
      if pointer.None? || Less(pointer.value, files[i].largest) {
        return i;
      }
    }
    k := 0;
  }

  /** What compacting one file of the level starts from: the file; at level 0 all that it overlaps, near or far. */
  ghost predicate FilePicked(levels: Levels, level: nat, k: nat, picked: seq<File>)
    requires level < |levels| && k < |levels[level]|
  {
    var f := levels[level][k];
    if level > 0 then picked == [f] else Scanned(levels[0], 0, Some(f.smallest.user), Some(f.largest.user), picked)
  }

  /** Compacts one file of the level, with the level-0 files it overlaps. */
  method PickCompaction(levels: Levels, level: nat, k: nat, targetFileSize: nat)
    returns (c: Inputs, ghost i: nat, ghost j: nat, ghost picked: seq<File>)
    requires ShapeOk(levels) && level + 1 < NUM_LEVELS && k < |levels[level]|
    ensures FilePicked(levels, level, k, picked) && levels[level][k] in picked
    ensures SetUp(levels, level, picked, 25 * targetFileSize, c.in0, c.in1)
    ensures c.level == level && Chosen(levels, level, c.in0, c.in1, i, j) && levels[level][k] in c.in0
    ensures GrandparentsOf(levels, level, c.in0 + c.in1, c.grandparents)
  {
    FilesSpan(levels[level]);
    var f := levels[level][k];
    assert SpanOk(f);
    var inputs := [f];
    i, j := k, k + 1;
    if level == 0 {
      var smallest, largest := GetRange(inputs);
      inputs, i, j := ExpandInputs(levels, 0, smallest.user, largest.user, f);
    }
    assert f in inputs;
    picked := inputs;
    var in0, in1, grandparents;
    in0, in1, grandparents, i, j :=
      SetupOtherInputs(levels, level, inputs, EXPANDED_LIMIT_FACTOR * targetFileSize, i, j);
    c := Inputs(level, in0, in1, grandparents);
  }

  /** The first files that together reach the limit, or all of them if they do not. */
  ghost predicate UpTo(files: seq<File>, limit: nat, r: seq<File>) {
    r <= files && |r| > 0 && (|r| > 1 ==> TotalFileSize(r[..|r| - 1]) < limit) &&
      (r != files ==> TotalFileSize(r) >= limit)
  }

  /** What compacting a range starts from: its files, above level 0 not too many at a time. */
  ghost predicate RangePicked(files: seq<File>, level: nat, begin: Option<int>, end: Option<int>, limit: nat,
                              picked: seq<File>) {
    if level > 0 then UpTo(Overlapping(files, begin, end), limit, picked)
    else |picked| > 0 && Scanned(files, 0, begin, end, picked)
  }

  /** The inputs hold what was picked. */
  lemma {:induction false} SetUpHolds(levels: Levels, level: nat, picked: seq<File>, limit: nat, in0: seq<File>,
                                      in1: seq<File>)
    requires ShapeOk(levels) && level + 1 < NUM_LEVELS && SetUp(levels, level, picked, limit, in0, in1)
    requires |picked| > 0 && forall f | f in picked :: f in levels[level]
    ensures forall f | f in picked :: f in in0
  {
    var g :| GrowthOf(levels, level, picked, g) && Grown(g, limit, in0, in1);
    ClosingHolds(levels, level, picked, g.c0, g.c1);
    if |g.c1| > 0 {
      FilesSpan(levels[level]);
      var s, l := GetRangeOf(g.c0 + g.c1);
      ScannedHolds(levels[level], level, Some(s.user), Some(l.user), g.scanned);
      forall f | f in picked ensures f in g.scanned {
        assert f in g.c0 + g.c1 && SpanOk(f);
      }
      ClosingHolds(levels, level, g.scanned, g.e0, g.e1);
    }
  }

  lemma {:induction false} ClosingHolds(levels: Levels, level: nat, picked: seq<File>, in0: seq<File>, in1: seq<File>)
    requires level + 1 < |levels| && Closing(levels, level, picked, in0, in1)
    ensures forall f | f in picked :: f in in0
  {
  }

  /** Shortens the inputs to the first files that reach the limit. */
  method TakeUpTo(inputs: seq<File>, limit: nat) returns (r: seq<File>)
    requires |inputs| > 0
    ensures 0 < |r| && r <= inputs && UpTo(inputs, limit, r)
  {
    var total := 0;
    for i := 0 to |inputs|
      invariant total == TotalFileSize(inputs[..i]) && (i > 0 ==> total < limit)
    {
      assert inputs[..i + 1] == inputs[..i] + [inputs[i]] && inputs[..i + 1][..i] == inputs[..i];
      TotalSnoc(inputs[..i], inputs[i]);
      total := total + inputs[i].size;
      if total >= limit {
        return inputs[..i + 1];
      }
    }
    assert inputs[..|inputs|] == inputs;
    r := inputs;
    assert r == r[..|r| - 1] + [r[|r| - 1]];
    TotalSnoc(r[..|r| - 1], r[|r| - 1]);
  }

  /** The files of a range; above level 0 not too many at a time. */
  method RangeInputs(files: seq<File>, level: nat, begin: Option<int>, end: Option<int>, targetFileSize: nat)
    returns (inputs: seq<File>, ghost i: nat, ghost j: nat)
    requires SpansOk(files) && (level > 0 ==> LevelSorted(files))
    ensures inputs == [] <==> forall f | f in files :: !Overlaps(f, begin, end)
    ensures inputs != [] ==> Picked(files, level, inputs, i, j)
    ensures inputs != [] ==> RangePicked(files, level, begin, end, targetFileSize, inputs)
  {
    i, j := 0, 0;
    ghost var ub, ue;
    inputs, ub, ue := GetOverlappingInputs(level, files, begin, end);
    NothingInRange(files, begin, end, ub, ue);
    if |inputs| > 0 {
      i, j := ScannedPicked(files, level, inputs, begin, end, ub, ue);
      if level > 0 {
        var few := TakeUpTo(inputs, targetFileSize);
        PrefixSlice(files, inputs, i, j, few);
        inputs, j := few, i + |few|;
      }
    }
  }

  lemma {:induction false} NothingInRange(files: seq<File>, lo: Option<int>, hi: Option<int>, ub: Option<int>,
                                          ue: Option<int>)
    requires SpansOk(files) && Forced(files, ub, ue, lo, hi)
    ensures Overlapping(files, ub, ue) == [] <==> forall f | f in files :: !Overlaps(f, lo, hi)
  {
    OverlappingMembers(files, ub, ue);
    GrownOverlaps(files, lo, hi, ub, ue);
    if Overlapping(files, ub, ue) != [] { assert Overlapping(files, ub, ue)[0] in Overlapping(files, ub, ue); }
  }

  lemma {:induction false} ScannedPicked(files: seq<File>, level: nat, r: seq<File>, lo: Option<int>, hi: Option<int>,
                                         ub: Option<int>, ue: Option<int>) returns (i: nat, j: nat)
    requires SpansOk(files) && (level > 0 ==> LevelSorted(files) && ub == lo && ue == hi)
    requires r == Overlapping(files, ub, ue) && (level == 0 ==> AllWithin(r, ub, ue)) && |r| > 0
    ensures Picked(files, level, r, i, j)
  {
    assert r[0] in r;
    i, j := ExpandedPicked(files, level, r, lo, hi, ub, ue, r[0]);
  }

  lemma {:induction false} PrefixSlice(files: seq<File>, r: seq<File>, i: nat, j: nat, few: seq<File>)
    requires IsSlice(files, r, i, j) && 0 < |few| && few <= r
    ensures IsSlice(files, few, i, i + |few|)
  {
    assert few == r[..|few|] == files[i..i + |few|];
  }

  /** A manual compaction of the files in a range. */
  method CompactRange(levels: Levels, level: nat, begin: Option<int>, end: Option<int>, targetFileSize: nat)
    returns (c: Option<Inputs>, ghost i: nat, ghost j: nat, ghost picked: seq<File>)
    requires ShapeOk(levels) && level + 1 < NUM_LEVELS
    ensures c.Some? ==> RangePicked(levels[level], level, begin, end, targetFileSize, picked)
    ensures c.Some? ==> SetUp(levels, level, picked, 25 * targetFileSize, c.value.in0, c.value.in1)
    ensures c.None? <==> forall f | f in levels[level] :: !Overlaps(f, begin, end)
    ensures c.Some? ==> c.value.level == level && Chosen(levels, level, c.value.in0, c.value.in1, i, j)
    ensures c.Some? ==> GrandparentsOf(levels, level, c.value.in0 + c.value.in1, c.value.grandparents)
  {
    FilesSpan(levels[level]);
    var inputs;
    inputs, i, j := RangeInputs(levels[level], level, begin, end, targetFileSize);
    picked := inputs;
    if |inputs| == 0 {
      return None, 0, 0, [];
    }
    var in0, in1, grandparents;
    in0, in1, grandparents, i, j :=
      SetupOtherInputs(levels, level, inputs, EXPANDED_LIMIT_FACTOR * targetFileSize, i, j);
    c := Some(Inputs(level, in0, in1, grandparents));
  }

  /** Growing the range finds files only if the range asked for did. */
  lemma {:induction false} GrownOverlaps(files: seq<File>, lo: Option<int>, hi: Option<int>, ub: Option<int>,
                                         ue: Option<int>)
    requires SpansOk(files) && Forced(files, ub, ue, lo, hi)
    ensures (exists f :: f in files && Overlaps(f, ub, ue)) <==> exists f :: f in files && Overlaps(f, lo, hi)
  {
    if f :| f in files && Overlaps(f, ub, ue) {
      if forall g | g in files :: !Overlaps(g, lo, hi) {
        assert OverlapClosed(files, lo, hi, {});
        ForcedMember(files, ub, ue, lo, hi, f, {});
      }
    }
    if f :| f in files && Overlaps(f, lo, hi) {
      assert Overlaps(f, ub, ue);
    }
  }
}
