/** The user's view of the merged entries: one value for each user key visible at a sequence number. */
module DbIter {
  import opened Format
  import opened Iterators

  ghost predicate Visible(es: seq<Entry>, s: nat, i: int) {
    0 <= i < |es| && es[i].key.sn <= s
  }

  /** Entry i is what a reader at s sees for its user key: a value, with no newer visible entry of that key. */
  ghost predicate Shown(es: seq<Entry>, s: nat, i: int) {
    Visible(es, s, i) && es[i].key.kind.Value? &&
    forall j | 0 <= j < i && es[j].key.user == es[i].key.user :: !Visible(es, s, j)
  }

  /** r is the first shown index in [from, |es|) whose user key is above the bound, or -1 if there is none. */
  ghost predicate FirstShown(es: seq<Entry>, s: nat, from: int, above: Option<int>, r: int) {
    if r == -1 then forall i | from <= i < |es| && Beyond(above, es, i) :: !Shown(es, s, i)
    else
      from <= r && Shown(es, s, r) && Beyond(above, es, r) &&
      forall i | from <= i < r && Beyond(above, es, i) :: !Shown(es, s, i)
  }

  ghost predicate Beyond(above: Option<int>, es: seq<Entry>, i: int) {
    0 <= i < |es| && (above.Some? ==> es[i].key.user > above.value)
  }

  /** r is the last shown index in [0, upTo], or -1 if there is none. */
  ghost predicate LastShown(es: seq<Entry>, s: nat, upTo: int, r: int) {
    (r == -1 || (r <= upTo && Shown(es, s, r))) &&
    forall i | r < i <= upTo :: !Shown(es, s, i)
  }

  // ---- The forward scan ----

  /** What the forward scan knows at position p, having started at p0. */
  ghost predicate Scanning(es: seq<Entry>, s: nat, p0: int, above: Option<int>, p: int, skipping: bool, skip: int) {
    p0 <= p &&
    (above.Some? ==> skipping && skip >= above.value) &&
    (skipping ==> forall j | p <= j && Visible(es, s, j) :: es[j].key.user >= skip) &&
    (forall i | p0 <= i < p && Beyond(above, es, i) :: !Shown(es, s, i)) &&
    (forall j | 0 <= j < p && Visible(es, s, j) :: p0 <= j ==> skipping && es[j].key.user <= skip) &&
    (skipping && (above.Some? ==> skip > above.value) ==>
      exists j :: p0 <= j < p && Visible(es, s, j) && es[j].key.user == skip)
  }

  /** Where a forward scan may start: keys at or below the bound are behind it or about to be skipped. */
  ghost predicate ScanStart(es: seq<Entry>, s: nat, p0: int, above: Option<int>) {
    0 <= p0 &&
    (above.Some? ==> forall j | p0 <= j && Visible(es, s, j) :: es[j].key.user >= above.value) &&
    forall j, i | 0 <= j < p0 <= i < |es| && Visible(es, s, j) && es[i].key.user == es[j].key.user ::
      above.Some? && es[i].key.user <= above.value
  }

  predicate Hides(e: Entry, s: nat, skipping: bool, skip: int) {
    e.key.sn > s || e.key.kind.Deletion? || (skipping && e.key.user <= skip)
  }

  lemma {:induction false} ScanStep(es: seq<Entry>, s: nat, p0: int, above: Option<int>, p: int, skipping: bool,
                                    skip: int)
    requires Sorted(es) && ScanStart(es, s, p0, above) && Scanning(es, s, p0, above, p, skipping, skip) && p < |es|
    requires Hides(es[p], s, skipping, skip)
    ensures es[p].key.sn <= s && es[p].key.kind.Deletion? ==> Scanning(es, s, p0, above, p + 1, true, es[p].key.user)
    ensures !(es[p].key.sn <= s && es[p].key.kind.Deletion?) ==> Scanning(es, s, p0, above, p + 1, skipping, skip)
  {
    assert es[p].key.sn <= s ==> Visible(es, s, p);
  }

  lemma {:induction false} ScanYields(es: seq<Entry>, s: nat, p0: int, above: Option<int>, p: int, skipping: bool,
                                      skip: int)
    requires Sorted(es) && ScanStart(es, s, p0, above) && Scanning(es, s, p0, above, p, skipping, skip) && p < |es|
    requires !Hides(es[p], s, skipping, skip)
    ensures FirstShown(es, s, p0, above, p)
  {
    assert Visible(es, s, p);
  }

  // ---- The backward scan ----

  /** What the backward scan knows when position p is next, having started at p0; q is the saved entry. */
  ghost predicate Backing(es: seq<Entry>, s: nat, p0: int, p: int, saved: bool, q: int) {
    -1 <= p <= p0 < |es| &&
    (saved ==> p < q <= p0 && Visible(es, s, q) && es[q].key.kind.Value?) &&
    (saved ==> forall j | p < j < q :: !Visible(es, s, j)) &&
    forall i | p < i <= p0 && Shown(es, s, i) :: saved && i == q
  }

  lemma {:induction false} BackStep(es: seq<Entry>, s: nat, p0: int, p: int, saved: bool, q: int)
    requires Sorted(es) && Backing(es, s, p0, p, saved, q) && p >= 0
    requires Visible(es, s, p) && saved ==> es[p].key.user >= es[q].key.user
    ensures if Visible(es, s, p) then Backing(es, s, p0, p - 1, es[p].key.kind.Value?, p)
            else Backing(es, s, p0, p - 1, saved, q)
  {
    if Visible(es, s, p) {
      forall i | p - 1 < i <= p0 && Shown(es, s, i)
        ensures es[p].key.kind.Value? && i == p
      {
      }
    }
  }

  lemma {:induction false} BackYields(es: seq<Entry>, s: nat, p0: int, p: int, saved: bool, q: int)
    requires Sorted(es) && Backing(es, s, p0, p, saved, q)
    requires p == -1 || (saved && Visible(es, s, p) && es[p].key.user < es[q].key.user)
    ensures LastShown(es, s, p0, if saved then q else -1)
  {
    if saved {
      assert forall j | 0 <= j <= p :: es[j].key.user <= es[p].key.user;
    }
  }

  // ---- The list of visible user keys ----

  ghost function ViewUpTo(es: seq<Entry>, s: nat, n: nat): seq<(int, string)>
    requires n <= |es|
  {
    if n == 0 then [] else
      ViewUpTo(es, s, n - 1) + if Shown(es, s, n - 1) then [(es[n - 1].key.user, es[n - 1].value)] else []
  }

  /** The user keys visible at s with their values. */
  ghost function View(es: seq<Entry>, s: nat): seq<(int, string)> { ViewUpTo(es, s, |es|) }

  lemma {:induction false} ViewGap(es: seq<Entry>, s: nat, a: nat, b: nat)
    requires a <= b <= |es| && forall i | a <= i < b :: !Shown(es, s, i)
    ensures ViewUpTo(es, s, b) == ViewUpTo(es, s, a)
  {
    if a < b { ViewGap(es, s, a, b - 1); }
  }

  lemma {:induction false} ViewPrefix(es: seq<Entry>, s: nat, a: nat, b: nat)
    requires a <= b <= |es|
    ensures ViewUpTo(es, s, a) <= ViewUpTo(es, s, b)
  {
    if a < b { ViewPrefix(es, s, a, b - 1); }
  }

  /** A shown entry is the list element at its place. */
  lemma {:induction false} ViewAt(es: seq<Entry>, s: nat, i: nat)
    requires Shown(es, s, i)
    ensures |ViewUpTo(es, s, i)| < |View(es, s)|
    ensures View(es, s)[|ViewUpTo(es, s, i)|] == (es[i].key.user, es[i].value)
  {
    ViewPrefix(es, s, i + 1, |es|);
  }

  /** The list is in strictly increasing key order. */
  lemma {:induction false} ViewSorted(es: seq<Entry>, s: nat, n: nat)
    requires Sorted(es) && n <= |es|
    ensures forall x | x in ViewUpTo(es, s, n) :: exists i :: 0 <= i < n && Shown(es, s, i) && es[i].key.user == x.0
    ensures forall i, j | 0 <= i < j < |ViewUpTo(es, s, n)| :: ViewUpTo(es, s, n)[i].0 < ViewUpTo(es, s, n)[j].0
  {
    if n > 0 {
      ViewSorted(es, s, n - 1);
      var v := ViewUpTo(es, s, n - 1);
      if Shown(es, s, n - 1) {
        forall k | 0 <= k < |v| ensures v[k].0 < es[n - 1].key.user {
          assert v[k] in v;
          var i :| 0 <= i < n - 1 && Shown(es, s, i) && es[i].key.user == v[k].0;
          assert Visible(es, s, i);
        }
      }
    }
  }

  /** The list holds exactly what point reads of the same data return. */
  lemma {:induction false} ViewIsRead(es: seq<Entry>, s: nat, user: int, value: string)
    requires Sorted(es) && Distinct(EntrySet(es))
    ensures (user, value) in View(es, s) <==> Read(EntrySet(es), user, s) == Some(value)
  {
    if (user, value) in View(es, s) {
      ViewMember(es, s, |es|, (user, value));
      var i :| 0 <= i < |es| && Shown(es, s, i) && (es[i].key.user, es[i].value) == (user, value);
      ShownIsNewest(es, s, i);
      ReadNewest(EntrySet(es), user, s, es[i]);
    }
    if Read(EntrySet(es), user, s) == Some(value) {
      var e :| IsNewest(EntrySet(es), user, s, e) && Answer(e) == Some(value);
      var i :| 0 <= i < |es| && es[i] == e;
      assert Shown(es, s, i) by {
        forall j | 0 <= j < i && es[j].key.user == user ensures !Visible(es, s, j) {
          assert Less(es[j].key, es[i].key);
          assert es[j] in EntrySet(es);
          if Visible(es, s, j) { assert Candidate(es[j], user, s); }
        }
      }
      ViewAt(es, s, i);
    }
  }

  lemma {:induction false} ShownIsNewest(es: seq<Entry>, s: nat, i: nat)
    requires Sorted(es) && Shown(es, s, i)
    ensures IsNewest(EntrySet(es), es[i].key.user, s, es[i])
  {
    forall o | o in EntrySet(es) && Candidate(o, es[i].key.user, s)
      ensures o.key.sn <= es[i].key.sn
    {
      var j :| 0 <= j < |es| && es[j] == o;
      assert Visible(es, s, j);
    }
  }

  lemma {:induction false} ViewMember(es: seq<Entry>, s: nat, n: nat, x: (int, string))
    requires n <= |es| && x in ViewUpTo(es, s, n)
    ensures exists i :: 0 <= i < n && Shown(es, s, i) && (es[i].key.user, es[i].value) == x
  {
    if x in ViewUpTo(es, s, n - 1) {
      ViewMember(es, s, n - 1, x);
    }
  }

  /** Number of list elements before entry i, or all of them when i is -1. */
  ghost function PlaceOf(es: seq<Entry>, s: nat, i: int): nat
    requires i < |es|
  {
    if i < 0 then |View(es, s)| else |ViewUpTo(es, s, i)|
  }

  /** The first shown entry after a shown entry is one place further. */
  lemma {:induction false} NextPlace(es: seq<Entry>, s: nat, c: nat, r: int)
    requires Shown(es, s, c) && -1 <= r < |es| && (r == -1 || (c < r && Shown(es, s, r)))
    requires forall i | c < i < (if r == -1 then |es| else r) :: !Shown(es, s, i)
    ensures PlaceOf(es, s, r) == PlaceOf(es, s, c) + 1
    ensures r >= 0 <==> PlaceOf(es, s, r) < |View(es, s)|
  {
    ViewGap(es, s, c + 1, if r == -1 then |es| else r);
    if r >= 0 { ViewAt(es, s, r); }
  }

  /** A forward scan started behind or just after entry c, told to skip its key, finds the next shown entry. */
  lemma {:induction false} ScanPast(es: seq<Entry>, s: nat, c: nat, p0: nat)
    requires Sorted(es) && Shown(es, s, c) && p0 <= c + 1
    requires forall j | p0 <= j < c :: !Visible(es, s, j)
    ensures ScanStart(es, s, p0, Some(es[c].key.user))
    ensures forall r | -1 <= r < |es| && FirstShown(es, s, p0, Some(es[c].key.user), r) ::
      PlaceOf(es, s, r) == PlaceOf(es, s, c) + 1 && (r >= 0 <==> PlaceOf(es, s, r) < |View(es, s)|)
  {
    forall j, i | 0 <= j < p0 <= i < |es| && Visible(es, s, j) && es[i].key.user == es[j].key.user
      ensures es[i].key.user <= es[c].key.user
    {
      if i > c { assert j <= c < i; }
    }
    forall r | -1 <= r < |es| && FirstShown(es, s, p0, Some(es[c].key.user), r)
      ensures PlaceOf(es, s, r) == PlaceOf(es, s, c) + 1 && (r >= 0 <==> PlaceOf(es, s, r) < |View(es, s)|)
    {
      forall i | c < i < (if r == -1 then |es| else r) ensures !Shown(es, s, i) {
        if !Beyond(Some(es[c].key.user), es, i) { assert es[i].key.user == es[c].key.user; }
      }
      NextPlace(es, s, c, r);
    }
  }

  /** The last shown entry before a shown entry is one place back; there is none at place 0. */
  lemma {:induction false} PrevPlace(es: seq<Entry>, s: nat, c: nat, r: int)
    requires c < |es| && LastShown(es, s, c - 1, r) && -1 <= r
    ensures if r == -1 then |ViewUpTo(es, s, c)| == 0 else PlaceOf(es, s, r) == |ViewUpTo(es, s, c)| - 1
  {
    ViewGap(es, s, r + 1, c);
  }

  /** r is the least shown entry whose user key is at or above the target. */
  ghost predicate LeastFrom(es: seq<Entry>, s: nat, target: int, r: int) {
    -1 <= r < |es| && (r >= 0 ==> Shown(es, s, r) && es[r].key.user >= target) &&
    forall i | 0 <= i < (if r == -1 then |es| else r) && Shown(es, s, i) :: es[i].key.user < target
  }

  lemma {:induction false} LastPlace(es: seq<Entry>, s: nat, r: int)
    requires -1 <= r && LastShown(es, s, |es| - 1, r)
    ensures if r == -1 then |View(es, s)| == 0 else PlaceOf(es, s, r) == |View(es, s)| - 1
  {
    ViewGap(es, s, r + 1, |es|);
  }

  /** The place of the least listed key at or above the target. */
  ghost predicate SeekedTo(view: seq<(int, string)>, target: int, place: nat) {
    place <= |view| && forall k | 0 <= k < |view| :: view[k].0 < target <==> k < place
  }

  /** Below the place of a seek every listed key is below the target; from it on, none is. */
  lemma {:induction false} SeekPlace(es: seq<Entry>, s: nat, target: int, r: int)
    requires Sorted(es) && LeastFrom(es, s, target, r)
    ensures SeekedTo(View(es, s), target, PlaceOf(es, s, r))
    ensures r >= 0 <==> PlaceOf(es, s, r) < |View(es, s)|
  {
    if r >= 0 { ViewAt(es, s, r); }
    var n := if r == -1 then |es| else r;
    ViewPrefix(es, s, n, |es|);
    ViewSorted(es, s, |es|);
    ViewSorted(es, s, n);
    var v := View(es, s);
    forall k | 0 <= k < |v|
      ensures v[k].0 < target <==> k < PlaceOf(es, s, r)
    {
      if k < |ViewUpTo(es, s, n)| {
        assert ViewUpTo(es, s, n)[k] == v[k];
        ViewMember(es, s, n, v[k]);
      } else {
        ViewAt(es, s, r);
      }
    }
  }

  /** A seek to (target, s) leaves behind it nothing visible with that key. */
  lemma {:induction false} SeekStart(es: seq<Entry>, s: Sequence, target: int)
    requires Sorted(es)
    ensures ScanStart(es, s, LowerBound(es, LookupKey(target, s)), None)
    ensures LowerBound(es, LookupKey(target, s)) == |es| ==> LeastFrom(es, s, target, -1)
  {
    var p := LowerBound(es, LookupKey(target, s));
    forall i | p <= i < |es| ensures es[i].key.user >= target {
      LowerBoundSplits(es, LookupKey(target, s), i);
    }
  }

  lemma {:induction false} SeekFinds(es: seq<Entry>, s: Sequence, target: int, r: int)
    requires Sorted(es) && -1 <= r < |es| && FirstShown(es, s, LowerBound(es, LookupKey(target, s)), None, r)
    ensures LeastFrom(es, s, target, r)
  {
    var p := LowerBound(es, LookupKey(target, s));
    if r >= 0 { LowerBoundSplits(es, LookupKey(target, s), r); }
    forall i | 0 <= i < (if r == -1 then |es| else r) && Shown(es, s, i)
      ensures es[i].key.user < target
    {
      assert Beyond(None, es, i);
    }
  }

  lemma {:induction false} NotAbove(es: seq<Entry>, i: nat, c: nat)
    requires Sorted(es) && i < c < |es|
    ensures es[i].key.user <= es[c].key.user
  {
    assert Less(es[i].key, es[c].key);
  }

  class DBIter {
    const iter: MergingIterator
    const sequence: Sequence
    var savedKey: int
    var savedValue: string
    var direction: Direction
    var valid: bool
    /** Index in the merged entries of the shown entry; -1 when not valid. */
    ghost var cur: int

    ghost predicate Ok()
      reads this, iter, iter.children
    {
      iter.Ok() && -1 <= cur < |iter.merged| && (valid <==> cur != -1) &&
      (valid ==>
        Shown(iter.merged, sequence, cur) &&
        if direction.Forward? then iter.index == cur
        else
          iter.index < cur && savedKey == iter.merged[cur].key.user && savedValue == iter.merged[cur].value &&
          forall j | iter.index < j < cur :: !Visible(iter.merged, sequence, j))
    }

    constructor (iter: MergingIterator, sequence: Sequence)
      requires iter.Ok()
      ensures Ok() && !valid && this.iter == iter && this.sequence == sequence
    {
      this.iter := iter;
      this.sequence := sequence;
      savedKey, savedValue := 0, "";
      direction := Forward;
      valid := false;
      cur := -1;
    }

    function UserKey(): int
      requires Ok() && valid
      reads this, iter, iter.children
      ensures UserKey() == iter.merged[cur].key.user
    {
      if direction.Forward? then iter.Entry().key.user else savedKey
    }

    function CurrentValue(): string
      requires Ok() && valid
      reads this, iter, iter.children
      ensures CurrentValue() == iter.merged[cur].value
    {
      if direction.Forward? then iter.Entry().value else savedValue
    }

    /** The scanning loop: leaves the iterator at the first entry to yield, if there is one. */
    method ScanForward(skipping0: bool, skip0: int) returns (found: bool)
      requires iter.Ok() && iter.Valid()
      requires ScanStart(iter.merged, sequence, iter.index, if skipping0 then Some(skip0) else None)
      modifies iter, iter.children
      ensures iter.Ok() && (found ==> iter.Valid())
      ensures FirstShown(iter.merged, sequence, old(iter.index), if skipping0 then Some(skip0) else None,
        if found then iter.index else -1)
    {
      ghost var p0 := iter.index;
      ghost var above := if skipping0 then Some(skip0) else None;
      var skipping, skip := skipping0, skip0;
      found := false;
      while true
        invariant iter.Ok() && iter.Valid()
        invariant Scanning(iter.merged, sequence, p0, above, iter.index, skipping, skip)
        decreases |iter.merged| - iter.index
      {
        var e := iter.Entry();
        ghost var p := iter.index;
        if !Hides(e, sequence, skipping, skip) {
          ScanYields(iter.merged, sequence, p0, above, p, skipping, skip);
          return true;
        }
        ScanStep(iter.merged, sequence, p0, above, p, skipping, skip);
        if e.key.sn <= sequence && e.key.kind.Deletion? {
          skip := e.key.user;
          skipping := true;
        }
        iter.Next();
        if !iter.Valid() {
          break;
        }
      }
    }

    method FindNextUserEntry(skipping: bool, skip: int)
      requires iter.Ok() && iter.Valid() && direction.Forward?
      requires ScanStart(iter.merged, sequence, iter.index, if skipping then Some(skip) else None)
      modifies this, iter, iter.children
      ensures Ok() && direction.Forward?
      ensures FirstShown(iter.merged, sequence, old(iter.index), if skipping then Some(skip) else None, cur)
    {
      valid := ScanForward(skipping, skip);
      savedKey := 0;
      cur := if valid then iter.index else -1;
    }

    /** Where the iterator is in the list of visible user keys. */
    ghost function Place(): nat
      requires Ok()
      reads this, iter, iter.children
    {
      PlaceOf(iter.merged, sequence, cur)
    }

    /** What the iterator shows is the element of the list at its place. */
    lemma {:induction false} ShowsListed()
      requires Ok() && valid
      ensures Place() < |View(iter.merged, sequence)|
      ensures (UserKey(), CurrentValue()) == View(iter.merged, sequence)[Place()]
    {
      ViewAt(iter.merged, sequence, cur);
    }

    /** Seeks the internal iterator to (target, sequence). */
    method PositionAt(target: int)
      requires iter.Ok()
      modifies iter, iter.children
      ensures iter.Ok()
      ensures if iter.Valid() then ScanStart(iter.merged, sequence, iter.index, None)
        else LeastFrom(iter.merged, sequence, target, -1)
      ensures iter.Valid() ==>
        forall r | -1 <= r < |iter.merged| && FirstShown(iter.merged, sequence, iter.index, None, r) ::
        LeastFrom(iter.merged, sequence, target, r)
    {
      iter.Seek(LookupKey(target, sequence));
      SeekStart(iter.merged, sequence, target);
      forall r | -1 <= r < |iter.merged| && iter.Valid() && FirstShown(iter.merged, sequence, iter.index, None, r)
        ensures LeastFrom(iter.merged, sequence, target, r)
      {
        SeekFinds(iter.merged, sequence, target, r);
      }
    }

    method Seek(target: int)
      requires Ok()
      modifies this, iter, iter.children
      ensures Ok() && valid == (Place() < |View(iter.merged, sequence)|)
      ensures SeekedTo(View(iter.merged, sequence), target, Place())
    {
      direction := Forward;
      savedValue := "";
      PositionAt(target);
      if iter.Valid() {
        FindNextUserEntry(false, savedKey);
      } else {
        valid := false;
        cur := -1;
      }
      SeekPlace(iter.merged, sequence, target, cur);
    }

    method SeekToFirst()
      requires Ok()
      modifies this, iter, iter.children
      ensures Ok() && Place() == 0 && valid == (|View(iter.merged, sequence)| > 0)
    {
      direction := Forward;
      savedValue := "";
      iter.SeekToFirst();
      if iter.Valid() {
        FindNextUserEntry(false, savedKey);
      } else {
        valid := false;
        cur := -1;
      }
      assert forall i | 0 <= i < |iter.merged| :: Beyond(None, iter.merged, i);
      ViewGap(iter.merged, sequence, 0, if cur == -1 then |iter.merged| else cur);
      if valid { ViewAt(iter.merged, sequence, cur); }
    }

    /** Moves the internal iterator off the current entry, turning it forward if need be. */
    method StepPast()
      requires Ok() && valid
      modifies this, iter, iter.children
      ensures iter.Ok() && direction.Forward? && savedKey == iter.merged[old(cur)].key.user
      ensures if iter.Valid() then
        iter.index <= old(cur) + 1 && forall j | iter.index <= j < old(cur) :: !Visible(iter.merged, sequence, j)
        else old(cur) + 1 == |iter.merged|
    {
      if direction == Reverse {
        direction := Forward;
        if !iter.Valid() {
          iter.SeekToFirst();
        } else {
          iter.Next();
        }
      } else {
        savedKey := iter.Entry().key.user;
        iter.Next();
      }
    }

    method Next()
      requires Ok() && valid
      modifies this, iter, iter.children
      ensures Ok() && Place() == old(Place()) + 1 && valid == (Place() < |View(iter.merged, sequence)|)
    {
      ghost var c := cur;
      StepPast();
      if !iter.Valid() {
        valid := false;
        savedKey := 0;
        cur := -1;
        NextPlace(iter.merged, sequence, c, cur);
      } else {
        ScanPast(iter.merged, sequence, c, iter.index);
        FindNextUserEntry(true, savedKey);
      }
    }

    /** Takes in the entry under the iterator, if it is visible, and steps back. */
    method TakeBackward(ghost p0: int, kind: Kind, key: int, value: string, ghost q: int)
      returns (kind': Kind, key': int, value': string, ghost q': int)
      requires iter.Ok() && iter.Valid() && Backing(iter.merged, sequence, p0, iter.index, kind.Value?, q)
      requires kind.Value? ==> key == iter.merged[q].key.user && value == iter.merged[q].value
      requires iter.Entry().key.sn <= sequence && kind.Value? ==> iter.Entry().key.user >= key
      modifies iter, iter.children
      ensures iter.Ok() && iter.index == old(iter.index) - 1
      ensures Backing(iter.merged, sequence, p0, iter.index, kind'.Value?, q')
      ensures kind'.Value? ==> key' == iter.merged[q'].key.user && value' == iter.merged[q'].value
    {
      var e := iter.Entry();
      BackStep(iter.merged, sequence, p0, iter.index, kind.Value?, q);
      kind', key', value', q' := kind, key, value, q;
      if e.key.sn <= sequence {
        kind', q' := e.key.kind, iter.index;
        if kind' == Deletion {
          key', value' := 0, "";
        } else {
          key', value' := e.key.user, e.value;
        }
      }
      iter.Prev();
    }

    /** The backward scanning loop: the kind and contents of the last entry taken, and its index. */
    method ScanBackward(ghost p0: int) returns (kind: Kind, key: int, value: string, ghost q: int)
      requires iter.Ok() && iter.index == p0
      modifies iter, iter.children
      ensures iter.Ok() && LastShown(iter.merged, sequence, p0, if kind.Value? then q else -1)
      ensures kind.Value? ==> iter.index < q && key == iter.merged[q].key.user && value == iter.merged[q].value
      ensures kind.Value? ==> forall j | iter.index < j < q :: !Visible(iter.merged, sequence, j)
    {
      kind, key, value, q := Deletion, 0, "", -1;
      if iter.Valid() {
        while true
          invariant iter.Ok() && iter.Valid()
          invariant Backing(iter.merged, sequence, p0, iter.index, kind.Value?, q)
          invariant kind.Value? ==> key == iter.merged[q].key.user && value == iter.merged[q].value
          decreases iter.index
        {
          var e := iter.Entry();
          if e.key.sn <= sequence && kind != Deletion && e.key.user < key {
            break;
          }
          kind, key, value, q := TakeBackward(p0, kind, key, value, q);
          if !iter.Valid() {
            break;
          }
        }
      }
      BackYields(iter.merged, sequence, p0, iter.index, kind.Value?, q);
    }

    method FindPrevUserEntry(ghost p0: int)
      requires iter.Ok() && direction.Reverse? && iter.index == p0
      modifies this, iter, iter.children
      ensures Ok() && LastShown(iter.merged, sequence, p0, cur)
    {
      var kind, key, value;
      ghost var q;
      kind, key, value, q := ScanBackward(p0);
      if kind == Deletion {
        valid := false;
        savedKey, savedValue := 0, "";
        direction := Forward;
        cur := -1;
      } else {
        savedKey, savedValue := key, value;
        valid := true;
        cur := q;
      }
    }

    /** One entry back: is there one, and is its user key below the saved one. */
    method BackOne(ghost c: int) returns (more: bool, below: bool)
      requires iter.Ok() && iter.Valid() && iter.index <= c < |iter.merged| && savedKey == iter.merged[c].key.user
      modifies iter, iter.children
      ensures iter.Ok() && iter.index == old(iter.index) - 1 && more == iter.Valid()
      ensures more ==> (below <==> iter.merged[iter.index].key.user < savedKey)
      ensures more && !below ==> iter.merged[iter.index].key.user == savedKey
    {
      below := false;
      iter.Prev();
      more := iter.Valid();
      if more {
        NotAbove(iter.merged, iter.index, c);
        below := iter.Entry().key.user < savedKey;
      }
    }

    /** Steps back from the current entry until the user key changes; false if the data ends first. */
    method StepBack() returns (more: bool)
      requires Ok() && valid && direction.Forward?
      modifies this`savedKey, iter, iter.children
      ensures iter.Ok() && savedKey == iter.merged[cur].key.user && iter.index < cur
      ensures more == iter.Valid() && (more ==> iter.merged[iter.index].key.user < savedKey)
      ensures forall i | iter.index < i < cur :: iter.merged[i].key.user == savedKey
    {
      savedKey := iter.Entry().key.user;
      while true
        invariant iter.Ok() && iter.Valid() && iter.index <= cur && savedKey == iter.merged[cur].key.user
        invariant forall i | iter.index <= i < cur :: iter.merged[i].key.user == savedKey
        decreases iter.index
      {
        var below;
        more, below := BackOne(cur);
        if !more || below {
          break;
        }
      }
    }

    method Prev()
      requires Ok() && valid
      modifies this, iter, iter.children
      ensures Ok() && valid == (old(Place()) > 0) && (valid ==> Place() == old(Place()) - 1)
    {
      ghost var c := cur;
      if direction == Forward {
        var more := StepBack();
        if !more {
          valid := false;
          savedKey, savedValue := 0, "";
          cur := -1;
          PrevPlace(iter.merged, sequence, c, -1);
          return;
        }
        direction := Reverse;
      }
      ghost var p0 := iter.index;
      FindPrevUserEntry(p0);
      PrevPlace(iter.merged, sequence, c, cur);
    }

    method SeekToLast()
      requires Ok()
      modifies this, iter, iter.children
      ensures Ok() && valid == (|View(iter.merged, sequence)| > 0)
      ensures valid ==> Place() == |View(iter.merged, sequence)| - 1
    {
      direction := Reverse;
      savedValue := "";
      iter.SeekToLast();
      FindPrevUserEntry(|iter.merged| - 1);
      LastPlace(iter.merged, sequence, cur);
    }
  }
}
