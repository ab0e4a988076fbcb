/** Internal keys and entries: what the memtables and the sorted tables store. */
module Format {

  datatype Option<+T> = None | Some(value: T)

  /** 56 bits: a sequence number shares its 64-bit word with an 8-bit type tag. */
  const MAX_SEQUENCE: nat := 0xFF_FFFF_FFFF_FFFF

  type Sequence = s: nat | s <= MAX_SEQUENCE

  datatype Kind = Deletion | Value {
    function Tag(): nat { if Value? then 1 else 0 }
  }

  /** A user key is known only through a strict total order, so an integer stands for it. */
  datatype Key = Key(user: int, sn: Sequence, kind: Kind)

  datatype Entry = Entry(key: Key, value: string)

  /** Increasing user key, then decreasing sequence number, then decreasing type. */
  predicate Less(a: Key, b: Key) {
    a.user < b.user ||
    (a.user == b.user && (a.sn > b.sn || (a.sn == b.sn && a.kind.Tag() > b.kind.Tag())))
  }

  /** The key a point lookup or an iterator seeks to. */
  function LookupKey(user: int, snapshot: Sequence): Key { Key(user, snapshot, Value) }

  ghost predicate Sorted(es: seq<Entry>) {
    forall i, j | 0 <= i < j < |es| :: Less(es[i].key, es[j].key)
  }

  ghost function EntrySet(es: seq<Entry>): set<Entry> { set e | e in es }

  lemma {:induction false} SortedParts(a: seq<Entry>, b: seq<Entry>)
    requires Sorted(a + b)
    ensures Sorted(a) && Sorted(b) && forall x, y | x in a && y in b :: Less(x.key, y.key)
  {
    forall i, j | 0 <= i < j < |a| ensures Less(a[i].key, a[j].key) { assert (a + b)[i] == a[i] && (a + b)[j] == a[j]; }
    forall i, j | 0 <= i < j < |b| ensures Less(b[i].key, b[j].key) {
      assert (a + b)[|a| + i] == b[i] && (a + b)[|a| + j] == b[j];
    }
    forall x, y | x in a && y in b ensures Less(x.key, y.key) {
      var i :| 0 <= i < |a| && a[i] == x;
      var j :| 0 <= j < |b| && b[j] == y;
      assert (a + b)[i] == x && (a + b)[|a| + j] == y;
    }
  }

  lemma {:induction false} AppendSorted(a: seq<Entry>, b: seq<Entry>)
    requires Sorted(a) && Sorted(b) && forall x, y | x in a && y in b :: Less(x.key, y.key)
    ensures Sorted(a + b) && EntrySet(a + b) == EntrySet(a) + EntrySet(b)
  {
  }

  /** Number of leading entries below the target: where a sorted table positions a seek. */
  function LowerBound(es: seq<Entry>, target: Key): (i: nat)
    ensures i <= |es|
    ensures forall j | 0 <= j < i :: Less(es[j].key, target)
    ensures i < |es| ==> !Less(es[i].key, target)
  {
    if |es| == 0 || !Less(es[0].key, target) then 0 else
      var r := LowerBound(es[1..], target);
      assert forall j | 1 <= j < r + 1 :: es[j] == es[1..][j - 1];
      r + 1
  }

  lemma {:induction false} Regroup<T>(a: seq<T>, b: seq<T>, c: seq<T>)
    ensures a + (b + c) == a + b + c
  {
  }

  // ---- What a read at a snapshot means ----

  ghost predicate Candidate(e: Entry, user: int, snapshot: nat) {
    e.key.user == user && e.key.sn <= snapshot
  }

  ghost predicate IsNewest(data: set<Entry>, user: int, snapshot: nat, e: Entry) {
    e in data && Candidate(e, user, snapshot) &&
    forall o | o in data && Candidate(o, user, snapshot) :: o.key.sn <= e.key.sn
  }

  /** One entry for each user key and sequence number. */
  ghost predicate Distinct(data: set<Entry>) {
    forall a, b | a in data && b in data && a.key.user == b.key.user && a.key.sn == b.key.sn :: a == b
  }

  function Answer(e: Entry): Option<string> {
    if e.key.kind.Value? then Some(e.value) else None
  }

  /** The newest entry at or below the snapshot decides; a tombstone, or nothing at all, reads as absent. */
  ghost function Read(data: set<Entry>, user: int, snapshot: nat): Option<string> {
    if exists e :: IsNewest(data, user, snapshot, e) then
      var e :| IsNewest(data, user, snapshot, e);
      Answer(e)
    else None
  }

  lemma {:induction false} NewestExists(data: set<Entry>, user: int, snapshot: nat)
    requires exists e :: e in data && Candidate(e, user, snapshot)
    ensures exists e :: IsNewest(data, user, snapshot, e)
    decreases |data|
  {
    var c :| c in data && Candidate(c, user, snapshot);
    var rest := data - {c};
    if exists e :: e in rest && Candidate(e, user, snapshot) {
      NewestExists(rest, user, snapshot);
      var m :| IsNewest(rest, user, snapshot, m);
      var best := if c.key.sn > m.key.sn then c else m;
      assert IsNewest(data, user, snapshot, best);
    } else {
      assert IsNewest(data, user, snapshot, c);
    }
  }

  lemma {:induction false} ReadNewest(data: set<Entry>, user: int, snapshot: nat, e: Entry)
    requires Distinct(data) && IsNewest(data, user, snapshot, e)
    ensures Read(data, user, snapshot) == Answer(e)
  {
    var m :| IsNewest(data, user, snapshot, m) && Read(data, user, snapshot) == Answer(m);
    assert IsNewest(data, user, snapshot, m);
    assert m in data;
    assert m.key.sn == e.key.sn;
  }

  lemma {:induction false} ReadAbsent(data: set<Entry>, user: int, snapshot: nat)
    requires forall e | e in data :: !Candidate(e, user, snapshot)
    ensures Read(data, user, snapshot) == None
  {
  }

  /** The plain specification: scan the log of all writes backwards for the first one that is visible. */
  function HistoryRead(history: seq<Entry>, user: int, snapshot: nat): Option<string> {
    if |history| == 0 then None else
      var e := history[|history| - 1];
      if e.key.user == user && e.key.sn <= snapshot then Answer(e)
      else HistoryRead(history[..|history| - 1], user, snapshot)
  }

  /** Write number i carries sequence number i. */
  ghost predicate Numbered(history: seq<Entry>) {
    forall i | 0 <= i < |history| :: history[i].key.sn == i + 1
  }

  lemma {:induction false} NumberedDistinct(history: seq<Entry>)
    requires Numbered(history)
    ensures Distinct(EntrySet(history))
  {
  }

  lemma {:induction false} HistoryReadIsRead(history: seq<Entry>, user: int, snapshot: nat)
    requires Numbered(history)
    ensures HistoryRead(history, user, snapshot) == Read(EntrySet(history), user, snapshot)
  {
    if |history| > 0 {
      var n := |history| - 1;
      var e, init := history[n], history[..n];
      NumberedDistinct(history);
      assert EntrySet(history) == EntrySet(init) + {e};
      if Candidate(e, user, snapshot) {
        assert IsNewest(EntrySet(history), user, snapshot, e);
        ReadNewest(EntrySet(history), user, snapshot, e);
      } else {
        HistoryReadIsRead(init, user, snapshot);
        SameCandidates(EntrySet(history), EntrySet(init), user, snapshot);
      }
    }
  }

  /** A read depends only on the candidates. */
  lemma {:induction false} SameCandidates(a: set<Entry>, b: set<Entry>, user: int, snapshot: nat)
    requires Distinct(a) && Distinct(b)
    requires forall e | Candidate(e, user, snapshot) :: e in a <==> e in b
    ensures Read(a, user, snapshot) == Read(b, user, snapshot)
  {
    if m :| IsNewest(a, user, snapshot, m) {
      assert IsNewest(b, user, snapshot, m);
      ReadNewest(a, user, snapshot, m);
      ReadNewest(b, user, snapshot, m);
    } else {
      assert forall e :: !IsNewest(b, user, snapshot, e) by {
        if e :| IsNewest(b, user, snapshot, e) { assert IsNewest(a, user, snapshot, e); }
      }
    }
  }
}
