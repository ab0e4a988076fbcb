/** Where a compaction cuts its outputs. */
module Cuts {
  import opened Format
  import opened Tree

  /** How many files at the front end below the key. */
  function Past(files: seq<File>, key: Key): nat {
    if |files| == 0 || !Less(files[0].largest, key) then 0 else 1 + Past(files[1..], key)
  }

  lemma {:induction false} PastIs(files: seq<File>, key: Key, i: nat)
    requires i <= |files| && (forall k | 0 <= k < i :: Less(files[k].largest, key))
    requires i < |files| ==> !Less(files[i].largest, key)
    ensures Past(files, key) == i
  {
    if i > 0 {
      assert Less(files[0].largest, key);
      PastIs(files[1..], key, i - 1);
    }
  }

  lemma {:induction false} PastSplits(files: seq<File>, key: Key)
    ensures Past(files, key) <= |files|
    ensures forall k | 0 <= k < Past(files, key) :: Less(files[k].largest, key)
    ensures Past(files, key) < |files| ==> !Less(files[Past(files, key)].largest, key)
  {
    if |files| > 0 && Less(files[0].largest, key) { PastSplits(files[1..], key); }
  }

  lemma {:induction false} PastGrows(files: seq<File>, key: Key, key': Key)
    requires !Less(key', key)
    ensures Past(files, key) <= Past(files, key') <= |files|
  {
    PastSplits(files, key');
    if |files| > 0 && Less(files[0].largest, key) { PastGrows(files[1..], key, key'); }
  }

  lemma {:induction false} TotalWithin(files: seq<File>, a: nat, b: nat, c: nat)
    requires a <= b <= c <= |files|
    ensures TotalFileSize(files[b..c]) <= TotalFileSize(files[a..c])
    decreases b - a
  {
    if a < b {
      assert files[a..c][1..] == files[a + 1..c];
      TotalWithin(files, a + 1, b, c);
    }
  }

  /** What decides about cuts: the files two levels down, how many of their bytes an output may overlap, how large it
      may get, and the merged inputs. */
  datatype Cutting = Cutting(grandparents: seq<File>, limit: nat, target: nat, tableSize: seq<Entry> -> nat,
                             input: seq<Entry>) {
    /** Before entry n, where the counted grandparents begin: at the last stop, or at the first entry of all. */
    function Begin(n: nat): nat
      requires 0 < n <= |input|
      decreases n, 0
    {
      if n == 1 then Past(grandparents, input[0].key)
      else if Stop(n - 1) then Past(grandparents, input[n - 1].key) else Begin(n - 1)
    }

    /** Since then too many bytes have been passed. */
    predicate Stop(n: nat)
      requires n < |input|
      decreases n, 1
    {
      n > 0 && Begin(n) <= Past(grandparents, input[n].key) <= |grandparents| &&
      TotalFileSize(grandparents[Begin(n)..Past(grandparents, input[n].key)]) > limit
    }

    /** No table goes on after reaching the target; an open one has not reached it. */
    ghost predicate Small(es: seq<Entry>, open: bool) {
      forall k {:trigger es[..k]} | 0 < k < |es| || (open && 0 < k == |es|) :: tableSize(es[..k]) < target
    }

    /** No stop before entry n falls between the first and the last entry. */
    ghost predicate Whole(es: seq<Entry>, n: nat)
      requires n <= |input|
    {
      |es| > 0 ==> forall m | 0 <= m < n && Stop(m) ::
        !(Less(es[0].key, input[m].key) && !Less(es[|es| - 1].key, input[m].key))
    }

    /** A table ends because it reached the target, or because of a stop before the entry that follows. */
    ghost predicate Reason(es: seq<Entry>, next: Option<Entry>, n: nat)
      requires n <= |input|
    {
      |es| > 0 &&
      (tableSize(es) >= target ||
       exists m :: 0 <= m < n && Stop(m) && Less(es[|es| - 1].key, input[m].key) &&
         (next.Some? ==> !Less(next.value.key, input[m].key)))
    }

    /** No stop behind the first entry of an open table. */
    ghost predicate Unstopped(es: seq<Entry>, n: nat)
      requires n <= |input|
    {
      |es| > 0 ==> forall m | 0 <= m < n && Stop(m) :: !Less(es[0].key, input[m].key)
    }

    ghost predicate Closed(files: seq<File>, n: nat)
      requires n <= |input|
    {
      (forall i | 0 <= i < |files| ::
        |files[i].entries| > 0 && files[i].size == tableSize(files[i].entries) &&
        Small(files[i].entries, false) && Whole(files[i].entries, n)) &&
      forall i | 0 <= i < |files| - 1 && |files[i + 1].entries| > 0 ::
        Reason(files[i].entries, Some(files[i + 1].entries[0]), n)
    }

    ghost predicate Ended(files: seq<File>, next: Option<Entry>, n: nat)
      requires n <= |input|
    {
      |files| > 0 ==> Reason(files[|files| - 1].entries, next, n)
    }

    /** The tables closed before entry n, and the open one. */
    ghost predicate CutSoFar(files: seq<File>, builder: seq<Entry>, n: nat)
      requires n <= |input|
    {
      Closed(files, n) && Ended(files, if |builder| > 0 then Some(builder[0]) else None, n) &&
      Small(builder, true) && Unstopped(builder, n)
    }

    /** Every cut has its reason, and no table goes on where it should have been cut. */
    ghost predicate CutRight(files: seq<File>) { Closed(files, |input|) }
  }

  /** The last entries of all tables come before the key. */
  ghost predicate Behind(files: seq<File>, key: Key) {
    forall i | 0 <= i < |files| && |files[i].entries| > 0 :: Less(files[i].entries[|files[i].entries| - 1].key, key)
  }

  ghost predicate MadeFrom(c: Cutting, f: File, es: seq<Entry>) { f.entries == es && f.size == c.tableSize(es) }

  lemma {:induction false} ReasonStays(c: Cutting, es: seq<Entry>, next: Option<Entry>, n: nat, n': nat)
    requires n <= n' <= |c.input| && c.Reason(es, next, n)
    ensures c.Reason(es, next, n')
  {
  }

  /** Closed tables stay as they are when the next entry is looked at. */
  lemma {:induction false} ClosedStays(c: Cutting, files: seq<File>, n: nat)
    requires n < |c.input| && c.Closed(files, n) && Behind(files, c.input[n].key)
    ensures c.Closed(files, n + 1)
  {
    forall i | 0 <= i < |files| ensures c.Whole(files[i].entries, n + 1) {
      assert c.Whole(files[i].entries, n);
    }
    forall i | 0 <= i < |files| - 1 && |files[i + 1].entries| > 0
      ensures c.Reason(files[i].entries, Some(files[i + 1].entries[0]), n + 1)
    {
      ReasonStays(c, files[i].entries, Some(files[i + 1].entries[0]), n, n + 1);
    }
  }

  lemma {:induction false} EndedStays(c: Cutting, files: seq<File>, next: Option<Entry>, n: nat)
    requires n < |c.input| && c.Ended(files, next, n)
    ensures c.Ended(files, next, n + 1)
  {
    if |files| > 0 { ReasonStays(c, files[|files| - 1].entries, next, n, n + 1); }
  }

  /** One more table. */
  lemma {:induction false} CloseOne(c: Cutting, files: seq<File>, f: File, n: nat)
    requires n <= |c.input| && c.Closed(files, n) && |f.entries| > 0 && MadeFrom(c, f, f.entries)
    requires c.Ended(files, Some(f.entries[0]), n) && c.Small(f.entries, false) && c.Whole(f.entries, n)
    ensures c.Closed(files + [f], n)
  {
    var more := files + [f];
    forall i | 0 <= i < |more| - 1 && |more[i + 1].entries| > 0
      ensures c.Reason(more[i].entries, Some(more[i + 1].entries[0]), n)
    {
      if i < |files| - 1 { assert more[i + 1] == files[i + 1]; }
    }
  }

  /** A stop closes the open table before entry n. */
  lemma {:induction false} CloseAtStop(c: Cutting, files: seq<File>, builder: seq<Entry>, f: File, n: nat)
    requires n < |c.input| && c.CutSoFar(files, builder, n) && c.Stop(n) && |builder| > 0 && MadeFrom(c, f, builder)
    requires Behind(files + [f], c.input[n].key)
    ensures c.CutSoFar(files + [f], [], n + 1)
  {
    assert (files + [f])[|files|] == f;
    forall i | 0 <= i < |files| && |files[i].entries| > 0
      ensures Less(files[i].entries[|files[i].entries| - 1].key, c.input[n].key)
    {
      assert (files + [f])[i] == files[i];
    }
    ClosedStays(c, files, n);
    EndedStays(c, files, Some(builder[0]), n);
    CloseOne(c, files, f, n + 1);
  }

  /** Without an open table, or without a stop, entry n closes nothing. */
  lemma {:induction false} PassEntry(c: Cutting, files: seq<File>, builder: seq<Entry>, n: nat)
    requires n < |c.input| && c.CutSoFar(files, builder, n) && (c.Stop(n) ==> |builder| == 0)
    requires Behind(files, c.input[n].key)
    ensures c.CutSoFar(files, builder, n + 1)
  {
    ClosedStays(c, files, n);
    EndedStays(c, files, if |builder| > 0 then Some(builder[0]) else None, n);
  }

  /** Entry n joins the open table, which may now have reached the target. */
  lemma {:induction false} JoinEntry(c: Cutting, files: seq<File>, builder: seq<Entry>, n: nat)
    requires n < |c.input| && Sorted(c.input) && c.CutSoFar(files, builder, n + 1) && (c.Stop(n) ==> |builder| == 0)
    ensures c.Closed(files, n + 1) && c.Ended(files, Some((builder + [c.input[n]])[0]), n + 1)
    ensures c.Small(builder + [c.input[n]], false) && c.Unstopped(builder + [c.input[n]], n + 1)
  {
    var more := builder + [c.input[n]];
    forall k {:trigger more[..k]} | 0 < k < |more| ensures c.tableSize(more[..k]) < c.target {
      assert more[..k] == builder[..k];
    }
    forall m | 0 <= m < n + 1 && c.Stop(m) ensures !Less(more[0].key, c.input[m].key) {
      if m < n && |builder| == 0 { assert Less(c.input[m].key, c.input[n].key); }
    }
    if |files| > 0 && |builder| == 0 {
      JoinReason(c, files[|files| - 1].entries, n);
    }
  }

  lemma {:induction false} JoinReason(c: Cutting, es: seq<Entry>, n: nat)
    requires n < |c.input| && Sorted(c.input) && c.Reason(es, None, n + 1)
    ensures c.Reason(es, Some(c.input[n]), n + 1)
  {
    if c.tableSize(es) < c.target {
      var m :| 0 <= m < n + 1 && c.Stop(m) && Less(es[|es| - 1].key, c.input[m].key);
      if m < n { assert Less(c.input[m].key, c.input[n].key); }
    }
  }

  /** It is closed if it has. */
  lemma {:induction false} CloseFull(c: Cutting, files: seq<File>, builder: seq<Entry>, f: File, n: nat)
    requires n <= |c.input| && c.Closed(files, n) && |builder| > 0 && c.Ended(files, Some(builder[0]), n)
    requires c.Small(builder, false) && c.Unstopped(builder, n) && MadeFrom(c, f, builder)
    ensures c.Closed(files + [f], n)
    ensures c.tableSize(builder) >= c.target ==> c.CutSoFar(files + [f], [], n)
  {
    CloseOne(c, files, f, n);
  }

  lemma {:induction false} StaysOpen(c: Cutting, files: seq<File>, builder: seq<Entry>, n: nat)
    requires n <= |c.input| && c.Closed(files, n) && |builder| > 0 && c.Ended(files, Some(builder[0]), n)
    requires c.Small(builder, false) && c.Unstopped(builder, n) && c.tableSize(builder) < c.target
    ensures c.CutSoFar(files, builder, n)
  {
    assert builder[..|builder|] == builder;
  }

  // ---- What an output overlaps ----

  lemma {:induction false} BeginBehind(c: Cutting, n: nat)
    requires Sorted(c.input) && 0 < n <= |c.input|
    ensures c.Begin(n) <= Past(c.grandparents, c.input[n - 1].key) <= |c.grandparents|
    decreases n
  {
    PastSplits(c.grandparents, c.input[n - 1].key);
    if n > 1 {
      BeginBehind(c, n - 1);
      assert Less(c.input[n - 2].key, c.input[n - 1].key);
      PastGrows(c.grandparents, c.input[n - 2].key, c.input[n - 1].key);
    }
  }

  /** The running counters, moved on to entry n. */
  lemma {:induction false} CountOn(c: Cutting, n: nat, index: nat, from: nat, stop: bool, index0: nat, from0: nat)
    requires Sorted(c.input) && n < |c.input| && index0 <= index <= |c.grandparents|
    requires n > 0 ==> index0 == Past(c.grandparents, c.input[n - 1].key) && from0 == c.Begin(n)
    requires n == 0 ==> index0 == 0
    requires forall i | index0 <= i < index :: Less(c.grandparents[i].largest, c.input[n].key)
    requires index < |c.grandparents| ==> !Less(c.grandparents[index].largest, c.input[n].key)
    requires var start := if n > 0 then from0 else index;
      start <= index && (stop <==> TotalFileSize(c.grandparents[start..index]) > c.limit) &&
      from == if stop then index else start
    ensures index == Past(c.grandparents, c.input[n].key) && from == c.Begin(n + 1) && (stop <==> c.Stop(n))
  {
    if n > 0 {
      PastSplits(c.grandparents, c.input[n - 1].key);
      assert Less(c.input[n - 1].key, c.input[n].key);
      BeginBehind(c, n);
    }
    PastIs(c.grandparents, c.input[n].key, index);
  }

  lemma {:induction false} BeginStays(c: Cutting, a: nat, b: nat)
    requires Sorted(c.input) && a < b <= |c.input| && forall m | a < m < b :: !c.Stop(m)
    ensures c.Begin(b) <= Past(c.grandparents, c.input[a].key)
    decreases b
  {
    if b == a + 1 {
      BeginBehind(c, b);
    } else {
      BeginStays(c, a, b - 1);
    }
  }

  /** The files two levels down that end between the first and the last key of an output hold at most the limit. */
  lemma {:induction false} LittleOverlap(c: Cutting, files: seq<File>, i: nat, a: nat, b: nat)
    requires Sorted(c.input) && c.CutRight(files) && i < |files| && a <= b < |c.input|
    requires files[i].entries[0] == c.input[a] && files[i].entries[|files[i].entries| - 1] == c.input[b]
    ensures Past(c.grandparents, c.input[a].key) <= Past(c.grandparents, c.input[b].key) <= |c.grandparents|
    ensures TotalFileSize(c.grandparents[Past(c.grandparents, c.input[a].key)..Past(c.grandparents, c.input[b].key)])
      <= c.limit
  {
    PastSplits(c.grandparents, c.input[b].key);
    var es := files[i].entries;
    if a < b {
      assert c.Whole(es, |c.input|);
      forall m | a < m <= b ensures !c.Stop(m) {
        assert Less(c.input[a].key, c.input[m].key);
        assert m < b ==> Less(c.input[m].key, c.input[b].key);
      }
      assert Less(c.input[a].key, c.input[b].key);
      PastGrows(c.grandparents, c.input[a].key, c.input[b].key);
      BeginStays(c, a, b);
      TotalWithin(c.grandparents, c.Begin(b), Past(c.grandparents, c.input[a].key),
        Past(c.grandparents, c.input[b].key));
    } else {
      assert c.grandparents[Past(c.grandparents, c.input[a].key)..Past(c.grandparents, c.input[b].key)] == [];
    }
  }
}
