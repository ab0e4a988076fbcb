/** The iterator over a block. */
module BlockIter {
  import opened Format
  import opened Coding
  import opened Blocks

  type LessThan = (seq<Byte>, seq<Byte>) -> bool

  ghost predicate Transitive(less: LessThan) { forall a, b, c :: less(a, b) && less(b, c) ==> less(a, c) }

  ghost predicate Increasing(es: seq<Pair>, less: LessThan) {
    forall i, j | 0 <= i < j < |es| :: less(es[i].key, es[j].key)
  }

  // ---- A table of contents ----

  /** Where the entries start (and the last one ends), how much of its key each takes from the one before, which entries
      the restart points are, and where those are. */
  datatype Index = Index(offsets: seq<nat>, shared: seq<nat>, starts: seq<nat>, points: seq<nat>)

  datatype Contents = Contents(data: seq<Byte>, restarts: nat, es: seq<Pair>, ix: Index) {
    ghost predicate Entry(i: nat)
      requires i < |es| == |ix.shared| && |ix.offsets| == |es| + 1
    {
      ix.offsets[i] < ix.offsets[i + 1] <= restarts <= |data| &&
      ix.shared[i] <= |es[i].key| < WORD_LIMIT && |es[i].value| < WORD_LIMIT &&
      ix.shared[i] <= |KeyBefore(es, i)| && KeyBefore(es, i)[..ix.shared[i]] == es[i].key[..ix.shared[i]] &&
      data[ix.offsets[i]..restarts] == EntryBytes(ix.shared[i], es[i]) + data[ix.offsets[i + 1]..restarts]
    }

    ghost predicate Point(r: nat)
      requires r < |ix.starts| == |ix.points| && |ix.offsets| == |es| + 1 == |ix.shared| + 1
    {
      restarts + 4 * r + 4 <= |data| && DecodeFixed32(data[restarts + 4 * r..restarts + 4 * r + 4]) == ix.points[r] &&
      ix.starts[r] <= |es| && ix.points[r] == ix.offsets[ix.starts[r]] &&
      (if ix.starts[r] < |es| then ix.shared[ix.starts[r]] == 0 else r == 0 && |es| == 0)
    }

    ghost predicate Right() {
      |ix.offsets| == |es| + 1 && |ix.shared| == |es| && |ix.starts| == |ix.points| > 0 &&
      ix.starts[0] == 0 && ix.offsets[|es|] == restarts <= |data| < WORD_LIMIT &&
      (forall i | 0 <= i < |es| :: Entry(i)) && (forall r | 0 <= r < |ix.starts| :: Point(r)) &&
      (forall q, r | 0 <= q < r < |ix.starts| :: ix.starts[q] < ix.starts[r])
    }
  }

  lemma {:induction false} OffsetsOrder(c: Contents, i: nat, j: nat)
    requires c.Right() && i <= j <= |c.es|
    ensures i < j ==> c.ix.offsets[i] < c.ix.offsets[j]
    ensures c.ix.offsets[j] <= c.restarts
  {
    if i < j {
      OffsetsOrder(c, i, j - 1);
      assert c.Entry(j - 1);
    } else if j < |c.es| {
      assert c.Entry(j);
    }
  }

  /** What the builder makes has such a table. */
  lemma {:induction false} TableOf(es: seq<Pair>, interval: nat) returns (ix: Index)
    requires interval > 0 && |BlockBytes(Built(es, interval))| < WORD_LIMIT
    ensures var l := Built(es, interval);
      Contents(BlockBytes(l), |l.bytes|, es, ix).Right() && |ix.starts| == |l.restarts|
  {
    BuiltLaid(es, interval);
    ix := LayoutTable(Built(es, interval), es);
  }

  lemma {:induction false} LayoutTable(l: Layout, es: seq<Pair>) returns (ix: Index)
    requires Laid(l, es) && |BlockBytes(l)| < WORD_LIMIT
    ensures Contents(BlockBytes(l), |l.bytes|, es, ix).Right() && |ix.starts| == |l.restarts|
  {
    ix := Index(l.offsets, l.shared, l.starts, l.restarts);
    var c := Contents(BlockBytes(l), |l.bytes|, es, ix);
    var rest := FixedList(l.restarts) + EncodeFixed32(|l.restarts| % WORD_LIMIT);
    Regroup(l.bytes, FixedList(l.restarts), EncodeFixed32(|l.restarts| % WORD_LIMIT));
    forall i | 0 <= i < |es| ensures c.Entry(i) { TableEntry(l, es, i, rest); }
    forall r | 0 <= r < |l.starts| ensures c.Point(r) { TablePoint(l, es, r); }
  }

  lemma {:induction false} TablePoint(l: Layout, es: seq<Pair>, r: nat)
    requires Laid(l, es) && |BlockBytes(l)| < WORD_LIMIT && r < |l.starts|
    ensures RestartIn(l, es, r) && |l.bytes| + 4 * r + 4 <= |BlockBytes(l)|
    ensures DecodeFixed32(BlockBytes(l)[|l.bytes| + 4 * r..|l.bytes| + 4 * r + 4]) == l.restarts[r]
  {
    assert RestartIn(l, es, r);
    OffsetsOrdered(l, es, l.starts[r], |es|);
    ListStored(l.bytes, l.restarts, EncodeFixed32(|l.restarts| % WORD_LIMIT), r);
  }

  lemma {:induction false} TableEntry(l: Layout, es: seq<Pair>, i: nat, rest: seq<Byte>)
    requires Laid(l, es) && i < |es| && |l.bytes + rest| < WORD_LIMIT
    ensures EntryIn(l, es, i) && |es[i].key| < WORD_LIMIT && |es[i].value| < WORD_LIMIT
    ensures (l.bytes + rest)[l.offsets[i]..|l.bytes|] ==
      EntryBytes(l.shared[i], es[i]) + (l.bytes + rest)[l.offsets[i + 1]..|l.bytes|]
  {
    assert EntryIn(l, es, i);
    KeyStored(l, es, i);
    var entry := EntryBytes(l.shared[i], es[i]);
    EntryParts(entry + [], l.shared[i], es[i], []);
    assert l.bytes[l.offsets[i]..] == entry + l.bytes[l.offsets[i + 1]..];
    assert (l.bytes + rest)[l.offsets[i]..|l.bytes|] == l.bytes[l.offsets[i]..];
    assert (l.bytes + rest)[l.offsets[i + 1]..|l.bytes|] == l.bytes[l.offsets[i + 1]..];
  }

  /** A key is stored as a whole somewhere, so it is shorter than the block. */
  lemma {:induction false} KeyStored(l: Layout, es: seq<Pair>, i: nat)
    requires Laid(l, es) && i < |es|
    ensures |es[i].key| <= l.offsets[i + 1] <= |l.bytes|
  {
    assert EntryIn(l, es, i);
    EntryParts(EntryBytes(l.shared[i], es[i]) + [], l.shared[i], es[i], []);
    if l.shared[i] > 0 {
      KeyStored(l, es, i - 1);
    }
  }

  /** The input starts with an entry whose key continues the one so far. */
  ghost predicate Comes(input: seq<Byte>, key: seq<Byte>, shared: nat, e: Pair, tail: seq<Byte>) {
    shared <= |e.key| < WORD_LIMIT && shared <= |key| && key[..shared] == e.key[..shared] &&
    input == EntryBytes(shared, e) + tail && |input| < WORD_LIMIT
  }


  /** An entry at the start of the input is accepted, but its lengths wrap. */
  ghost predicate Overruns(input: seq<Byte>, key: seq<Byte>) {
    Wraps(input) && Decoded(input).value.shared <= |key|
  }

  // ---- The iterator ----

  class Iter {
    const less: LessThan
    const data: seq<Byte>
    const restarts: nat
    const numRestarts: nat
    var current: nat
    var restartIndex: nat
    var key: seq<Byte>
    var valueStart: nat
    var valueLength: nat
    var corrupt: bool

    /** The iterator has accepted an entry that goes on behind the block. What it would do from there on is not
        modelled. */
    var outside: bool
    ghost const es: seq<Pair>
    ghost const ix: Index

    predicate Valid()
      reads this
    {
      current < restarts
    }

    function NextEntryOffset(): nat
      reads this
    {
      valueStart + valueLength
    }

    /** The restart points lie between the entries and the end. */
    ghost predicate Consistent() { numRestarts > 0 && restarts + 4 * numRestarts + 4 == |data| < WORD_LIMIT }

    /** No position of the block reads as an entry whose lengths wrap. */
    ghost predicate Unwrapped() {
      restarts <= |data| && forall p | 0 <= p <= restarts :: !Wraps(data[p..restarts])
    }

    /** The current entry lies inside the block. */
    ghost predicate Safe()
      reads this
    {
      Consistent() && current <= restarts &&
      (Valid() ==> restartIndex < numRestarts && current < NextEntryOffset() <= restarts)
    }

    /** The block holds the entries. */
    ghost predicate Holds() { Contents(data, restarts, es, ix).Right() && numRestarts == |ix.starts| }

    function Value(): seq<Byte>
      requires Safe() && Valid()
      reads this
    {
      data[valueStart..valueStart + valueLength]
    }

    /** The iterator shows entry i, or is behind the last one. */
    ghost predicate At(i: nat)
      reads this
    {
      Safe() && i <= |es| && !corrupt && !outside && if i < |es| then Valid() && ShowsAt(i) else !Valid()
    }

    ghost predicate ShowsAt(i: nat)
      requires i < |es|
      reads this
    {
      |ix.offsets| == |es| + 1 && current == ix.offsets[i] &&
        NextEntryOffset() == ix.offsets[i + 1] <= restarts <= |data| &&
      key == es[i].key && data[valueStart..valueStart + valueLength] == es[i].value
    }

    /** The next entry to parse is number i, and the key so far has what that entry takes from it. */
    ghost predicate Before(i: nat)
      reads this
    {
      i <= |es| && !corrupt && !outside && restartIndex < numRestarts && |ix.offsets| == |es| + 1 == |ix.shared| + 1 &&
      NextEntryOffset() == ix.offsets[i] &&
      (i < |es| ==>
        ix.shared[i] <= |key| && ix.shared[i] <= |es[i].key| && key[..ix.shared[i]] == es[i].key[..ix.shared[i]])
    }

    constructor (less: LessThan, data: seq<Byte>, restarts: nat, numRestarts: nat, ghost es: seq<Pair>, ghost ix: Index)
      requires numRestarts > 0 && restarts + 4 * numRestarts + 4 == |data| < WORD_LIMIT
      ensures Safe() && !Valid() && !corrupt && !outside && this.less == less && this.data == data
      ensures this.restarts == restarts && this.numRestarts == numRestarts && this.es == es && this.ix == ix
    {
      this.less, this.data, this.restarts, this.numRestarts := less, data, restarts, numRestarts;
      this.es, this.ix := es, ix;
      current, restartIndex, key, valueStart, valueLength := restarts, numRestarts, [], 0, 0;
      corrupt, outside := false, false;
    }

    method GetRestartPoint(index: nat) returns (offset: nat)
      requires Consistent() && index < numRestarts
      ensures Holds() ==> offset == ix.points[index]
    {
      offset := DecodeFixed32(data[restarts + 4 * index..restarts + 4 * index + 4]);
      if Holds() { assert Contents(data, restarts, es, ix).Point(index); }
    }

    method SeekToRestartPoint(index: nat)
      requires Consistent() && index < numRestarts
      modifies `key, `restartIndex, `valueStart, `valueLength
      ensures Holds() && !corrupt && !outside ==> Before(ix.starts[index])
      ensures restartIndex == index
    {
      key := [];
      restartIndex := index;
      var offset := GetRestartPoint(index);
      valueStart, valueLength := offset, 0;
      if Holds() { assert Contents(data, restarts, es, ix).Point(index); }
    }

    /** Parses the entry behind the current one. */
    method ParseNextKey(ghost i: nat) returns (more: bool)
      requires Consistent() && restartIndex < numRestarts
      modifies `current, `restartIndex, `key, `valueStart, `valueLength, `corrupt, `outside
      ensures Unwrapped() && !old(outside) ==> !outside
      ensures Safe() && more == Valid() && (more ==> NextEntryOffset() > old(NextEntryOffset()))
      ensures Holds() && old(Before(i)) ==> At(i)
    {
      if Holds() && Before(i) { OffsetsOrder(Contents(data, restarts, es, ix), i, |es|); }
      current := NextEntryOffset();
      if current >= restarts {
        current, restartIndex := restarts, numRestarts;
        return false;
      }
      more := LoadEntry(i);
    }

    /** The entry at the current position. It is accepted though it goes on behind the block exactly if its lengths
        wrap. */
    method LoadEntry(ghost i: nat) returns (ok: bool)
      requires Consistent() && restartIndex < numRestarts && current == NextEntryOffset() < restarts
      modifies `current, `restartIndex, `key, `valueStart, `valueLength, `corrupt, `outside
      ensures Safe() && ok == Valid() && (ok ==> NextEntryOffset() > old(current))
      ensures outside <==> old(outside) || Overruns(data[old(current)..restarts], old(key))
      ensures Holds() && old(Before(i)) && i < |es| ==> ok && !corrupt && !outside && ShowsAt(i)
    {
      ghost var shared, e, tail := 0, Pair([], []), [];
      if Holds() && Before(i) && i < |es| {
        assert Contents(data, restarts, es, ix).Entry(i);
        shared, e, tail := ix.shared[i], es[i], data[ix.offsets[i + 1]..restarts];
      }
      var over, key', start, length;
      ok, over, key', start, length := ReadEntry(shared, e, tail);
      if !ok {
        outside := outside || over;
        Corrupted();
        return;
      }
      key, valueStart, valueLength := key', start, length;
      AdvanceRestart();
    }

    /** The entry at the current position, with its whole key. */
    method ReadEntry(ghost shared0: nat, ghost e: Pair, ghost tail: seq<Byte>)
      returns (ok: bool, over: bool, key': seq<Byte>, start: nat, length: nat)
      requires Consistent() && current < restarts
      ensures ok ==> !over && current < start + length <= restarts
      ensures over <==> Overruns(data[current..restarts], key)
      ensures Comes(data[current..restarts], key, shared0, e, tail) ==>
        ok && key' == e.key && start + length == restarts - |tail| && data[start..start + length] == e.value
    {
      ghost var expected := Comes(data[current..restarts], key, shared0, e, tail);
      if expected {
        PartsIn(data, current, restarts, shared0, e, tail);
        DecodedOf(shared0, e, tail);
      }
      ok, over, key', start, length := false, false, [], 0, 0;
      var r := DecodeEntry(data[current..restarts]);
      if r.None? || |key| < r.value.shared {
        return;
      }
      AcceptedInside(data[current..restarts]);
      if current + r.value.header + r.value.nonShared + r.value.valueLength > restarts {
        over := true;
        return;
      }
      ok, length := true, r.value.valueLength;
      start := current + r.value.header + r.value.nonShared;
      key' := key[..r.value.shared] + data[current + r.value.header..start];
      if expected { assert key' == key[..shared0] + e.key[shared0..] == e.key; }
    }

    method Corrupted()
      modifies `current, `restartIndex, `key, `valueLength, `valueStart, `corrupt
      ensures current == restarts && corrupt
    {
      current, restartIndex, corrupt := restarts, numRestarts, true;
      key := [];
      valueStart, valueLength := 0, 0;
    }

    method AdvanceRestart()
      requires Consistent() && restartIndex < numRestarts
      modifies `restartIndex
      ensures restartIndex < numRestarts
    {
      while restartIndex + 1 < numRestarts
        invariant restartIndex < numRestarts
        decreases numRestarts - restartIndex
      {
        var offset := GetRestartPoint(restartIndex + 1);
        if offset >= current {
          break;
        }
        restartIndex := restartIndex + 1;
      }
    }

    method Next(ghost i: nat)
      requires Safe() && Valid()
      modifies `current, `restartIndex, `key, `valueStart, `valueLength, `corrupt, `outside
      ensures Unwrapped() && !old(outside) ==> !outside
      ensures Safe() && (Holds() && old(At(i)) && i < |es| ==> At(i + 1))
    {
      var more := ParseOn(i);
    }

    method ParseOn(ghost i: nat) returns (more: bool)
      requires Safe() && Valid()
      modifies `current, `restartIndex, `key, `valueStart, `valueLength, `corrupt, `outside
      ensures Unwrapped() && !old(outside) ==> !outside
      ensures Safe() && more == Valid() && (more ==> NextEntryOffset() > old(NextEntryOffset()))
      ensures Holds() && old(At(i)) && i < |es| ==> At(i + 1)
    {
      if Holds() && At(i) && i + 1 < |es| { assert Contents(data, restarts, es, ix).Entry(i + 1); }
      more := ParseNextKey(i + 1);
    }

    method SeekToFirst()
      requires Safe()
      modifies `current, `restartIndex, `key, `valueStart, `valueLength, `corrupt, `outside
      ensures Unwrapped() && !old(outside) ==> !outside
      ensures Safe() && (Holds() && !old(corrupt || outside) ==> At(0))
    {
      SeekToRestartPoint(0);
      var more := ParseNextKey(0);
    }

    method SeekToLast()
      requires Safe()
      modifies `current, `restartIndex, `key, `valueStart, `valueLength, `corrupt, `outside
      ensures Unwrapped() && !old(outside) ==> !outside
      ensures Safe() && (Holds() && !old(corrupt || outside) ==> At(if |es| > 0 then |es| - 1 else 0))
    {
      SeekToRestartPoint(numRestarts - 1);
      ghost var start := if Holds() then ix.starts[numRestarts - 1] else 0;
      if Holds() { assert Contents(data, restarts, es, ix).Point(numRestarts - 1); }
      ParseUpTo(restarts, start, |es|);
    }

    /** Parses entries until one ends at the offset or behind it. */
    method ParseUpTo(offset: nat, ghost start: nat, ghost end: nat)
      requires Consistent() && restartIndex < numRestarts && offset <= restarts
      modifies `current, `restartIndex, `key, `valueStart, `valueLength, `corrupt, `outside
      ensures Unwrapped() && !old(outside) ==> !outside
      ensures Safe()
      ensures Holds() && old(Before(start)) && start < end <= |es| && offset == ix.offsets[end] ==> At(end - 1)
      ensures Holds() && old(Before(start)) && start == end == |es| ==> At(end)
    {
      ghost var expected := Holds() && Before(start) && start < end <= |es| && offset == ix.offsets[end];
      ghost var none := Holds() && Before(start) && start == end == |es|;
      ghost var g: nat := start;
      var more := ParseNextKey(g);
      while more && NextEntryOffset() < offset
        invariant Safe() && more == Valid() && (Unwrapped() && !old(outside) ==> !outside)
        invariant expected ==> start <= g < end && At(g)
        invariant none ==> !more && At(end)
        decreases if more then restarts - NextEntryOffset() + 1 else 0
      {
        if expected { OffsetsOrder(Contents(data, restarts, es, ix), g + 1, end); }
        more := ParseOn(g);
        g := g + 1;
      }
      if expected { OffsetsOrder(Contents(data, restarts, es, ix), g + 1, end); }
    }

    /** From the last restart point before the current entry up to it. */
    method Prev(ghost i: nat)
      requires Safe() && Valid()
      modifies `current, `restartIndex, `key, `valueStart, `valueLength, `corrupt, `outside
      ensures Unwrapped() && !old(outside) ==> !outside
      ensures Safe() && (Holds() && old(At(i)) && i < |es| ==> At(if i > 0 then i - 1 else |es|))
    {
      ghost var expected := Holds() && At(i) && i < |es|;
      var original := current;
      var found := FindRestartBefore(original);
      if expected { PointBefore(Contents(data, restarts, es, ix), if found then restartIndex else 0, i); }
      if !found {
        current, restartIndex := restarts, numRestarts;
        return;
      }
      ghost var start := if expected then ix.starts[restartIndex] else 0;
      SeekToRestartPoint(restartIndex);
      ParseUpTo(original, start, i);
    }

    method FindRestartBefore(original: nat) returns (found: bool)
      requires Consistent() && restartIndex < numRestarts
      modifies `restartIndex
      ensures restartIndex < numRestarts
      ensures Holds() && found ==> ix.points[restartIndex] < original
      ensures Holds() && !found ==> ix.points[0] >= original
    {
      var offset := GetRestartPoint(restartIndex);
      while offset >= original
        invariant restartIndex < numRestarts && (Holds() ==> offset == ix.points[restartIndex])
        decreases restartIndex
      {
        if restartIndex == 0 {
          return false;
        }
        restartIndex := restartIndex - 1;
        offset := GetRestartPoint(restartIndex);
      }
      found := true;
    }

    /** Binary search over the restart points, then a scan from the last one whose key is below the target. */
    method Seek(target: seq<Byte>) returns (ghost p: nat)
      requires Safe()
      modifies `current, `restartIndex, `key, `valueStart, `valueLength, `corrupt, `outside
      ensures Unwrapped() && !old(outside) ==> !outside
      ensures Safe()
      ensures Holds() && !old(corrupt || outside) && Transitive(less) && Increasing(es, less) ==>
        At(p) && (forall j | 0 <= j < p :: less(es[j].key, target)) && (p < |es| ==> !less(es[p].key, target))
    {
      var ok, over, left := FindRestart(target);
      p := 0;
      if !ok {
        outside := outside || over;
        Corrupted();
        return;
      }
      if Holds() && Transitive(less) && Increasing(es, less) {
        p := ix.starts[left];
        BelowStart(Contents(data, restarts, es, ix), less, target, left);
      }
      SeekToRestartPoint(left);
      p := ScanTo(target, p);
    }

    /** The first entry from the next one on whose key is not below the target. */
    method ScanTo(target: seq<Byte>, ghost start: nat) returns (ghost p: nat)
      requires Consistent() && restartIndex < numRestarts
      modifies `current, `restartIndex, `key, `valueStart, `valueLength, `corrupt, `outside
      ensures Unwrapped() && !old(outside) ==> !outside
      ensures Safe()
      ensures Holds() && old(Before(start)) && (forall j | 0 <= j < start :: less(es[j].key, target)) ==>
        At(p) && (forall j | 0 <= j < p :: less(es[j].key, target)) && (p < |es| ==> !less(es[p].key, target))
    {
      ghost var expected := Holds() && Before(start) && forall j | 0 <= j < start :: less(es[j].key, target);
      p := start;
      var more := ParseNextKey(p);
      while more && less(key, target)
        invariant Safe() && more == Valid() && (Unwrapped() && !old(outside) ==> !outside)
        invariant expected ==> At(p) && forall j | 0 <= j < p :: less(es[j].key, target)
        decreases if more then restarts - NextEntryOffset() + 1 else 0
      {
        more := ParseOn(p);
        p := p + 1;
      }
    }

    method FindRestart(target: seq<Byte>) returns (ok: bool, over: bool, left: nat)
      requires Consistent()
      ensures left < numRestarts && (Unwrapped() ==> !over) && (over ==> !ok)
      ensures Holds() ==> ok && (left > 0 ==> ix.starts[left] < |es| && less(es[ix.starts[left]].key, target))
    {
      var right := numRestarts - 1;
      left, over := 0, false;
      while left < right
        invariant 0 <= left <= right < numRestarts && !over
        invariant Holds() && left > 0 ==> ix.starts[left] < |es| && less(es[ix.starts[left]].key, target)
      {
        var mid := (left + right + 1) / 2;
        var midKey;
        ok, over, midKey := RestartKey(mid);
        if !ok {
          return;
        }
        if less(midKey, target) {
          left := mid;
        } else {
          right := mid - 1;
        }
      }
      ok := true;
    }

    /** The key at a restart point, which is stored whole. */
    method RestartKey(index: nat) returns (ok: bool, over: bool, midKey: seq<Byte>)
      requires Consistent() && 0 < index < numRestarts
      ensures (Unwrapped() ==> !over) && (over ==> !ok) && (ok ==> !over)
      ensures Holds() ==> ok && ix.starts[index] < |es| && midKey == es[ix.starts[index]].key
    {
      var offset := GetRestartPoint(index);
      ok, over, midKey := false, false, [];
      ghost var e, tail := Pair([], []), [];
      if Holds() {
        assert Contents(data, restarts, es, ix).Point(index);
        assert Contents(data, restarts, es, ix).Entry(ix.starts[index]);
        e, tail := es[ix.starts[index]], data[ix.offsets[ix.starts[index] + 1]..restarts];
        PartsIn(data, offset, restarts, 0, e, tail);
        DecodedOf(0, e, tail);
      }
      if offset > restarts {
        return;
      }
      var r := DecodeEntry(data[offset..restarts]);
      if r.None? || r.value.shared != 0 {
        return;
      }
      AcceptedInside(data[offset..restarts]);
      var end := offset + r.value.header + r.value.nonShared;
      if end + r.value.valueLength > restarts {
        over := true;
        return;
      }
      ok := true;
      midKey := data[offset + r.value.header..end];
    }
  }

  lemma {:induction false} PointBefore(c: Contents, r: nat, i: nat)
    requires c.Right() && r < |c.ix.starts| && i < |c.es|
    ensures c.ix.points[r] < c.ix.offsets[i] <==> c.ix.starts[r] < i
  {
    assert c.Point(r);
    if c.ix.starts[r] < i { OffsetsOrder(c, c.ix.starts[r], i); } else { OffsetsOrder(c, i, c.ix.starts[r]); }
  }

  lemma {:induction false} BelowStart(c: Contents, less: LessThan, target: seq<Byte>, r: nat)
    requires c.Right() && Transitive(less) && Increasing(c.es, less) && r < |c.ix.starts|
    requires r > 0 ==> c.ix.starts[r] < |c.es| && less(c.es[c.ix.starts[r]].key, target)
    ensures forall j | 0 <= j < c.ix.starts[r] && j < |c.es| :: less(c.es[j].key, target)
  {
    forall j | 0 <= j < c.ix.starts[r] && j < |c.es| ensures less(c.es[j].key, target) {
      assert less(c.es[j].key, c.es[c.ix.starts[r]].key);
    }
  }

  // ---- A whole block ----

  datatype Opened = Bad | Empty | Ready(iter: Iter)

  /** A block says at its end how many restart points it has; if they cannot all be there, it is bad. */
  method NewIterator(contents: seq<Byte>, less: LessThan, ghost es: seq<Pair>, ghost interval: nat) returns (r: Opened)
    requires |contents| < WORD_LIMIT
    ensures r.Ready? ==> fresh(r.iter) && r.iter.Safe() && !r.iter.corrupt && !r.iter.outside && r.iter.less == less
    ensures r.Bad? <==>
      |contents| < 4 || DecodeFixed32(contents[|contents| - 4..]) > (|contents| - 4) / 4
    ensures r.Empty? <==> |contents| >= 4 && DecodeFixed32(contents[|contents| - 4..]) == 0
    ensures r.Ready? ==> r.iter.data == contents && r.iter.numRestarts == DecodeFixed32(contents[|contents| - 4..])
    ensures interval > 0 && contents == BlockBytes(Built(es, interval)) ==>
      r.Ready? && r.iter.es == es && r.iter.Holds()
  {
    ghost var expected := interval > 0 && contents == BlockBytes(Built(es, interval));
    ghost var ix := Index([], [], [], []);
    if expected {
      ix := TableOf(es, interval);
      BuiltLaid(es, interval);
      LastWord(Built(es, interval));
    }
    var size := |contents|;
    if size < 4 {
      return Bad;
    }
    var numRestarts := DecodeFixed32(contents[size - 4..]);
    if numRestarts > (size - 4) / 4 {
      return Bad;
    }
    if numRestarts == 0 {
      return Empty;
    }
    var iter := new Iter(less, contents, size - (1 + numRestarts) * 4, numRestarts, es, ix);
    r := Ready(iter);
  }

  lemma {:induction false} LastWord(l: Layout)
    requires |BlockBytes(l)| < WORD_LIMIT
    ensures |BlockBytes(l)| == |l.bytes| + 4 * |l.restarts| + 4
    ensures DecodeFixed32(BlockBytes(l)[|BlockBytes(l)| - 4..]) == |l.restarts|
  {
    FixedListLength(l.restarts);
    EndsWith(l.bytes + FixedList(l.restarts), |l.restarts|);
  }

  lemma {:induction false} EndsWith(a: seq<Byte>, n: nat)
    requires n < WORD_LIMIT
    ensures var data := a + EncodeFixed32(n % WORD_LIMIT);
      |data| == |a| + 4 && DecodeFixed32(data[|data| - 4..]) == n
  {
    NoWrap(n);
    DecodeEncodeFixed32(n);
    Cut(a, EncodeFixed32(n));
  }

  lemma {:induction false} Cut(a: seq<Byte>, b: seq<Byte>)
    ensures (a + b)[..|a|] == a && (a + b)[|a|..] == b
  {
  }

  /** Builds a block and reads it in both directions. */
  method BuildAndRead(pairs: seq<Pair>, interval: nat, less: LessThan) returns (forward: seq<Pair>, backward: seq<Pair>)
    requires interval > 0 && forall e | e in pairs :: |e.key| < WORD_LIMIT && |e.value| < WORD_LIMIT
    requires |BlockBytes(Built(pairs, interval))| < WORD_LIMIT
    ensures forward == pairs && backward == pairs
  {
    var block := BuildBlock(pairs, interval);
    var result := NewIterator(block, less, pairs, interval);
    forward := ReadForward(result.iter);
    backward := ReadBackward(result.iter);
  }

  method BuildBlock(pairs: seq<Pair>, interval: nat) returns (block: seq<Byte>)
    requires interval > 0 && forall e | e in pairs :: |e.key| < WORD_LIMIT && |e.value| < WORD_LIMIT
    ensures block == BlockBytes(Built(pairs, interval))
  {
    var builder := new BlockBuilder(interval);
    for i := 0 to |pairs|
      invariant fresh(builder) && builder.Ok() && builder.interval == interval && builder.entries == pairs[..i]
    {
      assert pairs[i] in pairs;
      builder.Add(pairs[i].key, pairs[i].value);
    }
    assert pairs[..|pairs|] == pairs;
    block := builder.Finish();
  }

  method ReadForward(iter: Iter) returns (r: seq<Pair>)
    requires iter.Safe() && iter.Holds() && !iter.corrupt && !iter.outside
    modifies iter
    ensures iter.Safe() && !iter.corrupt && !iter.outside && r == iter.es
  {
    iter.SeekToFirst();
    r := [];
    ghost var i: nat := 0;
    while iter.Valid()
      invariant iter.At(i) && r == iter.es[..i]
      decreases |iter.es| - i
    {
      r := r + [Pair(iter.key, iter.Value())];
      iter.Next(i);
      i := i + 1;
    }
    assert iter.es[..|iter.es|] == iter.es;
  }

  method ReadBackward(iter: Iter) returns (r: seq<Pair>)
    requires iter.Safe() && iter.Holds() && !iter.corrupt && !iter.outside
    modifies iter
    ensures iter.Safe() && !iter.corrupt && !iter.outside && r == iter.es
  {
    iter.SeekToLast();
    r := [];
    ghost var n := |iter.es|;
    while iter.Valid()
      invariant 0 <= n <= |iter.es| && iter.At(if n > 0 then n - 1 else |iter.es|) && r == iter.es[n..]
      decreases n
    {
      assert iter.es[n - 1..] == [iter.es[n - 1]] + iter.es[n..];
      r := [Pair(iter.key, iter.Value())] + r;
      iter.Prev(n - 1);
      n := n - 1;
    }
    assert iter.es[0..] == iter.es;
  }
}
