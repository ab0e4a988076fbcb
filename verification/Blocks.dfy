/** Blocks of a table: sorted pairs whose keys share prefixes, with restart points for searching. */
module Blocks {
  import opened Format
  import opened Coding

  datatype Pair = Pair(key: seq<Byte>, value: seq<Byte>)

  const WORD_LIMIT: nat := 0x1_0000_0000

  // ---- The format ----

  /** The length of the longest common prefix. */
  function Shared(a: seq<Byte>, b: seq<Byte>): (n: nat)
    ensures n <= |a| && n <= |b| && a[..n] == b[..n]
    ensures n < |a| && n < |b| ==> a[n] != b[n]
  {
    if |a| == 0 || |b| == 0 || a[0] != b[0] then 0 else
      var n := Shared(a[1..], b[1..]);
      assert a[..n + 1] == [a[0]] + a[1..][..n] && b[..n + 1] == [b[0]] + b[1..][..n];
      n + 1
  }

  function Header(shared: nat, nonShared: nat, valueLength: nat): seq<Byte> {
    Varint(shared) + Varint(nonShared) + Varint(valueLength)
  }

  function EntryBytes(shared: nat, e: Pair): seq<Byte>
    requires shared <= |e.key|
  {
    Header(shared, |e.key| - shared, |e.value|) + (e.key[shared..] + e.value)
  }

  /** The entries of a block, and where everything is: the restart points and the entries they are, how many entries
      follow the last of them, where each entry starts (and the last one ends), and how much of its key it shares. */
  datatype Layout = Layout(
    bytes: seq<Byte>,
    restarts: seq<nat>,
    starts: seq<nat>,
    counter: nat,
    offsets: seq<nat>,
    shared: seq<nat>)

  const NO_ENTRIES := Layout([], [0], [0], 0, [0], [])

  function KeyBefore(es: seq<Pair>, i: nat): seq<Byte>
    requires i <= |es|
  {
    if i == 0 then [] else es[i - 1].key
  }

  /** After every interval of entries a key is stored whole. */
  function With(l: Layout, last: seq<Byte>, e: Pair, interval: nat): Layout {
    var restart := l.counter >= interval;
    var shared := if restart then 0 else Shared(last, e.key);
    var bytes := l.bytes + EntryBytes(shared, e);
    Layout(bytes,
           if restart then l.restarts + [|l.bytes|] else l.restarts,
           if restart then l.starts + [|l.shared|] else l.starts,
           if restart then 1 else l.counter + 1,
           l.offsets + [|bytes|],
           l.shared + [shared])
  }

  function Built(es: seq<Pair>, interval: nat): Layout {
    if |es| == 0 then NO_ENTRIES else
      var n := |es| - 1;
      With(Built(es[..n], interval), KeyBefore(es, n), es[n], interval)
  }

  function FixedList(ws: seq<nat>): seq<Byte> {
    if |ws| == 0 then [] else FixedList(ws[..|ws| - 1]) + EncodeFixed32(ws[|ws| - 1] % WORD_LIMIT)
  }

  function BlockBytes(l: Layout): seq<Byte> {
    l.bytes + FixedList(l.restarts) + EncodeFixed32(|l.restarts| % WORD_LIMIT)
  }

  // ---- What the format determines ----

  /** Entry i lies between its offset and the next one, and takes from the key before it what the two share. */
  ghost predicate EntryIn(l: Layout, es: seq<Pair>, i: nat)
    requires i < |es| == |l.shared| && |l.offsets| == |es| + 1
  {
    l.offsets[i] < l.offsets[i + 1] <= |l.bytes| &&
    l.shared[i] <= |es[i].key| && l.shared[i] <= |KeyBefore(es, i)| &&
    KeyBefore(es, i)[..l.shared[i]] == es[i].key[..l.shared[i]] &&
    l.bytes[l.offsets[i]..l.offsets[i + 1]] == EntryBytes(l.shared[i], es[i])
  }

  /** Restart point r is where entry starts[r] begins, and that entry stores its key whole. */
  ghost predicate RestartIn(l: Layout, es: seq<Pair>, r: nat)
    requires r < |l.starts| == |l.restarts| && |es| == |l.shared| && |l.offsets| == |es| + 1
  {
    l.starts[r] <= |es| && l.restarts[r] == l.offsets[l.starts[r]] &&
    if l.starts[r] < |es| then l.shared[l.starts[r]] == 0 else r == 0 && |es| == 0
  }

  ghost predicate Laid(l: Layout, es: seq<Pair>) {
    |l.offsets| == |es| + 1 && |l.shared| == |es| && l.offsets[0] == 0 && l.offsets[|es|] == |l.bytes| &&
    |l.starts| == |l.restarts| > 0 && l.starts[0] == 0 &&
    (forall i | 0 <= i < |es| :: EntryIn(l, es, i)) &&
    (forall r | 0 <= r < |l.starts| :: RestartIn(l, es, r)) &&
    (forall q, r | 0 <= q < r < |l.starts| :: l.starts[q] < l.starts[r])
  }

  lemma {:induction false} EntryTakesSpace(shared: nat, e: Pair)
    requires shared <= |e.key|
    ensures |EntryBytes(shared, e)| > 0
  {
    assert |Varint(shared)| > 0;
  }

  lemma {:induction false} EntryStays(l: Layout, l': Layout, es: seq<Pair>, e: Pair, i: nat)
    requires Laid(l, es) && i < |es| && l.bytes <= l'.bytes && |l'.offsets| == |es| + 2 && |l'.shared| == |es| + 1
    requires l.offsets <= l'.offsets && l.shared <= l'.shared
    ensures EntryIn(l', es + [e], i)
  {
    assert EntryIn(l, es, i);
    assert l'.bytes[l.offsets[i]..l.offsets[i + 1]] == l.bytes[l.offsets[i]..l.offsets[i + 1]];
    assert KeyBefore(es + [e], i) == KeyBefore(es, i);
  }

  lemma {:induction false} WithLaid(l: Layout, es: seq<Pair>, e: Pair, interval: nat)
    requires Laid(l, es) && (l.counter < interval || |es| > 0)
    ensures Laid(With(l, KeyBefore(es, |es|), e, interval), es + [e])
  {
    var l' := With(l, KeyBefore(es, |es|), e, interval);
    var n := |es|;
    EntryTakesSpace(l'.shared[n], e);
    forall i | 0 <= i < n + 1 ensures EntryIn(l', es + [e], i) {
      if i < n {
        EntryStays(l, l', es, e, i);
      } else {
        assert l'.bytes[l'.offsets[n]..l'.offsets[n + 1]] == EntryBytes(l'.shared[n], e);
      }
    }
    forall r | 0 <= r < |l'.starts| ensures RestartIn(l', es + [e], r) {
      if r < |l.starts| { assert RestartIn(l, es, r); }
    }
    forall q, r | 0 <= q < r < |l'.starts| ensures l'.starts[q] < l'.starts[r] {
      assert RestartIn(l, es, q);
    }
  }

  lemma {:induction false} BuiltSnoc(es: seq<Pair>, interval: nat, e: Pair)
    ensures Built(es + [e], interval) == With(Built(es, interval), KeyBefore(es, |es|), e, interval)
  {
    assert (es + [e])[..|es|] == es;
    assert KeyBefore(es + [e], |es|) == KeyBefore(es, |es|);
  }

  lemma {:induction false} SnocLaid(es: seq<Pair>, interval: nat, e: Pair)
    requires interval > 0 && Laid(Built(es, interval), es) && (|es| == 0 ==> Built(es, interval) == NO_ENTRIES)
    ensures Laid(Built(es + [e], interval), es + [e])
  {
    BuiltSnoc(es, interval, e);
    WithLaid(Built(es, interval), es, e, interval);
  }

  lemma {:induction false} BuiltLaid(es: seq<Pair>, interval: nat)
    requires interval > 0
    ensures Laid(Built(es, interval), es) && (|es| == 0 ==> Built(es, interval) == NO_ENTRIES)
    decreases |es|
  {
    if |es| == 0 {
      assert es == [] && Laid(NO_ENTRIES, []);
    } else {
      var before, e := es[..|es| - 1], es[|es| - 1];
      BuiltLaid(before, interval);
      SnocLaid(before, interval, e);
      assert before + [e] == es;
    }
  }

  lemma {:induction false} OffsetsOrdered(l: Layout, es: seq<Pair>, i: nat, j: nat)
    requires Laid(l, es) && i <= j <= |es|
    ensures l.offsets[i] <= l.offsets[j] <= |l.bytes| && (i < j ==> l.offsets[i] < l.offsets[j])
  {
    if i < j {
      OffsetsOrdered(l, es, i, j - 1);
      assert EntryIn(l, es, j - 1);
    } else if j < |es| {
      assert EntryIn(l, es, j);
    }
  }

  // ---- Building ----

  ghost predicate Holding(buffer: seq<Byte>, restarts: seq<nat>, counter: nat, lastKey: seq<Byte>, es: seq<Pair>,
                          interval: nat) {
    var l := Built(es, interval);
    buffer == l.bytes && restarts == l.restarts && counter == l.counter && lastKey == KeyBefore(es, |es|)
  }

  class BlockBuilder {
    const interval: nat
    var buffer: seq<Byte>
    var restarts: seq<nat>
    var counter: nat
    var finished: bool
    var lastKey: seq<Byte>
    ghost var entries: seq<Pair>

    ghost predicate Ok()
      reads this
    {
      interval > 0 && !finished && Holding(buffer, restarts, counter, lastKey, entries, interval)
    }

    constructor (interval: nat)
      requires interval > 0
      ensures Ok() && entries == [] && this.interval == interval
    {
      this.interval := interval;
      buffer, restarts, counter, finished, lastKey, entries := [], [0], 0, false, [], [];
    }

    method Reset()
      requires interval > 0
      modifies this
      ensures Ok() && entries == []
    {
      buffer, restarts, counter, finished, lastKey, entries := [], [0], 0, false, [], [];
    }

    method Add(key: seq<Byte>, value: seq<Byte>)
      requires Ok() && |key| < WORD_LIMIT && |value| < WORD_LIMIT
      modifies this
      ensures Ok() && entries == old(entries) + [Pair(key, value)]
    {
      ghost var e := Pair(key, value);
      buffer, restarts, counter := ExtendBuilt(buffer, restarts, counter, interval, lastKey, key, value, entries);
      lastKey := key;
      entries := entries + [e];
    }

    method Finish() returns (block: seq<Byte>)
      requires Ok()
      modifies this
      ensures block == BlockBytes(Built(entries, interval)) && entries == old(entries) && finished
    {
      for i := 0 to |restarts|
        invariant restarts == old(restarts) && entries == old(entries)
        invariant buffer == old(buffer) + FixedList(restarts[..i])
        modifies `buffer
      {
        assert restarts[..i + 1][..i] == restarts[..i];
        Regroup(old(buffer), FixedList(restarts[..i]), EncodeFixed32(restarts[i] % WORD_LIMIT));
        buffer := buffer + EncodeFixed32(restarts[i] % WORD_LIMIT);
      }
      assert restarts[..|restarts|] == restarts;
      buffer := buffer + EncodeFixed32(|restarts| % WORD_LIMIT);
      finished := true;
      block := buffer;
    }
  }

  method ExtendBuilt(buffer: seq<Byte>, restarts: seq<nat>, counter: nat, interval: nat, lastKey: seq<Byte>,
                     key: seq<Byte>, value: seq<Byte>, ghost es: seq<Pair>)
    returns (buffer': seq<Byte>, restarts': seq<nat>, counter': nat)
    requires |key| < WORD_LIMIT && |value| < WORD_LIMIT && Holding(buffer, restarts, counter, lastKey, es, interval)
    ensures Holding(buffer', restarts', counter', key, es + [Pair(key, value)], interval)
  {
    BuiltSnoc(es, interval, Pair(key, value));
    buffer', restarts', counter' :=
      Extend(buffer, restarts, counter, interval, lastKey, key, value, Built(es, interval));
  }

  /** One more entry: shared with the last key, or behind a new restart point. */
  method Extend(buffer: seq<Byte>, restarts: seq<nat>, counter: nat, interval: nat, lastKey: seq<Byte>, key: seq<Byte>,
                value: seq<Byte>, ghost l: Layout)
    returns (buffer': seq<Byte>, restarts': seq<nat>, counter': nat)
    requires |key| < WORD_LIMIT && |value| < WORD_LIMIT
    requires buffer == l.bytes && restarts == l.restarts && counter == l.counter
    ensures var l' := With(l, lastKey, Pair(key, value), interval);
      buffer' == l'.bytes && restarts' == l'.restarts && counter' == l'.counter
  {
    var shared := 0;
    restarts', counter' := restarts, counter;
    if counter < interval {
      shared := CommonPrefix(lastKey, key);
    } else {
      restarts' := restarts + [|buffer|];
      counter' := 0;
    }
    buffer' := AppendEntry(buffer, shared, key, value);
    counter' := counter' + 1;
  }

  /** The lengths, the part of the key that is not shared, and the value. */
  method AppendEntry(buffer: seq<Byte>, shared: nat, key: seq<Byte>, value: seq<Byte>) returns (r: seq<Byte>)
    requires shared <= |key| < WORD_LIMIT && |value| < WORD_LIMIT
    ensures r == buffer + EntryBytes(shared, Pair(key, value))
  {
    r := PutVarint32(buffer, shared);
    r := PutVarint32(r, |key| - shared);
    r := PutVarint32(r, |value|);
    r := r + key[shared..];
    r := r + value;
    Grouped(buffer, shared, Pair(key, value));
  }

  /** The first part of one key and the rest of another that agrees with it there. */
  function Resized(last: seq<Byte>, shared: nat, key: seq<Byte>): (r: seq<Byte>)
    requires shared <= |last| && shared <= |key| && last[..shared] == key[..shared]
    ensures r == key
  {
    last[..shared] + key[shared..]
  }

  method CommonPrefix(a: seq<Byte>, b: seq<Byte>) returns (shared: nat)
    ensures shared == Shared(a, b)
  {
    var minLength := if |a| < |b| then |a| else |b|;
    shared := 0;
    while shared < minLength && a[shared] == b[shared]
      invariant shared <= minLength && Shared(a, b) == shared + Shared(a[shared..], b[shared..])
    {
      assert a[shared..][1..] == a[shared + 1..] && b[shared..][1..] == b[shared + 1..];
      shared := shared + 1;
    }
  }

  lemma {:induction false} Grouped(buffer: seq<Byte>, shared: nat, e: Pair)
    requires shared <= |e.key|
    ensures buffer + EntryBytes(shared, e) ==
      buffer + Varint(shared) + Varint(|e.key| - shared) + Varint(|e.value|) + e.key[shared..] + e.value
  {
  }

  // ---- Reading ----

  lemma {:induction false} FixedListAt(ws: seq<nat>, i: nat)
    requires i < |ws|
    ensures |FixedList(ws)| == 4 * |ws| && FixedList(ws)[4 * i..4 * i + 4] == EncodeFixed32(ws[i] % WORD_LIMIT)
  {
    var n := |ws| - 1;
    FixedListLength(ws[..n]);
    if i < n {
      FixedListAt(ws[..n], i);
      assert FixedList(ws)[4 * i..4 * i + 4] == FixedList(ws[..n])[4 * i..4 * i + 4];
    }
  }

  lemma {:induction false} FixedListLength(ws: seq<nat>)
    ensures |FixedList(ws)| == 4 * |ws|
  {
    if |ws| > 0 { FixedListLength(ws[..|ws| - 1]); }
  }

  datatype Lengths = Lengths(shared: nat, nonShared: nat, valueLength: nat, header: nat)

  /** The three lengths at the start of an entry, and how many bytes they take. */
  function ReadLengths(input: seq<Byte>): (r: Option<Lengths>)
    ensures r.Some? ==> 0 < r.value.header <= |input|
    ensures r.Some? ==>
      r.value.shared < WORD_LIMIT && r.value.nonShared < WORD_LIMIT && r.value.valueLength < WORD_LIMIT
  {
    var r1 := GetVarint32(input);
    if r1.None? then None else
      var r2 := GetVarint32(r1.value.1);
      if r2.None? then None else
        var r3 := GetVarint32(r2.value.1);
        if r3.None? then None
        else Some(Lengths(r1.value.0, r2.value.0, r3.value.0, |input| - |r3.value.1|))
  }

  /** What an entry at the start of the input decodes to. The two lengths are added as 32-bit words. */
  function Decoded(input: seq<Byte>): (r: Option<Lengths>)
    ensures r.Some? ==> 0 < r.value.header <= |input|
  {
    if |input| < 3 then None else
      var r := ReadLengths(input);
      if r.None? ||
        (|input| - r.value.header) % WORD_LIMIT < (r.value.nonShared + r.value.valueLength) % WORD_LIMIT then None
      else r
  }

  /** The lengths of an entry are so large that their sum does not fit into a word, yet it is accepted. */
  ghost predicate Wraps(input: seq<Byte>) {
    Decoded(input).Some? && Decoded(input).value.nonShared + Decoded(input).value.valueLength >= WORD_LIMIT
  }

  /** An entry that is accepted lies within the input exactly if its lengths do not wrap. */
  lemma {:induction false} AcceptedInside(input: seq<Byte>)
    requires |input| < WORD_LIMIT && Decoded(input).Some?
    ensures var d := Decoded(input).value;
      d.header + d.nonShared + d.valueLength <= |input| <==> !Wraps(input)
  {
    var d := Decoded(input).value;
    NoWrap(|input| - d.header);
    if d.nonShared + d.valueLength < WORD_LIMIT { NoWrap(d.nonShared + d.valueLength); }
  }

  lemma {:induction false} NoWrap(n: nat)
    requires n < WORD_LIMIT
    ensures n % WORD_LIMIT == n
  {
  }

  /** Eight bytes that are accepted as an entry of more than four billion. */
  lemma {:induction false} WrappedLengths() returns (input: seq<Byte>)
    ensures |input| == 8 && Wraps(input)
  {
    input := [0, 0xFF, 0xFF, 0xFF, 0xFF, 0x0F, 2, 0];
    assert Varint(0xFFFF_FFFF) == [0xFF, 0xFF, 0xFF, 0xFF, 0x0F] by { VarintUnrolled(0xFFFF_FFFF); }
    assert Varint(0) == [0] && Varint(2) == [2];
    assert input == Header(0, 0xFFFF_FFFF, 2) + [0];
    LengthsOf(0, 0xFFFF_FFFF, 2, [0]);
  }

  /** Three bytes below 128 are read at once. */
  method DecodeEntry(input: seq<Byte>) returns (r: Option<Lengths>)
    ensures r == Decoded(input)
  {
    if |input| < 3 {
      return None;
    }
    var lengths;
    if input[0] < 0x80 && input[1] < 0x80 && input[2] < 0x80 {
      OneByteEach(input);
      lengths := Lengths(input[0] as nat, input[1] as nat, input[2] as nat, 3);
    } else {
      var slow := DecodeLengths(input);
      if slow.None? {
        return None;
      }
      lengths := slow.value;
    }
    if (|input| - lengths.header) % WORD_LIMIT < (lengths.nonShared + lengths.valueLength) % WORD_LIMIT {
      return None;
    }
    r := Some(lengths);
  }

  method DecodeLengths(input: seq<Byte>) returns (r: Option<Lengths>)
    ensures r == ReadLengths(input)
  {
    var r1 := GetVarintPtr(input, 5);
    if r1.None? {
      return None;
    }
    var r2 := GetVarintPtr(r1.value.1, 5);
    if r2.None? {
      return None;
    }
    var r3 := GetVarintPtr(r2.value.1, 5);
    if r3.None? {
      return None;
    }
    r := Some(Lengths(r1.value.0 % WORD_LIMIT, r2.value.0 % WORD_LIMIT, r3.value.0 % WORD_LIMIT,
      |input| - |r3.value.1|));
  }

  lemma {:induction false} OneByteEach(input: seq<Byte>)
    requires |input| >= 3 && input[0] < 0x80 && input[1] < 0x80 && input[2] < 0x80
    ensures ReadLengths(input) == Some(Lengths(input[0] as nat, input[1] as nat, input[2] as nat, 3))
  {
    assert GetVarint32(input) == Some((input[0] as nat, input[1..]));
    assert GetVarint32(input[1..]) == Some((input[1] as nat, input[1..][1..]));
    assert input[1..][1..] == input[2..];
    assert GetVarint32(input[2..]) == Some((input[2] as nat, input[2..][1..]));
  }

  lemma {:induction false} LengthsOf(shared: nat, nonShared: nat, valueLength: nat, rest: seq<Byte>)
    requires shared < WORD_LIMIT && nonShared < WORD_LIMIT && valueLength < WORD_LIMIT
    ensures var h := Header(shared, nonShared, valueLength);
      |h| >= 3 && ReadLengths(h + rest) == Some(Lengths(shared, nonShared, valueLength, |h|))
  {
    var rest2 := Varint(valueLength) + rest;
    var rest1 := Varint(nonShared) + rest2;
    assert Header(shared, nonShared, valueLength) + rest == Varint(shared) + rest1;
    GetPutVarint(shared, rest1);
    GetPutVarint(nonShared, rest2);
    GetPutVarint(valueLength, rest);
    assert |Varint(shared)| > 0 && |Varint(nonShared)| > 0 && |Varint(valueLength)| > 0;
  }

  /** What was written decodes. */
  lemma {:induction false} DecodedOf(shared: nat, e: Pair, tail: seq<Byte>)
    requires shared <= |e.key| < WORD_LIMIT && |EntryBytes(shared, e) + tail| < WORD_LIMIT
    ensures Decoded(EntryBytes(shared, e) + tail) ==
      Some(Lengths(shared, |e.key| - shared, |e.value|, |Header(shared, |e.key| - shared, |e.value|)|))
    ensures !Wraps(EntryBytes(shared, e) + tail)
  {
    var h, rest := Header(shared, |e.key| - shared, |e.value|), e.key[shared..] + e.value + tail;
    assert EntryBytes(shared, e) + tail == h + rest;
    LengthsOf(shared, |e.key| - shared, |e.value|, rest);
    NoWrap(|rest|);
    NoWrap(|e.key| - shared + |e.value|);
  }

  // ---- Where things are in a block ----

  lemma {:induction false} SliceOf(data: seq<Byte>, from: nat, to: nat, a: nat, b: nat)
    requires a <= b && from + b <= to <= |data|
    ensures data[from..to][a..b] == data[from + a..from + b]
  {
    forall k | 0 <= k < b - a ensures data[from..to][a..b][k] == data[from + a..from + b][k] {
      assert data[from..to][a..b][k] == data[from..to][a + k] == data[from + (a + k)];
    }
  }

  /** The parts of an entry at the start of the input. */
  lemma {:induction false} EntryParts(input: seq<Byte>, shared: nat, e: Pair, tail: seq<Byte>)
    requires shared <= |e.key| && input == EntryBytes(shared, e) + tail
    ensures var h := |Header(shared, |e.key| - shared, |e.value|)|;
      h + (|e.key| - shared) + |e.value| == |EntryBytes(shared, e)| <= |input| &&
      input[h..h + |e.key| - shared] == e.key[shared..] &&
      input[h + |e.key| - shared..h + |e.key| - shared + |e.value|] == e.value
  {
    var head := Header(shared, |e.key| - shared, |e.value|);
    assert input == head + e.key[shared..] + e.value + tail;
  }

  lemma {:induction false} Middle(a: seq<Byte>, b: seq<Byte>, c: seq<Byte>, i: nat, n: nat)
    requires i + n <= |b|
    ensures (a + b + c)[|a| + i..|a| + i + n] == b[i..i + n]
  {
  }

  lemma {:induction false} WordStored(a: seq<Byte>, b: seq<Byte>, c: seq<Byte>, o: nat, w: nat)
    requires w < WORD_LIMIT && o + 4 <= |b| && b[o..o + 4] == EncodeFixed32(w % WORD_LIMIT)
    ensures DecodeFixed32((a + b + c)[|a| + o..|a| + o + 4]) == w
  {
    NoWrap(w);
    DecodeEncodeFixed32(w);
    Middle(a, b, c, o, 4);
  }

  lemma {:induction false} ListStored(a: seq<Byte>, ws: seq<nat>, c: seq<Byte>, r: nat)
    requires r < |ws| && ws[r] < WORD_LIMIT && |c| == 4
    ensures |a + FixedList(ws) + c| == |a| + 4 * |ws| + 4
    ensures DecodeFixed32((a + FixedList(ws) + c)[|a| + 4 * r..|a| + 4 * r + 4]) == ws[r]
  {
    FixedListAt(ws, r);
    WordStored(a, FixedList(ws), c, 4 * r, ws[r]);
  }

  /** Where the parts of an entry are in the block. */
  lemma {:induction false} PartsIn(block: seq<Byte>, from: nat, to: nat, shared: nat, e: Pair, tail: seq<Byte>)
    requires from <= to <= |block| && shared <= |e.key| && block[from..to] == EntryBytes(shared, e) + tail
    ensures var p := from + |Header(shared, |e.key| - shared, |e.value|)|;
      var q := p + (|e.key| - shared);
      q + |e.value| == from + |EntryBytes(shared, e)| <= to && block[p..q] == e.key[shared..] &&
        block[q..q + |e.value|] == e.value
  {
    EntryParts(block[from..to], shared, e, tail);
    var h, m := |Header(shared, |e.key| - shared, |e.value|)|, |e.key| - shared;
    SliceOf(block, from, to, h, h + m);
    SliceOf(block, from, to, h + m, h + m + |e.value|);
  }
}
