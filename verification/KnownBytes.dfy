/** The formats byte by byte, with every number written out: what readers and writers elsewhere rely on. */
module KnownBytes {
  import opened Format
  import opened Coding
  import Log
  import EditCodec
  import Blocks

  // ---- Numbers ----

  function GroupsValue(bytes: seq<Byte>): nat {
    if |bytes| == 0 then 0 else bytes[0] as nat % 128 + 128 * GroupsValue(bytes[1..])
  }

  /** Groups of seven bits, the lowest first; all bytes but the last have the top bit set. */
  lemma {:induction false} VarintIs(v: nat)
    ensures |Varint(v)| > 0 && GroupsValue(Varint(v)) == v
    ensures forall i | 0 <= i < |Varint(v)| :: Varint(v)[i] >= 128 <==> i < |Varint(v)| - 1
  {
    if v < 128 {
      assert [v as Byte][1..] == [];
    } else {
      VarintIs(v / 128);
      var head: Byte := (v % 128 + 128) as Byte;
      assert Varint(v) == [head] + Varint(v / 128) && Varint(v)[1..] == Varint(v / 128);
      assert head as nat % 128 == v % 128;
    }
  }

  /** The lowest byte first. */
  lemma {:induction false} FixedIs(w: Word)
    ensures |EncodeFixed32(w)| == 4
    ensures w == EncodeFixed32(w)[0] as int + 256 * EncodeFixed32(w)[1] as int + 65536 * EncodeFixed32(w)[2] as int +
      16777216 * EncodeFixed32(w)[3] as int
  {
    DecodeEncodeFixed32(w);
  }

  /** A rotation by 15 bits to the right, and a constant. */
  lemma {:induction false} MaskIs()
    ensures Mask(0) == 0xa282_ead8 && Mask(1) == 0xa284_ead8 && Mask(0x8000) == 0xa282_ead9
    ensures Mask(0xffff_ffff) == 0xa282_ead7 && Mask(0x8000_0000) == 0xa283_ead8
  {
  }

  // ---- The log ----

  function Joined(frags: seq<Log.Fragment>): seq<Byte> {
    if |frags| == 0 then [] else frags[0].data + Joined(frags[1..])
  }

  /** The kinds of the fragments: 1 for a whole record; 2, then any number of 3, then 4 otherwise. */
  ghost predicate Kinds(frags: seq<Log.Fragment>, begin: bool) {
    |frags| > 0 &&
    (|frags| == 1 ==> frags[0].kind == if begin then 1 else 4) &&
    (|frags| > 1 ==>
      frags[0].kind == (if begin then 2 else 3) && frags[|frags| - 1].kind == 4 &&
      forall i | 0 < i < |frags| - 1 :: frags[i].kind == 3)
  }

  /** All fragments but the last fill their block of 32768 bytes. */
  ghost predicate Filling(frags: seq<Log.Fragment>, p: nat) {
    |frags| > 1 ==> Log.FragEnd(frags[0], p) % 32768 == 0 && Filling(frags[1..], Log.FragEnd(frags[0], p))
  }

  lemma {:induction false} FillsBlock(a: nat, n: nat)
    requires a % 32768 + 7 + n == 32768
    ensures (a + 7 + n) % 32768 == 0
  {
  }

  lemma {:induction false} OneFragment(f: Log.Fragment, begin: bool, p: nat)
    requires f.kind == if begin then 1 else 4
    ensures Joined([f]) == f.data && Kinds([f], begin) && Filling([f], p)
  {
    assert [f][1..] == [] && f.data + [] == f.data;
  }

  lemma {:induction false} MoreFragments(f: Log.Fragment, rest: seq<Log.Fragment>, begin: bool, p: nat)
    requires f.kind == (if begin then 2 else 3) && Kinds(rest, false)
    requires Log.FragEnd(f, p) % 32768 == 0 && Filling(rest, Log.FragEnd(f, p))
    ensures Joined([f] + rest) == f.data + Joined(rest) && Kinds([f] + rest, begin) && Filling([f] + rest, p)
  {
    var frags := [f] + rest;
    assert frags[1..] == rest && frags[|frags| - 1] == rest[|rest| - 1];
    forall i | 0 < i < |frags| - 1 ensures frags[i].kind == 3 {
      assert frags[i] == rest[i - 1];
    }
  }

  /** How a record at any place in the file is cut. */
  lemma {:induction false} RecordIs(data: seq<Byte>, begin: bool, p: nat)
    ensures var frags := Log.Split(data, begin, p);
      Joined(frags) == data && Kinds(frags, begin) && Filling(frags, p)
    decreases |data|, Log.Avail(p) == 0
  {
    Log.PadFacts(p);
    var n, f := Log.TakeOf(data, p), Log.NextFragment(data, begin, p);
    if n == |data| {
      OneFragment(f, begin, p);
      assert data[..n] == data;
    } else {
      RecordIs(data[n..], false, Log.FragEnd(f, p));
      FillsBlock(Log.AfterPad(p), n);
      MoreFragments(f, Log.Split(data[n..], false, Log.FragEnd(f, p)), begin, p);
      assert data[..n] + data[n..] == data;
    }
  }

  /** Where fewer than 7 bytes are left in a block they are zeros. */
  lemma {:induction false} PaddingIs(p: nat)
    ensures Log.AfterPad(p) == if p % 32768 > 32761 then (p / 32768 + 1) * 32768 else p
    ensures Log.PadLen(p) < 7 && forall b | b in Log.Zeros(Log.PadLen(p)) :: b == 0
  {
  }

  /** A fragment: the masked checksum of kind and data in 4 bytes, the length in 2, the kind in 1, and the data. */
  lemma {:induction false} FragmentIs(crc: Log.Crc, f: Log.Fragment)
    requires |f.data| < 0x1_0000 && Log.Composes(crc)
    ensures var bytes := Log.Physical(crc, f);
      |bytes| == 7 + |f.data| && bytes[..4] == EncodeFixed32(Mask(crc(0, [f.kind] + f.data))) &&
      |f.data| == bytes[4] as nat + 256 * bytes[5] as nat && bytes[6] == f.kind && bytes[7..] == f.data
  {
    DecodeEncodeFixed32(Mask(crc(crc(0, [f.kind]), f.data)));
    assert crc(crc(0, [f.kind]), f.data) == crc(0, [f.kind] + f.data);
  }

  /** A log of one short record. */
  lemma {:induction false} ShortLogIs(crc: Log.Crc, r: seq<Byte>)
    requires |r| <= 32761
    ensures Log.LogBytes(crc, [r]) == Log.Physical(crc, Log.Fragment(1, r))
  {
    var f := Log.Fragment(1, r);
    Log.PadFacts(0);
    assert r[..|r|] == r && Log.Split(r, true, 0) == [f];
    assert [r][1..] == [] && [f] + [] == [f] && [f][1..] == [];
    assert Log.Layout([r], 0) == [f];
    Log.LayoutFits([r], 0);
    Log.BytesCons(crc, [f], 0);
    assert Log.Zeros(0) == [];
  }

  // ---- Version edits ----

  /** The fields of a version edit: a tag, and what is behind it. */
  lemma {:induction false} FieldsAre(name: seq<Byte>, n: Number, level: nat, key: seq<Byte>, number: nat,
                                     f: EditCodec.FileMeta)
    requires level < 7
    ensures EditCodec.EncodeItem(EditCodec.Comparator(name)) == [1] + LengthPrefixed(name)
    ensures EditCodec.EncodeItem(EditCodec.LogNumber(n)) == [2] + Varint(n)
    ensures EditCodec.EncodeItem(EditCodec.NextFileNumber(n)) == [3] + Varint(n)
    ensures EditCodec.EncodeItem(EditCodec.LastSequence(n)) == [4] + Varint(n)
    ensures EditCodec.EncodeItem(EditCodec.CompactPointer(level, key)) == [5, level as Byte] + LengthPrefixed(key)
    ensures EditCodec.EncodeItem(EditCodec.DeletedFile(level, number)) == [6, level as Byte] + Varint(number)
    ensures EditCodec.EncodeItem(EditCodec.NewFile(level, f)) ==
      [7, level as Byte] + Varint(f.number) + Varint(f.size) + LengthPrefixed(f.smallest) + LengthPrefixed(f.largest)
    ensures EditCodec.EncodeItem(EditCodec.PrevLogNumber(n)) == [9] + Varint(n)
  {
    assert Varint(level) == [level as Byte];
    assert [5] + [level as Byte] == [5, level as Byte];
    assert [6] + [level as Byte] == [6, level as Byte];
    assert [7] + [level as Byte] == [7, level as Byte];
    Regroup([5], [level as Byte], LengthPrefixed(key));
    Regroup([6], [level as Byte], Varint(number));
    var tail := Varint(f.size) + (LengthPrefixed(f.smallest) + LengthPrefixed(f.largest));
    Regroup([7], [level as Byte], Varint(f.number) + tail);
    Regroup([7, level as Byte], Varint(f.number), tail);
    Regroup([7, level as Byte] + Varint(f.number), Varint(f.size),
      LengthPrefixed(f.smallest) + LengthPrefixed(f.largest));
    Regroup([7, level as Byte] + Varint(f.number) + Varint(f.size), LengthPrefixed(f.smallest),
      LengthPrefixed(f.largest));
  }

  /** The order in which they are written. */
  lemma {:induction false} OrderIs(name: seq<Byte>, a: Number, b: Number, c: Number, d: Number,
                                   pointer: (nat, seq<Byte>), deleted: (nat, nat), file: (nat, EditCodec.FileMeta))
    ensures EditCodec.Items(EditCodec.WireEdit(Some(name), Some(a), Some(b), Some(c), Some(d), [pointer], [deleted],
        [file])) ==
      [EditCodec.Comparator(name), EditCodec.LogNumber(a), EditCodec.PrevLogNumber(b), EditCodec.NextFileNumber(c),
       EditCodec.LastSequence(d), EditCodec.CompactPointer(pointer.0, pointer.1),
       EditCodec.DeletedFile(deleted.0, deleted.1), EditCodec.NewFile(file.0, file.1)]
  {
  }

  /** An edit with a log number, a next file number and a deleted file. */
  lemma {:induction false} EditIs()
    ensures EditCodec.Encode(EditCodec.CLEAR.(logNumber := Some(10), nextFileNumber := Some(300),
        deletedFiles := [(2, 12)])) == [2, 10, 3, 0xAC, 0x02, 6, 2, 12]
  {
    var edit := EditCodec.CLEAR.(logNumber := Some(10), nextFileNumber := Some(300), deletedFiles := [(2, 12)]);
    var a, b, c := EditCodec.LogNumber(10), EditCodec.NextFileNumber(300), EditCodec.DeletedFile(2, 12);
    assert EditCodec.Items(edit) == [a, b, c];
    ThreeItems(a, b, c);
    assert EditCodec.EncodeItem(a) == [2, 10] && EditCodec.EncodeItem(c) == [6, 2, 12];
    assert EditCodec.EncodeItem(b) == [3, 0xAC, 0x02] by { assert Varint(300) == [0xAC] + Varint(2); }
  }

  lemma {:induction false} ThreeItems(a: EditCodec.Item, b: EditCodec.Item, c: EditCodec.Item)
    ensures EditCodec.EncodeItems([a, b, c]) ==
      EditCodec.EncodeItem(a) + EditCodec.EncodeItem(b) + EditCodec.EncodeItem(c)
  {
    assert [a, b, c][1..] == [b, c] && [b, c][1..] == [c] && [c][1..] == [];
    assert EditCodec.EncodeItems([c]) == EditCodec.EncodeItem(c) + [];
    Regroup(EditCodec.EncodeItem(a), EditCodec.EncodeItem(b), EditCodec.EncodeItem(c));
  }

  // ---- Blocks ----

  /** Restart points are every so many entries; between them a key shares all it can with the key before it. */
  ghost predicate Spaced(l: Blocks.Layout, es: seq<Blocks.Pair>, interval: nat)
    requires interval > 0
  {
    |l.starts| == (if |es| == 0 then 1 else (|es| - 1) / interval + 1) &&
    (forall r {:trigger l.starts[r]} | 0 <= r < |l.starts| :: l.starts[r] == r * interval) && |l.shared| == |es| &&
    l.counter == (if |es| == 0 then 0 else (|es| - 1) % interval + 1) &&
    forall i | 0 <= i < |es| :: l.shared[i] == SharedAt(es, i, interval)
  }

  function SharedAt(es: seq<Blocks.Pair>, i: nat, interval: nat): nat
    requires interval > 0 && i < |es|
  {
    if i % interval == 0 then 0 else Blocks.Shared(Blocks.KeyBefore(es, i), es[i].key)
  }

  lemma {:induction false} SpacedStep(l: Blocks.Layout, es: seq<Blocks.Pair>, e: Blocks.Pair, interval: nat)
    requires interval > 0 && Spaced(l, es, interval) && (|es| == 0 ==> l == Blocks.NO_ENTRIES)
    ensures Spaced(Blocks.With(l, Blocks.KeyBefore(es, |es|), e, interval), es + [e], interval)
  {
    var n := |es|;
    var l' := Blocks.With(l, Blocks.KeyBefore(es, n), e, interval);
    var more := es + [e];
    Counting(n, interval);
    assert l.counter >= interval <==> n > 0 && n % interval == 0;
    if n == 0 { Divides(0, interval, 0, 0); }
    forall r {:trigger l'.starts[r]} | 0 <= r < |l'.starts| ensures l'.starts[r] == r * interval {
      if r < |l.starts| { assert l'.starts[r] == l.starts[r]; }
    }
    forall i | 0 <= i < |more| ensures l'.shared[i] == SharedAt(more, i, interval) {
      assert Blocks.KeyBefore(more, i) == Blocks.KeyBefore(es, i);
      if i < n { assert l'.shared[i] == l.shared[i] == SharedAt(es, i, interval); }
    }
  }

  lemma {:induction false} BuiltEmpty(es: seq<Blocks.Pair>, interval: nat)
    ensures |es| == 0 ==> Blocks.Built(es, interval) == Blocks.NO_ENTRIES
  {
  }

  lemma {:induction false} RestartsAre(es: seq<Blocks.Pair>, interval: nat)
    requires interval > 0
    ensures Spaced(Blocks.Built(es, interval), es, interval)
    decreases |es|
  {
    if |es| > 0 {
      var before, e := es[..|es| - 1], es[|es| - 1];
      RestartsAre(before, interval);
      BuiltEmpty(before, interval);
      SpacedStep(Blocks.Built(before, interval), before, e, interval);
      Blocks.BuiltSnoc(before, interval, e);
      assert before + [e] == es;
    }
  }

  /** Going from n entries to n + 1. */
  lemma {:induction false} Counting(n: nat, interval: nat)
    requires interval > 0
    ensures n > 0 ==> ((n - 1) % interval + 1 == interval <==> n % interval == 0)
    ensures n > 0 && n % interval != 0 ==>
      n / interval == (n - 1) / interval && n % interval == (n - 1) % interval + 1
    ensures n > 0 && n % interval == 0 ==> n / interval == (n - 1) / interval + 1 && n == n / interval * interval
  {
    if n > 0 {
      var q, r := (n - 1) / interval, (n - 1) % interval;
      assert n == interval * q + (r + 1);
      if r + 1 == interval {
        assert n == interval * (q + 1) + 0;
        Divides(n, interval, q + 1, 0);
      } else {
        Divides(n, interval, q, r + 1);
      }
    }
  }

  lemma {:induction false} Divides(n: nat, d: nat, q: nat, r: nat)
    requires d > 0 && n == d * q + r && r < d
    ensures n / d == q && n % d == r
  {
    var gap := n / d - q;
    assert n == d * (n / d) + n % d;
    assert d * gap == r - n % d;
    Multiples(d, gap);
  }

  lemma {:induction false} Multiples(d: int, gap: int)
    requires d >= 0
    ensures gap >= 1 ==> d * gap >= d
    ensures gap <= -1 ==> d * gap <= -d
  {
  }

  const AB := Blocks.Pair([97, 98], [120])
  const AC := Blocks.Pair([97, 99], [121, 122])

  lemma {:induction false} EntriesAre()
    ensures Blocks.EntryBytes(0, AB) == [0, 2, 1, 97, 98, 120]
    ensures Blocks.EntryBytes(1, AC) == [1, 1, 2, 99, 121, 122]
  {
  }

  lemma {:induction false} SharedIs()
    ensures Blocks.Shared([], AB.key) == 0 && Blocks.Shared(AB.key, AC.key) == 1
  {
  }

  lemma {:induction false} FirstIs()
    ensures Blocks.Built([AB], 16).bytes == [0, 2, 1, 97, 98, 120]
    ensures Blocks.Built([AB], 16).restarts == [0] && Blocks.Built([AB], 16).counter == 1
  {
    assert [AB][..0] == [];
    EntriesAre();
    SharedIs();
    assert [] + Blocks.EntryBytes(0, AB) == Blocks.EntryBytes(0, AB);
  }

  lemma {:induction false} SecondIs()
    ensures Blocks.Built([AB, AC], 16).bytes == [0, 2, 1, 97, 98, 120, 1, 1, 2, 99, 121, 122]
    ensures Blocks.Built([AB, AC], 16).restarts == [0]
  {
    assert [AB, AC][..1] == [AB];
    EntriesAre();
    SharedIs();
    FirstIs();
  }

  lemma {:induction false} OneRestart()
    ensures Blocks.FixedList([0]) == [0, 0, 0, 0] && EncodeFixed32(1) == [1, 0, 0, 0]
  {
    assert [0 as nat][..0] == [];
  }

  /** A block of two entries: "ab" with "x", and "ac" with "yz". */
  lemma {:induction false} BlockIs()
    ensures Blocks.BlockBytes(Blocks.Built([AB, AC], 16)) ==
      [0, 2, 1, 97, 98, 120, 1, 1, 2, 99, 121, 122, 0, 0, 0, 0, 1, 0, 0, 0]
  {
    SecondIs();
    OneRestart();
  }
}
