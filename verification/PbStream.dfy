/** Input streams, and the primitive decoders that run on them. */
module PbStream {
  import opened Format
  import opened Coding
  import opened PbCommon
  import opened PbWire

  const WORD_LIMIT: nat := 0x1_0000_0000
  const SIZE_LIMIT: nat := 0x1_0000_0000_0000_0000

  /** An input stream over a part of a buffer. */
  class IStream {
    const buf: seq<Byte>
    var state: nat
    var bytesLeft: nat

    ghost predicate Ok()
      reads this
    {
      state + bytesLeft <= |buf|
    }

    ghost function Rest(): seq<Byte>
      requires Ok()
      reads this
    {
      buf[state..state + bytesLeft]
    }

    ghost function End(): nat
      reads this
    {
      state + bytesLeft
    }

    constructor (buf: seq<Byte>, state: nat, size: nat)
      requires state + size <= |buf|
      ensures Ok() && this.buf == buf && this.state == state && bytesLeft == size
    {
      this.buf, this.state, bytesLeft := buf, state, size;
    }

    method Read(count: nat) returns (ok: bool, data: seq<Byte>)
      requires Ok()
      modifies this
      ensures Ok() && End() == old(End()) && ok == (count <= old(bytesLeft))
      ensures ok ==>
        data == old(Rest())[..count] && Rest() == old(Rest())[count..] && bytesLeft == old(bytesLeft) - count
      ensures !ok ==> data == [] && bytesLeft == old(bytesLeft)
    {
      if bytesLeft < count {
        return false, [];
      }
      data := buf[state..state + count];
      state := state + count;
      bytesLeft := bytesLeft - count;
      ok := true;
    }

    method ReadByte() returns (ok: bool, b: Byte)
      requires Ok()
      modifies this
      ensures Ok() && End() == old(End()) && ok == (old(bytesLeft) > 0)
      ensures ok ==> old(Rest()) == [b] + Rest() && bytesLeft == old(bytesLeft) - 1
      ensures !ok ==> bytesLeft == 0
    {
      if bytesLeft == 0 {
        return false, 0;
      }
      b := buf[state];
      state := state + 1;
      bytesLeft := bytesLeft - 1;
      ok := true;
    }
  }

  /** A group of seven bits with its place, added to the groups before it. */
  lemma {:induction false} TakeGroup(result: nat, scale: nat, q: nat, limit: nat)
    requires result + scale * q < limit
    ensures result + scale * q == (result + q % 0x80 * scale) + (scale * 0x80) * (q / 0x80)
    ensures result + q % 0x80 * scale < limit && (result + q % 0x80 * scale) % limit == result + q % 0x80 * scale
  {
    var high: nat := q / 0x80;
    assert q == q % 0x80 + 0x80 * high;
    assert scale * (q % 0x80 + 0x80 * high) == scale * (q % 0x80) + scale * 0x80 * high;
    assert scale * 0x80 * high >= 0;
    Small(result + q % 0x80 * scale, limit);
  }

  lemma {:induction false} Small(n: nat, limit: nat)
    requires n < limit
    ensures n % limit == n
  {
  }

  /** The place of a group that is still within a 32-bit word. */
  predicate ScaleAt(bitpos: int, scale: nat) {
    (bitpos == 7 && scale == 0x80) || (bitpos == 14 && scale == 0x4000) ||
    (bitpos == 21 && scale == 0x20_0000) || (bitpos == 28 && scale == 0x1000_0000)
  }

  /** At most 32 bits; longer forms are accepted if they repeat the sign. */
  method DecodeVarint32(s: IStream, ghost v: nat, ghost tail: seq<Byte>) returns (ok: bool, dest: nat, eof: bool)
    requires s.Ok()
    modifies s
    ensures s.Ok() && s.End() == old(s.End()) && s.bytesLeft <= old(s.bytesLeft) &&
      (ok ==> s.bytesLeft < old(s.bytesLeft)) && dest < WORD_LIMIT
    ensures eof == (old(s.bytesLeft) == 0)
    ensures v < WORD_LIMIT && old(s.Rest()) == Varint(v) + tail ==> ok && dest == v && s.Rest() == tail
  {
    ghost var expected := v < WORD_LIMIT && s.Rest() == Varint(v) + tail;
    var b;
    dest, eof := 0, false;
    ok, b := s.ReadByte();
    if !ok {
      eof := true;
      return;
    }
    if expected { VarintHead(v, tail, b, s.Rest()); }
    if b < 0x80 {
      dest := b as nat;
      return;
    }
    var bitpos;
    ok, dest, bitpos, b := DecodeGroups(s, b as nat - 0x80, v, tail);
    // The last byte of five lies at bit 28, where only four bits fit.
    if ok && bitpos == 35 && b / 0x10 % 8 != 0 {
      ok := false;
    }
  }

  /** The groups behind the first one. */
  method DecodeGroups(s: IStream, first: nat, ghost v: nat, ghost tail: seq<Byte>)
    returns (ok: bool, result: nat, bitpos: nat, b: Byte)
    requires s.Ok() && first < 0x80
    modifies s
    ensures s.Ok() && s.End() == old(s.End()) && s.bytesLeft <= old(s.bytesLeft) && result < WORD_LIMIT
    ensures 0x80 <= v < WORD_LIMIT && first == v % 0x80 && old(s.Rest()) == Varint(v / 0x80) + tail ==>
      ok && result == v && s.Rest() == tail && (bitpos == 35 ==> b < 0x10)
  {
    ghost var expected := 0x80 <= v < WORD_LIMIT && first == v % 0x80 && s.Rest() == Varint(v / 0x80) + tail;
    var scale: nat := 0x80;
    bitpos, result := 7, first;
    ghost var q: nat := v / 0x80;
    while true
      invariant s.Ok() && s.End() == old(s.End()) && s.bytesLeft <= old(s.bytesLeft) && result < WORD_LIMIT
      invariant expected ==> s.Rest() == Varint(q) + tail && v == result + scale * q && ScaleAt(bitpos, scale)
      decreases s.bytesLeft
    {
      ok, b := s.ReadByte();
      if !ok {
        return;
      }
      if expected {
        VarintHead(q, tail, b, s.Rest());
        TakeGroup(result, scale, q, WORD_LIMIT);
      }
      if bitpos >= 32 {
        var signExtension: Byte := if bitpos < 63 then 0xFF else 0x01;
        if b as nat % 0x80 != 0 && (result < 0x8000_0000 || b != signExtension) {
          ok := false;
          return;
        }
      } else {
        result := (result + b as nat % 0x80 * scale) % WORD_LIMIT;
      }
      bitpos := bitpos + 7;
      scale := scale * 0x80;
      q := q / 0x80;
      if b < 0x80 {
        break;
      }
    }
  }

  method DecodeVarint(s: IStream, ghost v: nat, ghost tail: seq<Byte>) returns (ok: bool, dest: nat)
    requires s.Ok()
    modifies s
    ensures s.Ok() && s.End() == old(s.End()) && s.bytesLeft <= old(s.bytesLeft) &&
      (ok ==> s.bytesLeft < old(s.bytesLeft)) && dest < SIZE_LIMIT
    ensures v < SIZE_LIMIT && old(s.Rest()) == Varint(v) + tail ==> ok && dest == v && s.Rest() == tail
  {
    ghost var expected := v < SIZE_LIMIT && s.Rest() == Varint(v) + tail;
    WidthsFit(v);
    var bitpos, scale: nat, result: nat := 0, 1, 0;
    ghost var q: nat, n: nat := v, 10;
    dest := 0;
    while true
      invariant s.Ok() && s.End() == old(s.End()) && s.bytesLeft <= old(s.bytesLeft) && result < SIZE_LIMIT
      invariant bitpos == 7 * (10 - n)
      invariant expected ==> s.Rest() == Varint(q) + tail && v == result + scale * q && FitsIn(q, n)
      decreases s.bytesLeft
    {
      if bitpos >= 64 {
        ok := false;
        return;
      }
      var b;
      ok, b := s.ReadByte();
      if !ok {
        return;
      }
      if expected {
        VarintHead(q, tail, b, s.Rest());
        TakeGroup(result, scale, q, SIZE_LIMIT);
      }
      result := (result + b as nat % 0x80 * scale) % SIZE_LIMIT;
      bitpos := bitpos + 7;
      scale := scale * 0x80;
      q := q / 0x80;
      n := n - 1;
      if b < 0x80 {
        break;
      }
    }
    dest := result;
  }

  /** A number of any size. */
  method SkipVarint(s: IStream, ghost v: nat, ghost tail: seq<Byte>) returns (ok: bool)
    requires s.Ok()
    modifies s
    ensures s.Ok() && s.End() == old(s.End()) && s.bytesLeft <= old(s.bytesLeft) &&
      (ok ==> s.bytesLeft < old(s.bytesLeft))
    ensures old(s.Rest()) == Varint(v) + tail ==> ok && s.Rest() == tail
  {
    ghost var expected := s.Rest() == Varint(v) + tail;
    ghost var q: nat := v;
    while true
      invariant s.Ok() && s.End() == old(s.End()) && s.bytesLeft <= old(s.bytesLeft)
      invariant expected ==> s.Rest() == Varint(q) + tail
      decreases s.bytesLeft
    {
      var b;
      ok, b := s.ReadByte();
      if ok && expected { VarintHead(q, tail, b, s.Rest()); }
      if !ok || b < 0x80 {
        return;
      }
      q := q / 0x80;
    }
  }

  /** What follows a tag with this wire type. */
  ghost predicate PayloadOf(wireType: nat, payload: seq<Byte>) {
    (wireType == 0 && exists v: nat :: payload == Varint(v)) ||
    (wireType == 1 && |payload| == 8) ||
    (wireType == 2 && exists w :: |w| < WORD_LIMIT && payload == LengthPrefixed(w)) ||
    (wireType == 5 && |payload| == 4)
  }

  /** Leaves the stream behind the field, whatever it holds. */
  method SkipField(s: IStream, wireType: nat, ghost payload: seq<Byte>, ghost tail: seq<Byte>) returns (ok: bool)
    requires s.Ok()
    modifies s
    ensures s.Ok() && s.End() == old(s.End()) && s.bytesLeft <= old(s.bytesLeft)
    ensures PayloadOf(wireType, payload) && old(s.Rest()) == payload + tail ==> ok && s.Rest() == tail
  {
    ghost var expected := PayloadOf(wireType, payload) && s.Rest() == payload + tail;
    var size, eof, data;
    if wireType == WT_VARINT {
      ghost var v: nat := 0;
      if expected { v :| payload == Varint(v); }
      ok := SkipVarint(s, v, tail);
    } else if wireType == WT_64BIT {
      ok, data := s.Read(8);
    } else if wireType == WT_STRING {
      ghost var w: seq<Byte> := [];
      if expected {
        w :| |w| < WORD_LIMIT && payload == LengthPrefixed(w);
        Regroup(Varint(|w|), w, tail);
      }
      ok, size, eof := DecodeVarint32(s, |w|, w + tail);
      if ok {
        ok, data := s.Read(size);
      }
    } else if wireType == WT_32BIT {
      ok, data := s.Read(4);
    } else {
      ok := false;
    }
  }

  lemma {:induction false} TagParts(tag: nat, wireType: nat)
    requires wireType < 8
    ensures (tag * 8 + wireType) / 8 == tag && (tag * 8 + wireType) % 8 == wireType
  {
  }

  /** A zero byte where a tag should be ends the message. */
  method DecodeTag(s: IStream, ghost wireType: nat, ghost tag: nat, ghost tail: seq<Byte>)
    returns (ok: bool, wireType': nat, tag': nat, eof: bool)
    requires s.Ok()
    modifies s
    ensures s.Ok() && s.End() == old(s.End()) && s.bytesLeft <= old(s.bytesLeft) &&
      (ok ==> s.bytesLeft < old(s.bytesLeft))
    ensures wireType < 8 && 0 < tag < TAG_LIMIT && old(s.Rest()) == TagBytes(tag, wireType) + tail ==>
      ok && wireType' == wireType && tag' == tag && s.Rest() == tail
  {
    var word;
    ghost var expected := wireType < 8 && 0 < tag < TAG_LIMIT && s.Rest() == TagBytes(tag, wireType) + tail;
    ok, word, eof := DecodeVarint32(s, tag * 8 + wireType, tail);
    if expected { TagParts(tag, wireType); }
    wireType', tag' := 0, 0;
    if ok && word == 0 {
      eof, ok := true, false;
    }
    if ok {
      tag', wireType' := word / 8, word % 8;
    }
  }

  /** Cuts off a part of the stream whose length comes first. The stream itself is set behind it when it is closed. */
  method MakeStringSubstream(s: IStream, ghost w: seq<Byte>, ghost tail: seq<Byte>)
    returns (ok: bool, substream: IStream)
    requires s.Ok()
    modifies s
    ensures s.Ok() && s.bytesLeft <= old(s.bytesLeft) && s.End() <= old(s.End())
    ensures ok ==>
      fresh(substream) && substream.Ok() && substream.buf == s.buf && substream.End() + s.bytesLeft == old(s.End())
    ensures |w| < WORD_LIMIT && old(s.Rest()) == LengthPrefixed(w) + tail ==>
      ok && substream.Rest() == w && s.buf[substream.End()..substream.End() + s.bytesLeft] == tail
  {
    var size, eof;
    ghost var expected := |w| < WORD_LIMIT && s.Rest() == LengthPrefixed(w) + tail;
    if expected { Regroup(Varint(|w|), w, tail); }
    ok, size, eof := DecodeVarint32(s, |w|, w + tail);
    substream := s;
    if !ok {
      return;
    }
    if s.bytesLeft < size {
      ok := false;
      return;
    }
    ghost var rest := s.Rest();
    substream := new IStream(s.buf, s.state, size);
    s.bytesLeft := s.bytesLeft - size;
    assert substream.Rest() == rest[..size];
    assert s.buf[substream.End()..substream.End() + s.bytesLeft] == rest[size..];
  }

  method CloseStringSubstream(s: IStream, substream: IStream) returns (ok: bool)
    requires s.Ok() && substream.Ok() && substream != s && substream.buf == s.buf &&
      substream.End() + s.bytesLeft <= |s.buf|
    modifies s, substream
    ensures s.Ok() && ok && s.bytesLeft == old(s.bytesLeft) && s.state == old(substream.End())
  {
    ok := true;
    if substream.bytesLeft > 0 {
      var data;
      ok, data := substream.Read(substream.bytesLeft);
      if !ok {
        return;
      }
    }
    s.state := substream.state;
  }
}
