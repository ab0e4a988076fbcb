/** The encoder: one pass that only counts, one that writes. */
module PbEncode {
  import opened Format
  import opened Coding
  import opened PbCommon
  import opened PbWire

  const SIZE_LIMIT: nat := 0x1_0000_0000_0000_0000

  /** An output stream into a buffer, or one without a buffer that only counts. A substream shares the buffer. */
  class OStream {
    const buf: array?<Byte>
    const maxSize: nat
    var state: nat
    var bytesWritten: nat
    ghost const start: nat
    ghost var written: seq<Byte>

    ghost predicate Ok()
      reads this, buf
    {
      buf != null ==>
        bytesWritten <= maxSize && state + (maxSize - bytesWritten) <= buf.Length &&
        state == start + |written| && buf[start..state] == written
    }

    ghost predicate Room(n: nat)
      reads this
    {
      buf == null || bytesWritten + n <= maxSize
    }

    constructor Sizing()
      ensures Ok() && buf == null && bytesWritten == 0 && written == []
    {
      buf, maxSize, state, bytesWritten, start, written := null, 0, 0, 0, 0, [];
    }

    constructor FromBuffer(buf: array<Byte>)
      ensures Ok() && this.buf == buf && maxSize == buf.Length && bytesWritten == 0 && start == 0 && written == []
    {
      this.buf, maxSize, state, bytesWritten, start, written := buf, buf.Length, 0, 0, 0, [];
    }

    /** Continues a stream where it is, with room for a part only. */
    constructor Within(stream: OStream, size: nat)
      requires stream.Ok() && stream.buf != null && stream.Room(size)
      ensures Ok() && buf == stream.buf && start == stream.start && maxSize == size && bytesWritten == 0 &&
        written == stream.written
    {
      buf, maxSize, state, bytesWritten := stream.buf, size, stream.state, 0;
      start, written := stream.start, stream.written;
    }

    method Write(src: seq<Byte>) returns (ok: bool)
      requires Ok()
      modifies this, buf
      ensures Ok() && ok == old(Room(|src|))
      ensures ok ==> written == old(written) + src && bytesWritten == old(bytesWritten) + |src|
    {
      var count := |src|;
      if count > 0 && buf != null {
        if bytesWritten + count > maxSize {
          return false;
        }
        Copy(src);
      }
      bytesWritten := bytesWritten + count;
      written := written + src;
      ok := true;
    }

    method Copy(src: seq<Byte>)
      requires buf != null && state + |src| <= buf.Length
      modifies buf, `state
      ensures state == old(state) + |src|
      ensures buf[..] == old(buf[..state]) + src + old(buf[state + |src|..])
    {
      var dest := state;
      state := dest + |src|;
      for i := 0 to |src|
        invariant state == old(state) + |src| && buf[..] == old(buf[..state]) + src[..i] + old(buf[state + i..])
      {
        buf[dest + i] := src[i];
      }
    }

    /** Counts bytes without seeing them. */
    method Count(size: nat, ghost src: seq<Byte>)
      requires Ok() && buf == null && |src| == size
      modifies this
      ensures Ok() && written == old(written) + src && bytesWritten == old(bytesWritten) + size
    {
      bytesWritten := bytesWritten + size;
      written := written + src;
    }
  }

  method EncodeVarint(s: OStream, v: nat) returns (ok: bool)
    requires s.Ok() && v < SIZE_LIMIT
    modifies s, s.buf
    ensures s.Ok() && ok == old(s.Room(|Varint(v)|))
    ensures ok ==> s.written == old(s.written) + Varint(v) && s.bytesWritten == old(s.bytesWritten) + |Varint(v)|
  {
    if v <= 0x7F {
      ok := s.Write([v as Byte]);
      return;
    }
    var bytes := VarintGroups(v);
    ok := s.Write(bytes);
  }

  /** Group after group with the top bit set, which is cleared in the last one. */
  method VarintGroups(v: nat) returns (bytes: seq<Byte>)
    requires 0x80 <= v < SIZE_LIMIT
    ensures bytes == Varint(v)
  {
    WidthsFit(v);
    var buffer := new Byte[10];
    var i, value: nat := 0, v;
    while value != 0
      invariant 0 <= i <= 10
      invariant value > 0 ==> FitsIn(value, 10 - i) && buffer[..i] + Varint(value) == Varint(v)
      invariant value == 0 ==> i > 0 && buffer[i - 1] >= 0x80 && buffer[..i - 1] + [buffer[i - 1] - 0x80] == Varint(v)
    {
      buffer[i] := (value % 0x80 + 0x80) as Byte;
      value := value / 0x80;
      i := i + 1;
    }
    buffer[i - 1] := buffer[i - 1] - 0x80;
    assert buffer[..i] == buffer[..i - 1] + [buffer[i - 1]];
    bytes := buffer[..i];
  }

  method EncodeSvarint(s: OStream, n: int) returns (ok: bool)
    requires s.Ok() && -0x8000_0000_0000_0000 <= n < 0x8000_0000_0000_0000
    modifies s, s.buf
    ensures s.Ok() && ok == old(s.Room(|Varint(ZigZag(n))|))
    ensures ok ==>
      s.written == old(s.written) + Varint(ZigZag(n)) && s.bytesWritten == old(s.bytesWritten) + |Varint(ZigZag(n))|
  {
    // A negative number shifted left as an unsigned one, then inverted.
    var zigzagged := if n < 0 then 0xFFFF_FFFF_FFFF_FFFF - (2 * n + 0x1_0000_0000_0000_0000) else 2 * n;
    ok := EncodeVarint(s, zigzagged);
  }

  method EncodeTag(s: OStream, wireType: nat, tag: nat) returns (ok: bool)
    requires s.Ok() && tag < TAG_LIMIT && wireType < 8
    modifies s, s.buf
    ensures s.Ok() && ok == old(s.Room(|TagBytes(tag, wireType)|))
    ensures ok ==>
      s.written == old(s.written) + TagBytes(tag, wireType) &&
      s.bytesWritten == old(s.bytesWritten) + |TagBytes(tag, wireType)|
  {
    ok := EncodeVarint(s, tag * 8 + wireType);
  }

  method EncodeString(s: OStream, bytes: seq<Byte>) returns (ok: bool)
    requires s.Ok() && |bytes| < SIZE_LIMIT
    modifies s, s.buf
    ensures s.Ok() && ok == old(s.Room(|LengthPrefixed(bytes)|))
    ensures ok ==>
      s.written == old(s.written) + LengthPrefixed(bytes) &&
      s.bytesWritten == old(s.bytesWritten) + |LengthPrefixed(bytes)|
  {
    Regroup(s.written, Varint(|bytes|), bytes);
    ok := EncodeVarint(s, |bytes|);
    if ok {
      ok := s.Write(bytes);
    }
  }

  /** The encoders of the types that hold one number. */
  method EncodeNumber(s: OStream, lt: LType, n: int) returns (ok: bool)
    requires s.Ok() && lt.Packable() && TypedValue(lt, Num(n))
    modifies s, s.buf
    ensures s.Ok() && ok == old(s.Room(|NumberBytes(lt, n)|))
    ensures ok ==>
      s.written == old(s.written) + NumberBytes(lt, n) && s.bytesWritten == old(s.bytesWritten) + |NumberBytes(lt, n)|
  {
    match lt {
      case LBool => ok := EncodeVarint(s, if n != 0 then 1 else 0);
      case LVarint(_) =>
        if n < 0 { TwosComplementIs(n); }
        ok := EncodeVarint(s, if n < 0 then n + 0x1_0000_0000_0000_0000 else n);
      case LUVarint(_) => ok := EncodeVarint(s, n);
      case LSVarint(_) => ok := EncodeSvarint(s, n);
      case LFixed32 => ok := s.Write(EncodeFixed32(n));
      case LFixed64 => ok := s.Write(EncodeFixed64(n));
    }
  }

  /** One value without its tag. */
  method EncodeValue(s: OStream, lt: LType, v: Value) returns (ok: bool)
    requires s.Ok() && TypedValue(lt, v) && (lt.LSubmessage? ==> WellFormed(lt.fields)) &&
      |ValueBytes(lt, v)| < SIZE_LIMIT
    modifies s, s.buf
    ensures s.Ok() && ok == (EncodableValue(lt, v) && old(s.Room(|ValueBytes(lt, v)|)))
    ensures ok ==>
      s.written == old(s.written) + ValueBytes(lt, v) && s.bytesWritten == old(s.bytesWritten) + |ValueBytes(lt, v)|
    decreases lt, 0
  {
    if lt.LSubmessage? {
      ok := EncodeSubmessage(s, lt.fields, v.slots);
    } else if lt.Packable() {
      ok := EncodeNumber(s, lt, v.n);
    } else if lt.LBytes? && |v.bytes| > lt.capacity {
      ok := false;
    } else {
      ok := EncodeString(s, v.bytes);
    }
  }

  /** The size of a submessage is counted first; then a substream of just that size takes it. */
  method EncodeSubmessage(s: OStream, fields: seq<Field>, m: seq<Slot>) returns (ok: bool)
    requires s.Ok() && WellFormed(fields) && Typed(fields, m) && |LengthPrefixed(Wire(fields, m, 0))| < SIZE_LIMIT
    modifies s, s.buf
    ensures s.Ok() && ok == (Encodable(fields, m, 0) && old(s.Room(|LengthPrefixed(Wire(fields, m, 0))|)))
    ensures ok ==> s.written == old(s.written) + LengthPrefixed(Wire(fields, m, 0))
    ensures ok ==> s.bytesWritten == old(s.bytesWritten) + |LengthPrefixed(Wire(fields, m, 0))|
    decreases fields, 1
  {
    ghost var wire := Wire(fields, m, 0);
    Regroup(s.written, Varint(|wire|), wire);
    var sizes := new OStream.Sizing();
    ok := Encode(sizes, fields, m);
    if !ok {
      return;
    }
    var size := sizes.bytesWritten;
    ok := EncodeVarint(s, size);
    if !ok {
      return;
    }
    if s.buf == null {
      s.Count(size, wire);
      return;
    }
    ok := EncodeWithin(s, fields, m, size);
  }

  /** A substream takes the submessage; the stream goes on behind it. */
  method EncodeWithin(s: OStream, fields: seq<Field>, m: seq<Slot>, size: nat) returns (ok: bool)
    requires s.Ok() && s.buf != null && WellFormed(fields) && Typed(fields, m) && Encodable(fields, m, 0)
    requires size == |Wire(fields, m, 0)| < SIZE_LIMIT
    modifies s, s.buf
    ensures s.Ok() && ok == old(s.Room(size))
    ensures ok ==> s.written == old(s.written) + Wire(fields, m, 0) && s.bytesWritten == old(s.bytesWritten) + size
    decreases fields, 0, 1
  {
    if s.bytesWritten + size > s.maxSize {
      return false;
    }
    var substream := new OStream.Within(s, size);
    var status := Encode(substream, fields, m);
    s.bytesWritten := s.bytesWritten + substream.bytesWritten;
    s.state := substream.state;
    s.written := substream.written;
    if substream.bytesWritten != size {
      return false;
    }
    ok := status;
  }

  /** Whether a field would be left out if it had no flag. */
  method CheckProto3Default(f: Field, slot: Slot) returns (zero: bool)
    requires TypedSlot(f, slot) && WellFormedField(f)
    ensures zero == IsDefault(f, slot)
    decreases f
  {
    match f.htype {
      case Required => return false;
      case Repeated(counted, _) => return counted && |slot.items| == 0;
      case Oneof(_) => return slot.Unset?;
      case Optional(true) => return !slot.has;
      case Optional(false) =>
    }
    match f.ltype {
      case LBytes(_) | LString(_) => zero := |slot.value.bytes| == 0;
      case LFixedLengthBytes(size) => zero := size == 0;
      case LSubmessage(fields) => zero := CheckAllDefault(fields, slot.value.slots);
      case _ => zero := slot.value.n == 0;
    }
  }

  method CheckAllDefault(fields: seq<Field>, m: seq<Slot>) returns (zero: bool)
    requires WellFormed(fields) && Typed(fields, m)
    ensures zero == AllDefault(fields, m, 0)
    decreases fields
  {
    var iter := new FieldIter(fields);
    zero := true;
    var more := iter.Tag() != 0;
    ghost var k := 0;
    while more && zero
      invariant iter.Ok() && fresh(iter) && iter.fields == fields
      invariant if more then k == iter.pos < |fields| else zero ==> k >= |fields|
      invariant AllDefault(fields, m, 0) == (zero && AllDefault(fields, m, k))
      decreases |fields| - k
    {
      var f, slot := fields[iter.pos], m[iter.pData];
      assert TypedSlot(f, slot) && WellFormedField(f);
      zero := CheckProto3Default(f, slot);
      more := iter.Next();
      k := k + 1;
    }
  }

  lemma {:induction false} FixedSize(lt: LType, items: seq<Value>)
    requires forall v | v in items :: TypedValue(lt, v)
    ensures lt.LFixed32? ==> |PackedItems(lt, items)| == 4 * |items|
    ensures lt.LFixed64? ==> |PackedItems(lt, items)| == 8 * |items|
  {
    if |items| > 0 {
      assert TypedValue(lt, items[0]);
      FixedSize(lt, items[1..]);
    }
  }

  /** The items one after another, without tags. */
  method EncodeItems(s: OStream, f: Field, items: seq<Value>) returns (ok: bool)
    requires s.Ok() && WellFormedField(f) && f.ltype.Packable() && forall v | v in items :: TypedValue(f.ltype, v)
    requires |PackedItems(f.ltype, items)| < SIZE_LIMIT
    modifies s, s.buf
    ensures s.Ok() && ok == old(s.Room(|PackedItems(f.ltype, items)|))
    ensures ok ==> s.written == old(s.written) + PackedItems(f.ltype, items)
    ensures ok ==> s.bytesWritten == old(s.bytesWritten) + |PackedItems(f.ltype, items)|
    decreases f, 0, 0
  {
    var i := 0;
    while i < |items|
      invariant 0 <= i <= |items| && s.Ok()
      invariant s.written + PackedItems(f.ltype, items[i..]) == old(s.written) + PackedItems(f.ltype, items)
      invariant s.bytesWritten >= old(s.bytesWritten) &&
        s.bytesWritten + |PackedItems(f.ltype, items[i..])| == old(s.bytesWritten) + |PackedItems(f.ltype, items)|
      invariant i == |items| ==> old(s.Room(|PackedItems(f.ltype, items)|))
    {
      ghost var item, rest := PackedStep(f.ltype, items, i);
      Regroup(s.written, item, rest);
      ok := EncodeValue(s, f.ltype, items[i]);
      if !ok {
        return;
      }
      i := i + 1;
    }
    ok := true;
  }

  method EncodeArray(s: OStream, f: Field, items: seq<Value>) returns (ok: bool)
    requires s.Ok() && WellFormedField(f) && TypedSlot(f, Many(items)) && |FieldBytes(f, Many(items))| < SIZE_LIMIT
    modifies s, s.buf
    ensures s.Ok() && ok == (EncodableSlot(f, Many(items)) && old(s.Room(|FieldBytes(f, Many(items))|)))
    ensures ok ==> s.written == old(s.written) + FieldBytes(f, Many(items))
    ensures ok ==> s.bytesWritten == old(s.bytesWritten) + |FieldBytes(f, Many(items))|
    decreases f, 1
  {
    var count := |items|;
    if count == 0 {
      return true;
    }
    if count > f.htype.max {
      return false;
    }
    if f.ltype.Packable() {
      assert forall v | v in items :: EncodableValue(f.ltype, v);
      ok := EncodePacked(s, f, items);
    } else {
      ok := EncodeTagged(s, f, items);
    }
  }

  /** The size of a packed array is known or counted first. */
  method EncodePacked(s: OStream, f: Field, items: seq<Value>) returns (ok: bool)
    requires s.Ok() && WellFormedField(f) && f.ltype.Packable() && forall v | v in items :: TypedValue(f.ltype, v)
    requires |TagBytes(f.tag, WT_STRING) + LengthPrefixed(PackedItems(f.ltype, items))| < SIZE_LIMIT
    modifies s, s.buf
    ensures s.Ok() && ok == old(s.Room(|TagBytes(f.tag, WT_STRING) + LengthPrefixed(PackedItems(f.ltype, items))|))
    ensures ok ==>
      s.written == old(s.written) + (TagBytes(f.tag, WT_STRING) + LengthPrefixed(PackedItems(f.ltype, items)))
    ensures ok ==>
      s.bytesWritten == old(s.bytesWritten) + |TagBytes(f.tag, WT_STRING) + LengthPrefixed(PackedItems(f.ltype, items))|
    decreases f, 0, 1
  {
    ghost var tag, packed := TagBytes(f.tag, WT_STRING), PackedItems(f.ltype, items);
    Regroup(s.written, tag, LengthPrefixed(packed));
    Regroup(s.written + tag, Varint(|packed|), packed);
    ok := EncodeTag(s, WT_STRING, f.tag);
    if !ok {
      return;
    }
    var size;
    FixedSize(f.ltype, items);
    if f.ltype.LFixed32? {
      size := 4 * |items|;
    } else if f.ltype.LFixed64? {
      size := 8 * |items|;
    } else {
      var sizes := new OStream.Sizing();
      ok := EncodeItems(sizes, f, items);
      if !ok {
        return;
      }
      size := sizes.bytesWritten;
    }
    ok := EncodeVarint(s, size);
    if !ok {
      return;
    }
    if s.buf == null {
      s.Count(size, packed);
      return;
    }
    ok := EncodeItems(s, f, items);
  }

  /** The items one after another, each with the tag. */
  method EncodeTagged(s: OStream, f: Field, items: seq<Value>) returns (ok: bool)
    requires s.Ok() && WellFormedField(f) && (forall v | v in items :: TypedValue(f.ltype, v)) &&
      |TaggedItems(f, items)| < SIZE_LIMIT
    modifies s, s.buf
    ensures s.Ok() &&
      ok == ((forall v | v in items :: EncodableValue(f.ltype, v)) && old(s.Room(|TaggedItems(f, items)|)))
    ensures ok ==> s.written == old(s.written) + TaggedItems(f, items)
    ensures ok ==> s.bytesWritten == old(s.bytesWritten) + |TaggedItems(f, items)|
    decreases f, 0, 1
  {
    var i := 0;
    while i < |items|
      invariant 0 <= i <= |items| && s.Ok()
      invariant s.written + TaggedItems(f, items[i..]) == old(s.written) + TaggedItems(f, items)
      invariant s.bytesWritten >= old(s.bytesWritten) &&
        s.bytesWritten + |TaggedItems(f, items[i..])| == old(s.bytesWritten) + |TaggedItems(f, items)|
      invariant forall v | v in items[..i] :: EncodableValue(f.ltype, v)
      invariant i == |items| ==> old(s.Room(|TaggedItems(f, items)|))
    {
      ghost var tag, item, rest := TaggedStep(f, items, i);
      Regroup(s.written, tag + item, rest);
      assert items[i] in items && tag + item == TaggedValue(f, items[i]);
      ok := EncodeTaggedValue(s, f, items[i]);
      if !ok {
        return;
      }
      i := i + 1;
    }
    ok := true;
  }

  method EncodeBasicField(s: OStream, f: Field, slot: Slot) returns (ok: bool)
    requires s.Ok() && WellFormedField(f) && TypedSlot(f, slot) && |FieldBytes(f, slot)| < SIZE_LIMIT
    modifies s, s.buf
    ensures s.Ok() && ok == (EncodableSlot(f, slot) && old(s.Room(|FieldBytes(f, slot)|)))
    ensures ok ==>
      s.written == old(s.written) + FieldBytes(f, slot) && s.bytesWritten == old(s.bytesWritten) + |FieldBytes(f, slot)|
    decreases f, 2
  {
    if f.htype.Repeated? {
      ok := EncodeArray(s, f, slot.items);
      return;
    }
    var has := f.htype.Required?;
    if f.htype == Optional(true) {
      has := slot.has;
    } else if f.htype == Optional(false) {
      var zero := CheckProto3Default(f, slot);
      has := !zero;
    } else if f.htype.Oneof? {
      has := slot.Chosen? && slot.tag == f.tag;
    }
    assert has == Present(f, slot);
    if !has {
      return true;
    }
    ok := EncodeTaggedValue(s, f, slot.value);
  }

  method EncodeTaggedValue(s: OStream, f: Field, v: Value) returns (ok: bool)
    requires s.Ok() && WellFormedField(f) && TypedValue(f.ltype, v) && |TaggedValue(f, v)| < SIZE_LIMIT
    modifies s, s.buf
    ensures s.Ok() && ok == (EncodableValue(f.ltype, v) && old(s.Room(|TaggedValue(f, v)|)))
    ensures ok ==>
      s.written == old(s.written) + TaggedValue(f, v) && s.bytesWritten == old(s.bytesWritten) + |TaggedValue(f, v)|
    decreases f, 0, 0
  {
    Regroup(s.written, TagBytes(f.tag, WireType(f.ltype)), ValueBytes(f.ltype, v));
    ok := EncodeTag(s, WireType(f.ltype), f.tag);
    if ok {
      ok := EncodeValue(s, f.ltype, v);
    }
  }

  /** Writes the fields in the order of the descriptor, or reports that they do not fit. */
  method Encode(s: OStream, fields: seq<Field>, m: seq<Slot>) returns (ok: bool)
    requires s.Ok() && WellFormed(fields) && Typed(fields, m) && |Wire(fields, m, 0)| < SIZE_LIMIT
    modifies s, s.buf
    ensures s.Ok() && ok == (Encodable(fields, m, 0) && old(s.Room(|Wire(fields, m, 0)|)))
    ensures ok ==>
      s.written == old(s.written) + Wire(fields, m, 0) && s.bytesWritten == old(s.bytesWritten) + |Wire(fields, m, 0)|
    decreases fields, 0, 0
  {
    var iter := new FieldIter(fields);
    if iter.Tag() == 0 {
      return true;
    }
    ghost var w0, b0 := s.written, s.bytesWritten;
    ghost var k := 0;
    var more := true;
    while more
      invariant s.Ok() && iter.Ok() && fresh(iter) && iter.fields == fields && |fields| > 0
      invariant if more then k == iter.pos else k == |fields|
      invariant forall j {:trigger SlotOf(fields, j)} | 0 <= j < k :: EncodableSlot(fields[j], m[SlotOf(fields, j)])
      invariant Reached(fields, m, k, w0, b0, s.written, s.bytesWritten)
      decreases |fields| - k
    {
      var f, slot := fields[iter.pos], m[iter.pData];
      ReachedNext(fields, m, k, w0, b0, s.written, s.bytesWritten);
      ok := EncodeBasicField(s, f, slot);
      if !ok {
        return;
      }
      more := iter.Next();
      k := k + 1;
    }
    ok := true;
  }

  /** What has been written, and what is still to come of the fields from number k on, make the whole message. */
  ghost predicate Reached(fields: seq<Field>, m: seq<Slot>, k: nat, w0: seq<Byte>, b0: nat, w: seq<Byte>, b: nat) {
    w + Wire(fields, m, k) == w0 + Wire(fields, m, 0) && b >= b0 &&
      b + |Wire(fields, m, k)| == b0 + |Wire(fields, m, 0)|
  }

  lemma {:induction false} ReachedNext(fields: seq<Field>, m: seq<Slot>, k: nat, w0: seq<Byte>, b0: nat, w: seq<Byte>,
                                       b: nat)
    requires WellFormed(fields) && Typed(fields, m) && k < |fields| && Reached(fields, m, k, w0, b0, w, b)
    ensures SlotOf(fields, k) < |m| && WellFormedField(fields[k]) && TypedSlot(fields[k], m[SlotOf(fields, k)])
    ensures var field := FieldBytes(fields[k], m[SlotOf(fields, k)]);
      b + |field| <= b0 + |Wire(fields, m, 0)| && |field| <= |Wire(fields, m, 0)| &&
      Reached(fields, m, k + 1, w0, b0, w + field, b + |field|)
  {
    assert SlotOf(fields, k) < |m|;
    var field, rest := WireStep(fields, m, k);
    Regroup(w, field, rest);
  }
}
