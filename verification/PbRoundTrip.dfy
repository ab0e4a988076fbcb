/** What a receiver gets of what a sender encodes. */
module PbRoundTrip {
  import opened Format
  import opened Coding
  import opened PbCommon
  import opened PbWire
  import PbEncode
  import PbStream
  import PbDecode
  import opened PbVersions

  /** Encodes into a buffer and decodes what is there. Encoding succeeds exactly if counts are in range and the buffer
      is large enough; decoding then succeeds exactly if every string that was written has room for its NUL; and the
      message is then the same exactly if no zero was left out whose default is something else. */
  method EncodeThenDecode(fields: seq<Field>, m: seq<Slot>, buf: array<Byte>, prior: seq<Slot>)
    returns (written: bool, read: bool, r: seq<Slot>)
    requires WellFormed(fields) && Typed(fields, m) && |prior| == SlotCount(fields)
    requires buf.Length < PbStream.WORD_LIMIT && |Wire(fields, m, 0)| < PbEncode.SIZE_LIMIT
    modifies buf
    ensures written <==> Encodable(fields, m, 0) && |Wire(fields, m, 0)| <= buf.Length
    ensures written ==> (read <==> Readable(fields, m, 0))
    ensures written && read ==> (SameMessage(fields, m, r) <==> ZerosKept(fields, m))
  {
    var out := new PbEncode.OStream.FromBuffer(buf);
    written := PbEncode.Encode(out, fields, m);
    read, r := false, prior;
    if written {
      var input := new PbStream.IStream(buf[..], 0, out.bytesWritten);
      assert input.Rest() == Wire(fields, m, 0);
      WireSpliced(fields, m);
      read, r := PbDecode.Decode(input, fields, prior, m);
      SettledSame(fields, m);
    }
  }

  // ---- A newer sender ----

  /** What the sender can encode, the reader's part of it has room for. */
  lemma {:induction false} EncodableRestricted(wide: seq<Field>, m: seq<Slot>, fields: seq<Field>, n: seq<Slot>)
    requires Typed(wide, m) && Restricts(wide, m, fields, n) && Encodable(wide, m, 0)
    ensures Encodable(fields, n, 0)
    decreases wide
  {
    var e :| RestrictsBy(wide, m, fields, n, e);
    forall k {:trigger SlotOf(fields, k)} | 0 <= k < |fields| && SlotOf(fields, k) < |n|
      ensures EncodableSlot(fields[k], n[SlotOf(fields, k)])
    {
      var fw, src := wide[e[k]], m[SlotOf(wide, e[k])];
      assert OlderField(fw, fields[k]) && TypedSlot(fw, src) && EncodableSlot(fw, src);
      SlotRestricted(fw, src, fields[k], n[SlotOf(fields, k)]);
    }
  }

  lemma {:induction false} SlotRestricted(fw: Field, src: Slot, f: Field, dst: Slot)
    requires OlderField(fw, f) && TypedSlot(fw, src) && RestrictsSlot(fw, src, f, dst) && EncodableSlot(fw, src)
    ensures EncodableSlot(f, dst)
    decreases fw
  {
    if Present(f, dst) {
      if src.Many? {
        forall v | v in dst.items ensures EncodableValue(f.ltype, v) {
          var i :| 0 <= i < |dst.items| && dst.items[i] == v;
          assert src.items[i] in src.items;
          ValueRestricted(fw.ltype, src.items[i], f.ltype, v);
        }
      } else {
        ValueRestricted(fw.ltype, src.value, f.ltype, dst.value);
      }
    }
  }

  lemma {:induction false} ValueRestricted(lw: LType, v: Value, lt: LType, v': Value)
    requires TypedValue(lw, v) && RestrictsValue(lw, v, lt, v') && EncodableValue(lw, v)
    ensures EncodableValue(lt, v')
    decreases lw
  {
    if lw.LSubmessage? && lt.LSubmessage? { EncodableRestricted(lw.fields, v.slots, lt.fields, v'.slots); }
  }

  /** Encodes a message and decodes it under an older descriptor, which knows some of its fields. Fields that it does
      not know are skipped, here and in submessages, and what it knows of the message is read as if nothing else had
      been there: decoding succeeds exactly if every string that is known has room for its NUL. */
  method EncodeThenDecodeOlder(wide: seq<Field>, m: seq<Slot>, fields: seq<Field>, ghost n: seq<Slot>, buf: array<Byte>,
                               prior: seq<Slot>)
    returns (written: bool, read: bool, r: seq<Slot>)
    requires WellFormed(wide) && Typed(wide, m) && WellFormed(fields) && Typed(fields, n) &&
      |prior| == SlotCount(fields)
    requires Restricts(wide, m, fields, n)
    requires buf.Length < PbStream.WORD_LIMIT && |Wire(wide, m, 0)| < PbEncode.SIZE_LIMIT
    modifies buf
    ensures written <==> Encodable(wide, m, 0) && |Wire(wide, m, 0)| <= buf.Length
    ensures written ==> (read <==> Readable(fields, n, 0))
    ensures written && read ==> r == Settled(fields, n) && (SameMessage(fields, n, r) <==> ZerosKept(fields, n))
  {
    var out := new PbEncode.OStream.FromBuffer(buf);
    written := PbEncode.Encode(out, wide, m);
    read, r := false, prior;
    if written {
      var input := new PbStream.IStream(buf[..], 0, out.bytesWritten);
      assert input.Rest() == Wire(wide, m, 0);
      WireRestricted(wide, m, fields, n);
      EncodableRestricted(wide, m, fields, n);
      read, r := PbDecode.Decode(input, fields, prior, n);
      SettledSame(fields, n);
    }
  }

  const ONE_BOOL := Field(1, LBool, Required, None)

  lemma {:induction false} OneBool()
    ensures WellFormed([ONE_BOOL]) && Typed([ONE_BOOL], [Plain(Num(1))]) && SlotCount([ONE_BOOL]) == 1
    ensures Encodable([ONE_BOOL], [Plain(Num(1))], 0) && Readable([ONE_BOOL], [Plain(Num(1))], 0)
    ensures Settled([ONE_BOOL], [Plain(Num(1))]) == [Plain(Num(1))]
  {
    var fields, m := [ONE_BOOL], [Plain(Num(1))];
    assert SlotOf(fields, 0) == 0 && WellFormedField(ONE_BOOL) && TypedSlot(ONE_BOOL, m[0]);
    SettledPresent(fields, m, 0);
  }

  const EIGHT_ZEROS: seq<Byte> := [0, 0, 0, 0, 0, 0, 0, 0]

  lemma {:induction false} OneBoolSent()
    ensures PbSpliced.Spliced([ONE_BOOL], [Plain(Num(1))], 0, 0, [0x08, 0x01])
  {
    var fields, m := [ONE_BOOL], [Plain(Num(1))];
    assert SlotOf(fields, 0) == 0;
    assert TagBytes(1, 0) == [0x08] && ValueBytes(LBool, Num(1)) == [0x01];
    assert PbSpliced.Carries(ONE_BOOL, m[0], 0, [0x01]);
    PbSpliced.Lead(fields, m, 0, 0, 0, [0x01], []);
    assert [0x08] + [0x01] + [] == [0x08, 0x01];
  }

  lemma {:induction false} EightUnknown()
    ensures PbSpliced.UnknownAs([ONE_BOOL], TagBytes(2, 1) + EIGHT_ZEROS, 2, 1, EIGHT_ZEROS)
    ensures TagBytes(2, 1) + EIGHT_ZEROS + [0x08, 0x01] == [0x11, 0, 0, 0, 0, 0, 0, 0, 0, 0x08, 0x01]
  {
    assert TagBytes(2, 1) == [0x11];
  }

  lemma {:induction false} PastUnknown()
    ensures PbSpliced.Spliced([ONE_BOOL], [Plain(Num(1))], 0, 0, [0x11, 0, 0, 0, 0, 0, 0, 0, 0, 0x08, 0x01])
  {
    OneBoolSent();
    EightUnknown();
    PbSpliced.Splice([ONE_BOOL], [Plain(Num(1))], 0, 0, 2, 1, EIGHT_ZEROS, [0x08, 0x01]);
  }

  /** A number of eight bytes that the reader does not know, and behind it a bool that it requires. */
  method ReadPastUnknown() returns (read: bool, r: seq<Slot>)
    ensures read && r == [Plain(Num(1))]
  {
    OneBool();
    PastUnknown();
    var bytes: seq<Byte> := [0x11, 0, 0, 0, 0, 0, 0, 0, 0, 0x08, 0x01];
    var input := new PbStream.IStream(bytes, 0, 11);
    assert input.Rest() == bytes;
    read, r := PbDecode.Decode(input, [ONE_BOOL], [Unset], [Plain(Num(1))]);
  }

  // ---- Descriptors that lose no zeros ----

  /** No field without a flag has a default other than zero, here or in a submessage. */
  ghost predicate ZeroDefaults(fields: seq<Field>)
    decreases fields
  {
    forall k | 0 <= k < |fields| :: ZeroDefault(fields[k])
  }

  ghost predicate ZeroDefault(f: Field)
    decreases f
  {
    if f.ltype.LSubmessage? then ZeroDefaults(f.ltype.fields)
    else f.htype == Optional(false) && f.default.Some? ==> IsZero(f.ltype, f.default.value)
  }

  /** A zero of such a field is its default. */
  lemma {:induction false} ZeroMeetsDefault(f: Field, v: Value)
    requires WellFormedField(f) && TypedValue(f.ltype, v) && IsZero(f.ltype, v) && f.htype == Optional(false) &&
      ZeroDefault(f)
    ensures IsZero(f.ltype, DefaultValue(f))
    decreases f, 0
  {
    if f.ltype.LSubmessage? {
      DefaultsMeet(f.ltype.fields, v.slots);
    }
  }

  lemma {:induction false} DefaultsMeet(fields: seq<Field>, m: seq<Slot>)
    requires WellFormed(fields) && Typed(fields, m) && AllDefault(fields, m, 0) && ZeroDefaults(fields)
    ensures AllDefault(fields, Defaults(fields, |fields|), 0)
    decreases fields
  {
    var d := Defaults(fields, |fields|);
    forall k {:trigger SlotOf(fields, k)} | 0 <= k < |fields|
      ensures SlotOf(fields, k) < |d| && IsDefault(fields[k], d[SlotOf(fields, k)])
    {
      DefaultsAt(fields, |fields|, k);
      AllDefaultAt(fields, m, 0, k);
      var f, slot := fields[k], m[SlotOf(fields, k)];
      assert WellFormedField(f) && TypedSlot(f, slot) && ZeroDefault(f);
      if f.htype == Optional(false) { ZeroMeetsDefault(f, slot.value); }
    }
    AllDefaultFrom(fields, d, 0);
  }

  /** Such descriptors give every message back. */
  lemma {:induction false} ZeroDefaultsKeep(fields: seq<Field>, m: seq<Slot>)
    requires WellFormed(fields) && Typed(fields, m) && ZeroDefaults(fields)
    ensures ZerosKept(fields, m)
    decreases fields
  {
    forall k {:trigger SlotOf(fields, k)} | 0 <= k < |fields| ensures ZeroKept(fields[k], m[SlotOf(fields, k)]) {
      var f, slot := fields[k], m[SlotOf(fields, k)];
      assert WellFormedField(f) && TypedSlot(f, slot) && ZeroDefault(f);
      KeptSlot(f, slot);
    }
  }

  lemma {:induction false} KeptSlot(f: Field, slot: Slot)
    requires WellFormedField(f) && TypedSlot(f, slot) && ZeroDefault(f)
    ensures ZeroKept(f, slot)
    decreases f
  {
    if Present(f, slot) {
      if slot.Many? {
        forall v | v in slot.items ensures ZerosKeptWithin(f.ltype, v) {
          if f.ltype.LSubmessage? { ZeroDefaultsKeep(f.ltype.fields, v.slots); }
        }
      } else if f.ltype.LSubmessage? {
        ZeroDefaultsKeep(f.ltype.fields, slot.value.slots);
      }
    } else if f.htype == Optional(false) {
      ZeroMeetsDefault(f, slot.value);
    }
  }

  // ---- The two ways to lose a message ----

  /** A string that fills its buffer is written but cannot be read. */
  lemma {:induction false} UnterminatedString() returns (fields: seq<Field>, m: seq<Slot>)
    ensures WellFormed(fields) && Typed(fields, m) && Encodable(fields, m, 0) && ZeroDefaults(fields)
    ensures !Readable(fields, m, 0)
  {
    var f := Field(1, LString(1), Required, None);
    fields, m := [f], [Plain(Raw([65]))];
    assert SlotOf(fields, 0) == 0 && SlotCount(fields) == 1;
    assert WellFormedField(f) && TypedSlot(f, m[0]);
    assert !ReadableSlot(f, m[0]);
  }

  /** A false whose default is true comes back as true. */
  lemma {:induction false} FalseBecomesTrue() returns (fields: seq<Field>, m: seq<Slot>)
    ensures WellFormed(fields) && Typed(fields, m) && Encodable(fields, m, 0) && Readable(fields, m, 0)
    ensures !SameMessage(fields, m, Settled(fields, m))
  {
    var f := Field(1, LBool, Optional(false), Some(Num(1)));
    fields, m := [f], [Plain(Num(0))];
    assert SlotOf(fields, 0) == 0 && SlotCount(fields) == 1;
    assert WellFormedField(f) && TypedSlot(f, m[0]);
    assert !ZeroKept(f, m[0]);
    SettledSame(fields, m);
  }
}
