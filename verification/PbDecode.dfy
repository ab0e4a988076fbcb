/** The decoder. */
module PbDecode {
  import opened Format
  import opened Coding
  import opened PbCommon
  import opened PbWire
  import opened PbStream
  import opened PbValue
  import opened PbSpliced

  // ---- The structure that is filled ----

  /** The structure has a place of the right kind for every field. */
  ghost predicate Shaped(fields: seq<Field>, dest: seq<Slot>)
    decreases fields
  {
    |dest| == SlotCount(fields) &&
    forall k {:trigger SlotOf(fields, k)} | 0 <= k < |fields| ::
      SlotOf(fields, k) < |dest| && ShapedSlot(fields[k], dest[SlotOf(fields, k)])
  }

  ghost predicate ShapedSlot(f: Field, slot: Slot)
    decreases f
  {
    match f.htype
    case Required => slot.Plain? && ShapedValue(f.ltype, slot.value)
    case Optional(true) => slot.Flagged? && ShapedValue(f.ltype, slot.value)
    case Optional(false) => slot.Plain? && ShapedValue(f.ltype, slot.value)
    case Repeated(_, _) => slot.Many?
    case Oneof(_) => slot.Unset? || (slot.Chosen? && (slot.tag == f.tag ==> ShapedValue(f.ltype, slot.value)))
  }

  ghost predicate ShapedValue(lt: LType, v: Value)
    decreases lt
  {
    lt.LSubmessage? ==> v.Msg? && Shaped(lt.fields, v.slots)
  }

  lemma {:induction false} DefaultsShaped(fields: seq<Field>)
    ensures Shaped(fields, Defaults(fields, |fields|))
    decreases fields
  {
    DefaultsLength(fields, |fields|);
    forall k {:trigger SlotOf(fields, k)} | 0 <= k < |fields|
      ensures SlotOf(fields, k) < SlotCount(fields)
      ensures ShapedSlot(fields[k], Defaults(fields, |fields|)[SlotOf(fields, k)])
    {
      DefaultsAt(fields, |fields|, k);
      DefaultShaped(fields[k]);
    }
  }

  lemma {:induction false} DefaultShaped(f: Field)
    ensures ShapedSlot(f, DefaultSlot(f))
    decreases f
  {
    if f.ltype.LSubmessage? { DefaultsShaped(f.ltype.fields); }
  }

  lemma {:induction false} UpdateShaped(fields: seq<Field>, dest: seq<Slot>, k: nat, slot: Slot)
    requires WellFormed(fields) && Shaped(fields, dest) && k < |fields| && ShapedSlot(fields[k], slot)
    requires fields[k].htype.Oneof? ==> slot.Chosen? && slot.tag == fields[k].tag
    ensures SlotOf(fields, k) < |dest| && Shaped(fields, dest[SlotOf(fields, k) := slot])
  {
    var s := SlotOf(fields, k);
    forall j {:trigger SlotOf(fields, j)} | 0 <= j < |fields|
      ensures SlotOf(fields, j) < |dest| && ShapedSlot(fields[j], dest[s := slot][SlotOf(fields, j)])
    {
      if SlotOf(fields, j) == s && j != k {
        if j < k { SlotsOrdered(fields, j, k); } else { SlotsOrdered(fields, k, j); }
        assert fields[j].tag != fields[k].tag;
      }
    }
  }

  lemma {:induction false} DefaultsStep(fields: seq<Field>, k: nat, r: seq<Slot>, s: nat)
    requires k < |fields| && |r| == SlotCount(fields) && s == SlotOf(fields, k)
    requires |Defaults(fields, k)| <= |r| && r[..|Defaults(fields, k)|] == Defaults(fields, k)
    ensures s < |r| && |Defaults(fields, k + 1)| <= |r|
    ensures r[s := DefaultSlot(fields[k])][..|Defaults(fields, k + 1)|] == Defaults(fields, k + 1)
  {
    SlotsOrdered(fields, k, |fields| - 1);
    DefaultsLength(fields, k);
    DefaultsLength(fields, k + 1);
    if k > 0 && Shares(fields, k) { DefaultsAt(fields, k, k - 1); }
  }

  /** Every field at its default; counters and union tags at zero. */
  method MessageSetToDefaults(fields: seq<Field>, dest: seq<Slot>) returns (r: seq<Slot>)
    requires WellFormed(fields) && |dest| == SlotCount(fields)
    ensures r == Defaults(fields, |fields|)
    decreases fields
  {
    r := dest;
    DefaultsLength(fields, |fields|);
    var iter := new FieldIter(fields);
    if iter.Tag() == 0 {
      return;
    }
    ghost var k := 0;
    var more := true;
    while more
      invariant iter.Ok() && fresh(iter) && iter.fields == fields && |r| == SlotCount(fields) && |fields| > 0
      invariant if more then k == iter.pos else k == |fields|
      invariant |Defaults(fields, k)| <= |r| && r[..|Defaults(fields, k)|] == Defaults(fields, k)
      decreases |fields| - k
    {
      var f := fields[iter.pos];
      assert WellFormedField(f);
      DefaultsStep(fields, k, r, iter.pData);
      var slot := FieldSetToDefault(f);
      r := r[iter.pData := slot];
      more := iter.Next();
      k := k + 1;
    }
  }

  method FieldSetToDefault(f: Field) returns (slot: Slot)
    requires WellFormedField(f)
    ensures slot == DefaultSlot(f)
    decreases f
  {
    if f.htype.Repeated? {
      return Many([]);
    }
    if f.htype.Oneof? {
      return Unset;
    }
    var value;
    if f.ltype.LSubmessage? {
      var slots := MessageSetToDefaults(f.ltype.fields, seq(SlotCount(f.ltype.fields), _ => Unset));
      value := Msg(slots);
    } else if f.default.Some? {
      value := f.default.value;
    } else {
      value := ZeroOf(f.ltype);
    }
    slot := if f.htype == Optional(true) then Flagged(false, value) else Plain(value);
  }

  // ---- Values ----

  /** A value that the sender had, and the bytes it sent for it. */
  ghost predicate Sent(lt: LType, v: Value, bytes: seq<Byte>) {
    TypedValue(lt, v) && EncodableValue(lt, v) && Sends(lt, v, bytes) && |bytes| < WORD_LIMIT
  }

  /** The decoder of a type. A submessage adds to what is there, unless it is an item of an array. */
  method DecodeValue(s: IStream, lt: LType, anew: bool, prior: Value, ghost v: Value, ghost bytes: seq<Byte>,
                     ghost tail: seq<Byte>)
    returns (ok: bool, dest: Value)
    requires s.Ok() && (lt.LSubmessage? ==> WellFormed(lt.fields)) && (!anew ==> ShapedValue(lt, prior))
    modifies s
    ensures s.Ok() && s.bytesLeft <= old(s.bytesLeft) && s.End() <= old(s.End()) &&
      (ok ==> s.End() == old(s.End()) && ShapedValue(lt, dest))
    ensures Sent(lt, v, bytes) && old(s.Rest()) == bytes + tail && (anew || Fresh(lt, prior)) ==>
      ok == ReadableValue(lt, v) && (ok ==> dest == SettledValue(lt, v) && s.Rest() == tail)
    decreases lt, 0
  {
    dest := prior;
    if lt.LSubmessage? {
      var slots;
      ok, slots :=
        DecodeSubmessage(s, lt.fields, anew, if anew then [] else prior.slots, if v.Msg? then v.slots
        else [], bytes, tail);
      if ok {
        dest := Msg(slots);
      }
    } else if lt.Packable() {
      var n;
      ok, n := DecodeNumber(s, lt, if v.Num? then v.n else 0, tail);
      dest := Num(n);
    } else {
      var data;
      ok, data := DecodeBytes(s, lt, if v.Raw? then v.bytes else [], tail);
      dest := Raw(data);
    }
  }

  /** A submessage that is about to be filled starts from its defaults. */
  ghost predicate Fresh(lt: LType, prior: Value) {
    lt.LSubmessage? ==> prior == Msg(Defaults(lt.fields, |lt.fields|))
  }

  /** A message behind its length. */
  ghost predicate SplicedString(fields: seq<Field>, m: seq<Slot>, bytes: seq<Byte>) {
    exists w :: bytes == LengthPrefixed(w) && Spliced(fields, m, 0, 0, w)
  }

  method DecodeSubmessage(s: IStream, fields: seq<Field>, anew: bool, prior: seq<Slot>,
                          ghost m: seq<Slot>, ghost bytes: seq<Byte>, ghost tail: seq<Byte>)
    returns (ok: bool, dest: seq<Slot>)
    requires s.Ok() && WellFormed(fields) && (!anew ==> Shaped(fields, prior))
    modifies s
    ensures s.Ok() && s.bytesLeft <= old(s.bytesLeft) && s.End() <= old(s.End()) &&
      (ok ==> s.End() == old(s.End()) && Shaped(fields, dest))
    ensures (Typed(fields, m) && Encodable(fields, m, 0) && SplicedString(fields, m, bytes) && |bytes| < WORD_LIMIT &&
        old(s.Rest()) == bytes + tail && (anew || prior == Defaults(fields, |fields|))) ==>
      ok == Readable(fields, m, 0) && (ok ==> dest == Settled(fields, m) && s.Rest() == tail)
    decreases fields, 1
  {
    ghost var wire: seq<Byte> := [];
    if SplicedString(fields, m, bytes) { wire :| bytes == LengthPrefixed(wire) && Spliced(fields, m, 0, 0, wire); }
    dest := prior;
    var substream;
    ok, substream := MakeStringSubstream(s, wire, tail);
    if !ok {
      return;
    }
    if anew {
      ok, dest := Decode(substream, fields, seq(SlotCount(fields), _ => Unset), m);
    } else {
      ok, dest := DecodeNoInit(substream, fields, prior, m);
    }
    var closed := CloseStringSubstream(s, substream);
    ok := ok && closed;
  }

  method Decode(s: IStream, fields: seq<Field>, prior: seq<Slot>, ghost m: seq<Slot>)
    returns (ok: bool, dest: seq<Slot>)
    requires s.Ok() && WellFormed(fields) && |prior| == SlotCount(fields)
    modifies s
    ensures s.Ok() && s.bytesLeft <= old(s.bytesLeft) && s.End() <= old(s.End()) &&
      (ok ==> s.End() == old(s.End()) && Shaped(fields, dest))
    ensures (Typed(fields, m) && Encodable(fields, m, 0) && Spliced(fields, m, 0, 0, old(s.Rest()))) ==>
      ok == Readable(fields, m, 0) && (ok ==> dest == Settled(fields, m))
    decreases fields, 0, 3
  {
    dest := MessageSetToDefaults(fields, prior);
    DefaultsShaped(fields);
    ok, dest := DecodeNoInit(s, fields, dest, m);
  }

  // ---- Fields ----

  /** The place in an array that is written next; behind the last item it is a new one. */
  function PutItem(items: seq<Value>, i: nat, v: Value): seq<Value> {
    if i < |items| then items[i := v] else items + [v]
  }

  lemma {:induction false} SettledSnoc(lt: LType, items: seq<Value>, i: nat)
    requires i < |items|
    ensures PutItem(SettledItems(lt, items[..i]), i, SettledValue(lt, items[i])) == SettledItems(lt, items[..i + 1])
  {
    var before, after := SettledItems(lt, items[..i]), SettledItems(lt, items[..i + 1]);
    assert |before| == i && |after| == i + 1;
    assert forall j | 0 <= j < i :: before[j] == after[j];
  }

  lemma {:induction false} NumbersTakeSpace(lt: LType, items: seq<Value>)
    requires lt.Packable() && |items| > 0 && TypedValue(lt, items[0])
    ensures |PackedItems(lt, items)| > 0
  {
    assert |NumberBytes(lt, items[0].n)| > 0;
  }

  lemma {:induction false} PackedSmall(lt: LType, items: seq<Value>, i: nat)
    requires i <= |items|
    ensures |PackedItems(lt, items[i..])| <= |PackedItems(lt, items)|
  {
    if i == 0 {
      assert items[0..] == items;
    } else {
      PackedSmall(lt, items, i - 1);
      var item, rest := PackedStep(lt, items, i - 1);
    }
  }

  lemma {:induction false} TaggedSmall(f: Field, items: seq<Value>, i: nat)
    requires i < |items|
    ensures |ValueBytes(f.ltype, items[i])| <= |TaggedItems(f, items[i..])| <= |TaggedItems(f, items)|
  {
    var tag, item, rest := TaggedStep(f, items, i);
    if i == 0 {
      assert items[0..] == items;
    } else {
      TaggedSmall(f, items, i - 1);
      tag, item, rest := TaggedStep(f, items, i - 1);
    }
  }

  /** The items before number n are in place, those from it on are still to come. */
  ghost predicate PackedAt(lt: LType, src: seq<Value>, n: nat, items: seq<Value>, rest: seq<Byte>) {
    lt.Packable() && (forall v | v in src :: TypedValue(lt, v)) && |PackedItems(lt, src)| < WORD_LIMIT &&
    n <= |src| && items == SettledItems(lt, src[..n]) && rest == PackedItems(lt, src[n..])
  }

  lemma {:induction false} PackedStarts(lt: LType, src: seq<Value>)
    requires lt.Packable() && (forall v | v in src :: TypedValue(lt, v)) && |PackedItems(lt, src)| < WORD_LIMIT
    ensures PackedAt(lt, src, 0, [], PackedItems(lt, src))
  {
    assert src[0..] == src;
  }

  lemma {:induction false} PackedOver(lt: LType, src: seq<Value>, n: nat, items: seq<Value>, rest: seq<Byte>)
    requires PackedAt(lt, src, n, items, rest)
    ensures rest == [] <==> n == |src|
    ensures n == |src| ==> items == SettledItems(lt, src)
  {
    if n < |src| {
      assert src[n] in src;
      NumbersTakeSpace(lt, src[n..]);
    } else {
      assert src[..n] == src;
    }
  }

  lemma {:induction false} PackedNext(lt: LType, src: seq<Value>, n: nat, items: seq<Value>, rest: seq<Byte>)
    returns (v: Value, item: seq<Byte>, rest': seq<Byte>)
    requires PackedAt(lt, src, n, items, rest) && n < |src|
    ensures v == src[n] && Sent(lt, v, item) && rest == item + rest' && ReadableValue(lt, v)
    ensures PackedAt(lt, src, n + 1, PutItem(items, n, SettledValue(lt, v)), rest')
  {
    v := src[n];
    assert v in src;
    item, rest' := PackedStep(lt, src, n);
    PackedSmall(lt, src, n);
    SettledSnoc(lt, src, n);
  }

  /** A packed array: numbers one after another in a string. */
  method DecodePacked(s: IStream, f: Field, items: seq<Value>, size: nat, ghost src: seq<Value>, ghost tail: seq<Byte>)
    returns (ok: bool, items': seq<Value>, size': nat)
    requires s.Ok() && f.htype.Repeated? && f.ltype.Packable()
    modifies s
    ensures s.Ok() && s.bytesLeft <= old(s.bytesLeft) && s.End() <= old(s.End()) && (ok ==> s.End() == old(s.End()))
    ensures (PackedAt(f.ltype, src, 0, items, PackedItems(f.ltype, src)) && size == 0 && |src| <= f.htype.max &&
        old(s.Rest()) == LengthPrefixed(PackedItems(f.ltype, src)) + tail) ==>
      ok && items' == SettledItems(f.ltype, src) && size' == |src| && s.Rest() == tail
    decreases f, 0, 2
  {
    ghost var all := PackedItems(f.ltype, src);
    ghost var expected := PackedAt(f.ltype, src, 0, items, all) && size == 0 && |src| <= f.htype.max &&
      s.Rest() == LengthPrefixed(all) + tail;
    items', size' := items, size;
    var substream;
    ok, substream := MakeStringSubstream(s, all, tail);
    if !ok {
      return;
    }
    if expected { assert substream.Rest() == all; }
    ok, items', size' := DecodePackedItems(substream, f, items, size, src);
    if expected { PackedOver(f.ltype, src, size', items', substream.Rest()); }
    if substream.bytesLeft != 0 {
      ok := false;
      return;
    }
    var closed := CloseStringSubstream(s, substream);
    ok := ok && closed;
  }

  method DecodePackedItems(s: IStream, f: Field, items: seq<Value>, size: nat, ghost src: seq<Value>)
    returns (ok: bool, items': seq<Value>, size': nat)
    requires s.Ok() && f.htype.Repeated? && f.ltype.Packable()
    modifies s
    ensures s.Ok() && (ok ==> s.End() == old(s.End())) && s.End() <= old(s.End())
    ensures PackedAt(f.ltype, src, size, items, old(s.Rest())) && |src| <= f.htype.max ==>
      ok && PackedAt(f.ltype, src, size', items', s.Rest()) && size' == |src|
    decreases f, 0, 1
  {
    ghost var expected := PackedAt(f.ltype, src, size, items, s.Rest()) && |src| <= f.htype.max;
    ok, items', size' := true, items, size;
    if expected { PackedOver(f.ltype, src, size', items', s.Rest()); }
    while s.bytesLeft > 0 && size' < f.htype.max
      invariant s.Ok() && ok && s.End() == old(s.End())
      invariant expected ==> PackedAt(f.ltype, src, size', items', s.Rest()) && (s.bytesLeft == 0 <==> size' == |src|)
      decreases f.htype.max - size'
    {
      var value;
      ok, value := DecodePackedItem(s, f, items', size', src);
      if !ok {
        return;
      }
      items' := PutItem(items', size', value);
      size' := size' + 1;
    }
  }

  method DecodePackedItem(s: IStream, f: Field, ghost items: seq<Value>, ghost n: nat, ghost src: seq<Value>)
    returns (ok: bool, value: Value)
    requires s.Ok() && f.ltype.Packable()
    modifies s
    ensures s.Ok() && (ok ==> s.End() == old(s.End())) && s.End() <= old(s.End())
    ensures PackedAt(f.ltype, src, n, items, old(s.Rest())) && n < |src| ==>
      ok && PackedAt(f.ltype, src, n + 1, PutItem(items, n, value), s.Rest()) && (s.bytesLeft == 0 <==> n + 1 == |src|)
    decreases f, 0, 0
  {
    ghost var expected := PackedAt(f.ltype, src, n, items, s.Rest()) && n < |src|;
    ghost var v, item, rest := Num(0), [], [];
    if expected { v, item, rest := PackedNext(f.ltype, src, n, items, s.Rest()); }
    ok, value := DecodeValue(s, f.ltype, true, Num(0), v, item, rest);
    if expected { PackedOver(f.ltype, src, n + 1, PutItem(items, n, value), s.Rest()); }
  }

  ghost predicate PayloadReadable(f: Field, src: Slot, i: nat)
    requires Present(f, src) && (Unpacked(f) ==> i < |src.items|)
  {
    if Unpacked(f) then ReadableValue(f.ltype, src.items[i])
    else f.htype.Repeated? || ReadableValue(f.ltype, src.value)
  }

  /** What the place of the field holds before and after item i; a field of one value counts as one item. */
  ghost function Filled(f: Field, src: Slot, i: nat): Slot
    requires Present(f, src) && (Unpacked(f) ==> i <= |src.items|)
  {
    if Unpacked(f) then Many(SettledItems(f.ltype, src.items[..i]))
    else if i == 0 then DefaultSlot(f)
    else SettledSlot(f, src)
  }

  ghost function FilledSize(f: Field, src: Slot, i: nat): nat
    requires Present(f, src)
  {
    if f.htype.Repeated? && !Unpacked(f) && i > 0 then |src.items| else i
  }

  /** The field as its sender had it, within the limits of the format. */
  ghost predicate SentField(f: Field, src: Slot, i: nat) {
    TypedSlot(f, src) && EncodableSlot(f, src) && Present(f, src) &&
    if Unpacked(f) then i < |src.items| else i == 0
  }

  lemma {:induction false} ItemSent(f: Field, src: Slot, i: nat, payload: seq<Byte>)
    requires SentField(f, src, i) && Carries(f, src, i, payload)
    ensures Unpacked(f) ==> Sent(f.ltype, src.items[i], payload) && i < f.htype.max
    ensures !f.htype.Repeated? ==> Sent(f.ltype, src.value, payload)
  {
    if Unpacked(f) { assert src.items[i] in src.items; }
  }

  lemma {:induction false} PackedSent(f: Field, src: Slot, payload: seq<Byte>)
    requires SentField(f, src, 0) && Carries(f, src, 0, payload) && f.htype.Repeated? && f.ltype.Packable()
    ensures PackedAt(f.ltype, src.items, 0, [], PackedItems(f.ltype, src.items)) && |src.items| <= f.htype.max
    ensures payload == LengthPrefixed(PackedItems(f.ltype, src.items))
  {
    PackedStarts(f.ltype, src.items);
  }

  /** The next item of an array, or the value of any other field. */
  method DecodeStaticField(s: IStream, f: Field, slot: Slot, wireType: nat, size: nat, ghost src: Slot, ghost i: nat,
                           ghost payload: seq<Byte>, ghost tail: seq<Byte>)
    returns (ok: bool, slot': Slot, size': nat)
    requires s.Ok() && WellFormedField(f) && ShapedSlot(f, slot)
    modifies s
    ensures s.Ok() && s.bytesLeft <= old(s.bytesLeft) && s.End() <= old(s.End()) && (ok ==> s.End() == old(s.End()))
    ensures ok ==> ShapedSlot(f, slot') && (f.htype.Oneof? ==> slot'.Chosen? && slot'.tag == f.tag)
    ensures (SentField(f, src, i) && Carries(f, src, i, payload) && old(s.Rest()) == payload + tail &&
        wireType == FieldWireType(f) && slot == Filled(f, src, i) && size == i) ==>
      ok == PayloadReadable(f, src, i) &&
      (ok ==> s.Rest() == tail && slot' == Filled(f, src, i + 1) && size' == FilledSize(f, src, i + 1))
    decreases f, 1
  {
    ghost var expected := SentField(f, src, i) && Carries(f, src, i, payload) && s.Rest() == payload + tail &&
      wireType == FieldWireType(f) && slot == Filled(f, src, i) && size == i;
    if expected { ItemSent(f, src, i, payload); }
    slot', size' := slot, size;
    if f.htype.Repeated? {
      var items;
      ok, items, size' := DecodeItems(s, f, slot.items, wireType, size, src, i, payload, tail);
      slot' := Many(items);
    } else {
      ok, slot' :=
        DecodeSingular(s, f, slot, if expected then src else Plain(Num(0)), payload, tail);
      size' := size + 1;
    }
  }

  method DecodeSingular(s: IStream, f: Field, slot: Slot, ghost src: Slot, ghost bytes: seq<Byte>,
                        ghost tail: seq<Byte>)
    returns (ok: bool, slot': Slot)
    requires s.Ok() && WellFormedField(f) && ShapedSlot(f, slot) && !f.htype.Repeated?
    modifies s
    ensures s.Ok() && s.bytesLeft <= old(s.bytesLeft) && s.End() <= old(s.End()) && (ok ==> s.End() == old(s.End()))
    ensures ok ==> ShapedSlot(f, slot') && (f.htype.Oneof? ==> slot'.Chosen? && slot'.tag == f.tag)
    ensures (Present(f, src) && TypedSlot(f, src) && Sent(f.ltype, src.value, bytes) && old(s.Rest()) == bytes + tail &&
      slot == DefaultSlot(f)) ==>
      ok == ReadableValue(f.ltype, src.value) && (ok ==> s.Rest() == tail && slot' == SettledSlot(f, src))
    decreases f, 0, 1
  {
    ghost var v := if Present(f, src) && !src.Many? then src.value else Num(0);
    assert Fresh(f.ltype, DefaultValue(f));
    var prior := Num(0);
    if !f.htype.Oneof? || (slot.Chosen? && slot.tag == f.tag) {
      prior := slot.value;
    } else if f.ltype.LSubmessage? {
      var slots := MessageSetToDefaults(f.ltype.fields, seq(SlotCount(f.ltype.fields), _ => Unset));
      DefaultsShaped(f.ltype.fields);
      prior := Msg(slots);
    }
    var value;
    ok, value := DecodeValue(s, f.ltype, false, prior, v, bytes, tail);
    slot' := if f.htype.Oneof? then Chosen(f.tag, value) else if f.htype == Optional(true) then Flagged(true, value)
      else Plain(value);
  }

  method DecodeItems(s: IStream, f: Field, items: seq<Value>, wireType: nat, size: nat, ghost src: Slot, ghost i: nat,
                     ghost payload: seq<Byte>, ghost tail: seq<Byte>)
    returns (ok: bool, items': seq<Value>, size': nat)
    requires s.Ok() && WellFormedField(f) && f.htype.Repeated?
    modifies s
    ensures s.Ok() && s.bytesLeft <= old(s.bytesLeft) && s.End() <= old(s.End()) && (ok ==> s.End() == old(s.End()))
    ensures (SentField(f, src, i) && Carries(f, src, i, payload) && old(s.Rest()) == payload + tail &&
        wireType == FieldWireType(f) && Many(items) == Filled(f, src, i) && size == i) ==>
      ok == PayloadReadable(f, src, i) &&
      (ok ==> s.Rest() == tail && Many(items') == Filled(f, src, i + 1) && size' == FilledSize(f, src, i + 1))
    decreases f, 0, 3
  {
    ghost var expected := SentField(f, src, i) && Carries(f, src, i, payload) && s.Rest() == payload + tail &&
      wireType == FieldWireType(f) && Many(items) == Filled(f, src, i) && size == i;
    if expected { ItemSent(f, src, i, payload); }
    items', size' := items, size;
    if wireType == WT_STRING && f.ltype.Packable() {
      if expected { PackedSent(f, src, payload); }
      ok, items', size' := DecodePacked(s, f, items, size, if expected then src.items else [], tail);
    } else {
      if size >= f.htype.max {
        ok := false;
        return;
      }
      ghost var v := if expected then src.items[i] else Num(0);
      if expected { SettledSnoc(f.ltype, src.items, i); }
      var value;
      ok, value := DecodeValue(s, f.ltype, true, Num(0), v, payload, tail);
      items' := PutItem(items, size, value);
      size' := size + 1;
    }
  }

  // ---- Messages ----

  /** What the decoder of a message keeps: the structure, which required fields were seen, and how many items of the
      last array without a counter have come. A word of the bitmap is the set of its bits. */
  datatype Decoding = Decoding(dest: seq<Slot>, seen: seq<set<nat>>, fixedField: Option<nat>, fixedSize: nat)

  const MAX_REQUIRED_FIELDS: nat := 64

  predicate Seen(d: Decoding, n: nat) { n / 32 < |d.seen| && n % 32 in d.seen[n / 32] }

  ghost predicate Tracks(fields: seq<Field>, d: Decoding) {
    Shaped(fields, d.dest) && |d.seen| == 2 &&
    (forall w, b | 0 <= w < 2 && b in d.seen[w] :: b < 32 && 32 * w + b < RequiredBefore(fields, |fields|)) &&
    (d.fixedField.Some? ==> d.fixedField.value < |fields| && fields[d.fixedField.value].htype.Repeated?)
  }

  ghost predicate SentMessage(fields: seq<Field>, m: seq<Slot>) {
    WellFormed(fields) && Typed(fields, m) && Encodable(fields, m, 0)
  }

  /** Fields before number k are in place; of an array whose items come one by one, i items are. */
  ghost predicate Underway(fields: seq<Field>, m: seq<Slot>, k: nat, i: nat, d: Decoding) {
    SentMessage(fields, m) && k <= |fields| && AtItem(fields, m, k, i) && d.dest == StateIn(fields, m, k, i) &&
    ReadSoFar(fields, m, k, i) && RequiredSeen(fields, k, d) && FixedTracked(fields, k, i, d)
  }

  ghost function StateIn(fields: seq<Field>, m: seq<Slot>, k: nat, i: nat): seq<Slot>
    requires AtItem(fields, m, k, i)
  {
    if i > 0 && |m| == SlotCount(fields) then
      State(fields, m, k)[SlotOf(fields, k) := Filled(fields[k], m[SlotOf(fields, k)], i)]
    else State(fields, m, k)
  }

  ghost predicate ReadSoFar(fields: seq<Field>, m: seq<Slot>, k: nat, i: nat)
    requires AtItem(fields, m, k, i)
  {
    (forall j {:trigger SlotOf(fields, j)} | 0 <= j < k <= |fields| :: SlotOf(fields, j) < |m| ==>
      ReadableSlot(fields[j], m[SlotOf(fields, j)])) &&
    (i > 0 ==> forall v | v in m[SlotOf(fields, k)].items[..i] :: ReadableValue(fields[k].ltype, v))
  }

  ghost predicate RequiredSeen(fields: seq<Field>, k: nat, d: Decoding)
    requires k <= |fields|
  {
    forall j | 0 <= j < k && fields[j].htype.Required? && RequiredBefore(fields, j) < MAX_REQUIRED_FIELDS ::
      Seen(d, RequiredBefore(fields, j))
  }

  /** An array without a counter is either the one that is being read, or complete. */
  ghost predicate FixedTracked(fields: seq<Field>, k: nat, i: nat, d: Decoding) {
    if i > 0 && k < |fields| && Fixed(fields[k]) then d.fixedField == Some(k) && d.fixedSize == i
    else d.fixedField.Some? ==> d.fixedField.value < k && FixedComplete(fields, d)
  }

  predicate Fixed(f: Field) { f.htype.Repeated? && !f.htype.counted }

  predicate FixedComplete(fields: seq<Field>, d: Decoding) {
    d.fixedField.Some? && d.fixedField.value < |fields| && fields[d.fixedField.value].htype.Repeated? ==>
      d.fixedSize == fields[d.fixedField.value].htype.max
  }

  /** The next field with something to read. */
  lemma {:induction false} AdvanceTo(fields: seq<Field>, m: seq<Slot>, k: nat, i: nat, k': nat, d: Decoding)
    requires Underway(fields, m, k, i, d) && NextIs(fields, m, k, i, k')
    ensures Underway(fields, m, k', i, d)
    decreases k' - k
  {
    if k < k' {
      assert SlotOf(fields, k) < |m|;
      SkipAbsent(fields, m, k, d);
      AdvanceTo(fields, m, k + 1, 0, k', d);
    }
  }

  lemma {:induction false} NowSent(fields: seq<Field>, m: seq<Slot>, k: nat, i: nat, payload: seq<Byte>)
    requires SentMessage(fields, m) && k < |fields| && SlotOf(fields, k) < |m| && AtItem(fields, m, k, i)
    requires Carries(fields[k], m[SlotOf(fields, k)], i, payload) && (i > 0 ==> Unpacked(fields[k]))
    ensures SentField(fields[k], m[SlotOf(fields, k)], i)
  {
    assert TypedSlot(fields[k], m[SlotOf(fields, k)]) && EncodableSlot(fields[k], m[SlotOf(fields, k)]);
  }

  lemma {:induction false} SkipAbsent(fields: seq<Field>, m: seq<Slot>, k: nat, d: Decoding)
    requires Underway(fields, m, k, 0, d) && k < |fields| && SlotOf(fields, k) < |m| &&
      !Present(fields[k], m[SlotOf(fields, k)])
    ensures Underway(fields, m, k + 1, 0, d)
  {
    assert TypedSlot(fields[k], m[SlotOf(fields, k)]);
    assert State(fields, m, k + 1) == State(fields, m, k);
  }

  // ---- One step ----

  lemma {:induction false} StateStep(fields: seq<Field>, m: seq<Slot>, k: nat, i: nat)
    requires SentMessage(fields, m) && k < |fields| && SlotOf(fields, k) < |m| && AtItem(fields, m, k, i)
    requires SentField(fields[k], m[SlotOf(fields, k)], i)
    ensures SlotOf(fields, k) < |StateIn(fields, m, k, i)|
    ensures StateIn(fields, m, k, i)[SlotOf(fields, k)] == Filled(fields[k], m[SlotOf(fields, k)], i)
    ensures AtItem(fields, m, Behind(fields, m, k, i).0, Behind(fields, m, k, i).1)
    ensures StateIn(fields, m, Behind(fields, m, k, i).0, Behind(fields, m, k, i).1) ==
      StateIn(fields, m, k, i)[SlotOf(fields, k) := Filled(fields[k], m[SlotOf(fields, k)], i + 1)]
  {
    var f, s := fields[k], SlotOf(fields, k);
    var src := m[s];
    FreshAt(fields, m, k);
    FilledEnds(f, src, i);
    assert State(fields, m, k + 1) == State(fields, m, k)[s := SettledSlot(f, src)];
  }

  lemma {:induction false} FilledEnds(f: Field, src: Slot, i: nat)
    requires SentField(f, src, i)
    ensures Filled(f, src, 0) == DefaultSlot(f)
    ensures !(Unpacked(f) && i + 1 < |src.items|) ==> Filled(f, src, i + 1) == SettledSlot(f, src)
  {
    if Unpacked(f) {
      assert SettledItems(f.ltype, src.items[..0]) == [];
      assert i + 1 == |src.items| ==> src.items[..i + 1] == src.items;
    }
  }

  lemma {:induction false} ReadStep(fields: seq<Field>, m: seq<Slot>, k: nat, i: nat)
    requires SentMessage(fields, m) && k < |fields| && SlotOf(fields, k) < |m| && AtItem(fields, m, k, i)
    requires SentField(fields[k], m[SlotOf(fields, k)], i)
    requires ReadSoFar(fields, m, k, i)
    ensures AtItem(fields, m, Behind(fields, m, k, i).0, Behind(fields, m, k, i).1)
    ensures PayloadReadable(fields[k], m[SlotOf(fields, k)], i) ==>
      ReadSoFar(fields, m, Behind(fields, m, k, i).0, Behind(fields, m, k, i).1)
    ensures !PayloadReadable(fields[k], m[SlotOf(fields, k)], i) ==> !Readable(fields, m, 0)
  {
    var f, src := fields[k], m[SlotOf(fields, k)];
    if Unpacked(f) {
      assert src.items[i] in src.items;
      assert src.items[..i + 1] == src.items[..i] + [src.items[i]];
      assert i + 1 == |src.items| ==> src.items[..i + 1] == src.items;
    }
    if !PayloadReadable(f, src, i) {
      assert !ReadableSlot(f, src);
    }
  }

  /** Marks required field number n. */
  function Mark(d: Decoding, n: nat): Decoding
    requires |d.seen| == 2 && n < MAX_REQUIRED_FIELDS
  {
    d.(seen := d.seen[n / 32 := d.seen[n / 32] + {n % 32}])
  }

  lemma {:induction false} MarkSees(fields: seq<Field>, k: nat, d: Decoding)
    requires Tracks(fields, d) && k < |fields| && fields[k].htype.Required? &&
      RequiredBefore(fields, k) < MAX_REQUIRED_FIELDS
    ensures Tracks(fields, Mark(d, RequiredBefore(fields, k)))
    ensures forall n | 0 <= n :: Seen(Mark(d, RequiredBefore(fields, k)), n) <==>
      (Seen(d, n) || n == RequiredBefore(fields, k))
  {
    RequiredOrdered(fields, k, |fields|);
    var r := RequiredBefore(fields, k);
    assert 32 * (r / 32) + r % 32 == r;
  }

  /** An array without a counter in the structure is counted beside it; the one before must be complete. */
  method TrackFixed(fields: seq<Field>, k: nat, d: Decoding) returns (ok: bool, d': Decoding)
    requires Tracks(fields, d) && k < |fields| && fields[k].htype.Repeated?
    ensures Tracks(fields, d') && d' == d.(fixedField := d'.fixedField, fixedSize := d'.fixedSize) &&
      d'.fixedField == Some(k)
    ensures ok == (d.fixedField == Some(k) || FixedComplete(fields, d))
    ensures d'.fixedSize == if d.fixedField == Some(k) then d.fixedSize else 0
  {
    d' := d;
    if d.fixedField == Some(k) {
      return true, d;
    }
    ok := !(d.fixedField.Some? && d.fixedSize != fields[d.fixedField.value].htype.max);
    d' := d.(fixedField := Some(k), fixedSize := 0);
  }

  /** Counts the field among the required ones, and finds how many of its items have come. */
  method ReadyField(iter: FieldIter, d: Decoding, ghost m: seq<Slot>, ghost i: nat)
    returns (ok: bool, d': Decoding, size: nat)
    requires iter.Ok() && WellFormed(iter.fields) && |iter.fields| > 0 && Tracks(iter.fields, d)
    ensures Tracks(iter.fields, d') && d'.dest == d.dest
    ensures forall n | 0 <= n && Seen(d, n) :: Seen(d', n)
    ensures iter.fields[iter.pos].htype.Required? && RequiredBefore(iter.fields, iter.pos) < MAX_REQUIRED_FIELDS ==>
      Seen(d', RequiredBefore(iter.fields, iter.pos))
    ensures if Fixed(iter.fields[iter.pos]) then d'.fixedField == Some(iter.pos) && d'.fixedSize == size
      else d'.fixedField == d.fixedField && d'.fixedSize == d.fixedSize
    ensures Underway(iter.fields, m, iter.pos, i, d) && SentField(iter.fields[iter.pos], m[iter.pData], i) ==>
      ok && size == i
  {
    var fields, k, f := iter.fields, iter.pos, iter.fields[iter.pos];
    assert ShapedSlot(f, d.dest[iter.pData]);
    if Underway(fields, m, k, i, d) && SentField(f, m[iter.pData], i) { StateStep(fields, m, k, i); }
    d' := d;
    size := if f.htype.Repeated? then |d.dest[iter.pData].items| else 0;
    ok := true;
    if Fixed(f) {
      ok, d' := TrackFixed(fields, k, d);
      size := d'.fixedSize;
    }
    if f.htype.Required? && iter.requiredFieldIndex < MAX_REQUIRED_FIELDS {
      MarkSees(fields, k, d);
      d' := Mark(d, iter.requiredFieldIndex);
    }
  }

  lemma {:induction false} Stepped(fields: seq<Field>, m: seq<Slot>, k: nat, i: nat, d: Decoding, d': Decoding)
    requires Underway(fields, m, k, i, d) && k < |fields| && SlotOf(fields, k) < |m| &&
      SentField(fields[k], m[SlotOf(fields, k)], i)
    requires PayloadReadable(fields[k], m[SlotOf(fields, k)], i) && SlotOf(fields, k) < |d.dest|
    requires d'.dest == d.dest[SlotOf(fields, k) := Filled(fields[k], m[SlotOf(fields, k)], i + 1)]
    requires forall n | 0 <= n && Seen(d, n) :: Seen(d', n)
    requires fields[k].htype.Required? && RequiredBefore(fields, k) < MAX_REQUIRED_FIELDS ==>
      Seen(d', RequiredBefore(fields, k))
    requires if Fixed(fields[k]) then
      d'.fixedField == Some(k) && d'.fixedSize == FilledSize(fields[k], m[SlotOf(fields, k)], i + 1)
      else d'.fixedField == d.fixedField && d'.fixedSize == d.fixedSize
    ensures Underway(fields, m, Behind(fields, m, k, i).0, Behind(fields, m, k, i).1, d')
  {
    StateStep(fields, m, k, i);
    ReadStep(fields, m, k, i);
  }

  /** Item i of field k is what comes next, and then the rest. */
  ghost predicate Due(fields: seq<Field>, m: seq<Slot>, k: nat, i: nat, d: Decoding, wireType: nat, bytes: seq<Byte>,
                      payload: seq<Byte>, tail: seq<Byte>) {
    Underway(fields, m, k, i, d) && k < |fields| && SlotOf(fields, k) < |m| &&
      SentField(fields[k], m[SlotOf(fields, k)], i) &&
    Carries(fields[k], m[SlotOf(fields, k)], i, payload) && bytes == payload + tail &&
    wireType == FieldWireType(fields[k])
  }

  /** It is in place. */
  ghost predicate Placed(fields: seq<Field>, m: seq<Slot>, k: nat, i: nat, d: Decoding, bytes: seq<Byte>,
                         tail: seq<Byte>) {
    bytes == tail && Underway(fields, m, Behind(fields, m, k, i).0, Behind(fields, m, k, i).1, d)
  }

  /** A field that was found. */
  method DecodeField(s: IStream, iter: FieldIter, d: Decoding, wireType: nat, ghost m: seq<Slot>, ghost i: nat,
                     ghost payload: seq<Byte>, ghost tail: seq<Byte>)
    returns (ok: bool, d': Decoding)
    requires s.Ok() && iter.Ok() && WellFormed(iter.fields) && |iter.fields| > 0 && Tracks(iter.fields, d)
    modifies s
    ensures s.Ok() && s.bytesLeft <= old(s.bytesLeft) && s.End() <= old(s.End())
    ensures ok ==> s.End() == old(s.End()) && Tracks(iter.fields, d')
    ensures Due(iter.fields, m, iter.pos, i, d, wireType, old(s.Rest()), payload, tail) ==>
      if ok then Placed(iter.fields, m, iter.pos, i, d', s.Rest(), tail) else !Readable(iter.fields, m, 0)
    decreases iter.fields, 0, 0
  {
    var fields, k, f := iter.fields, iter.pos, iter.fields[iter.pos];
    FieldShaped(fields, d, k);
    ghost var due := Due(fields, m, k, i, d, wireType, s.Rest(), payload, tail);
    ghost var src := if due then m[iter.pData] else Unset;
    if due { DueFacts(fields, m, k, i, d, wireType, s.Rest(), payload, tail); }
    var size;
    ok, d', size := ReadyField(iter, d, m, i);
    if !ok {
      return;
    }
    ok, d' := DecodeInto(s, fields, k, iter.pData, d', wireType, size, src, i, payload, tail);
    if ok && due { Stepped(fields, m, k, i, d, d'); }
  }

  method DecodeInto(s: IStream, fields: seq<Field>, k: nat, place: nat, d: Decoding, wireType: nat, size: nat,
                    ghost src: Slot, ghost i: nat, ghost payload: seq<Byte>, ghost tail: seq<Byte>)
    returns (ok: bool, d': Decoding)
    requires s.Ok() && WellFormed(fields) && Tracks(fields, d) && k < |fields| && place == SlotOf(fields, k)
    modifies s
    ensures s.Ok() && s.bytesLeft <= old(s.bytesLeft) && s.End() <= old(s.End())
    ensures ok ==> s.End() == old(s.End()) && Tracks(fields, d') && d'.seen == d.seen && d'.fixedField == d.fixedField
    ensures ok && !Fixed(fields[k]) ==> d'.fixedSize == d.fixedSize
    ensures (place < |d.dest| && SentField(fields[k], src, i) && Carries(fields[k], src, i, payload) &&
        old(s.Rest()) == payload + tail &&
        wireType == FieldWireType(fields[k]) && d.dest[place] == Filled(fields[k], src, i) && size == i) ==>
      ok == PayloadReadable(fields[k], src, i) &&
      (ok ==>
        s.Rest() == tail && d'.dest == d.dest[place := Filled(fields[k], src, i + 1)] &&
        (Fixed(fields[k]) ==> d'.fixedSize == FilledSize(fields[k], src, i + 1)))
    decreases fields, 0, 0, 0
  {
    FieldShaped(fields, d, k);
    var slot, size';
    ok, slot, size' := DecodeStaticField(s, fields[k], d.dest[place], wireType, size, src, i, payload, tail);
    d' := d;
    if ok {
      d' := Store(fields, k, d, place, slot, size');
    }
  }

  lemma {:induction false} FieldShaped(fields: seq<Field>, d: Decoding, k: nat)
    requires WellFormed(fields) && Tracks(fields, d) && k < |fields|
    ensures WellFormedField(fields[k]) && SlotOf(fields, k) < |d.dest| &&
      ShapedSlot(fields[k], d.dest[SlotOf(fields, k)])
  {
    assert SlotOf(fields, k) < |d.dest|;
  }

  lemma {:induction false} DueFacts(fields: seq<Field>, m: seq<Slot>, k: nat, i: nat, d: Decoding, wireType: nat,
                                    bytes: seq<Byte>, payload: seq<Byte>, tail: seq<Byte>)
    requires Due(fields, m, k, i, d, wireType, bytes, payload, tail)
    ensures SlotOf(fields, k) < |d.dest| && d.dest[SlotOf(fields, k)] == Filled(fields[k], m[SlotOf(fields, k)], i)
    ensures !PayloadReadable(fields[k], m[SlotOf(fields, k)], i) ==> !Readable(fields, m, 0)
  {
    StateStep(fields, m, k, i);
    ReadStep(fields, m, k, i);
  }

  function Store(fields: seq<Field>, k: nat, d: Decoding, place: nat, slot: Slot, size: nat): (d': Decoding)
    requires WellFormed(fields) && Tracks(fields, d) && k < |fields| && place == SlotOf(fields, k) &&
      ShapedSlot(fields[k], slot)
    requires fields[k].htype.Oneof? ==> slot.Chosen? && slot.tag == fields[k].tag
    ensures Tracks(fields, d') && place < |d.dest| && d'.dest == d.dest[place := slot] && d'.seen == d.seen
    ensures d'.fixedField == d.fixedField && d'.fixedSize == if Fixed(fields[k]) then size else d.fixedSize
  {
    UpdateShaped(fields, d.dest, k, slot);
    d.(dest := d.dest[place := slot], fixedSize := if Fixed(fields[k]) then size else d.fixedSize)
  }

  lemma {:induction false} SameTag(fields: seq<Field>, j: nat, k: nat)
    requires WellFormed(fields) && j < |fields| && k < |fields| && fields[j].tag == fields[k].tag
    ensures j == k
  {
  }

  /** One tag and what belongs to it. Unknown fields are skipped; a zero tag ends the message. */
  method DecodeNext(s: IStream, iter: FieldIter, d: Decoding, ghost m: seq<Slot>, ghost k: nat, ghost i: nat)
    returns (ok: bool, done: bool, d': Decoding, ghost k': nat, ghost i': nat)
    requires s.Ok() && iter.Ok() && WellFormed(iter.fields) && Tracks(iter.fields, d) && s.bytesLeft > 0
    modifies s, iter
    ensures s.Ok() && iter.Ok() && s.bytesLeft <= old(s.bytesLeft) && s.End() <= old(s.End())
    ensures ok ==> s.End() == old(s.End()) && Tracks(iter.fields, d') && (!done ==> s.bytesLeft < old(s.bytesLeft))
    ensures (Underway(iter.fields, m, k, i, d) && Spliced(iter.fields, m, k, i, old(s.Rest()))) ==>
      (ok ==> !done && Underway(iter.fields, m, k', i', d') && Spliced(iter.fields, m, k', i', s.Rest())) &&
      (!ok ==> !Readable(iter.fields, m, 0))
    decreases iter.fields, 0, 1
  {
    ghost var fields := iter.fields;
    ghost var expected := Underway(fields, m, k, i, d) && Spliced(fields, m, k, i, s.Rest());
    ghost var first := First(false, 0, 0, 0, [], []);
    d', k', i', done := d, k, i, false;
    if expected { first := FirstOf(fields, m, k, i, d, s.Rest()); }
    var wireType, number, eof;
    ok, wireType, number, eof := DecodeTag(s, first.wireType, first.tag, first.payload + first.tail);
    if !ok {
      ok, done := eof, true;
      return;
    }
    var found := iter.Find(number);
    if !found {
      ok := SkipField(s, wireType, first.payload, first.tail);
      return;
    }
    if iter.Tag() == 0 {
      // The terminator of an empty descriptor reads as a required bool; there is nothing to store it in.
      var b;
      ok, b := DecodeBool(s, 0, []);
      return;
    }
    if expected {
      SameTag(fields, iter.pos, first.k);
      assert Due(fields, m, iter.pos, i, d, wireType, s.Rest(), first.payload, first.tail);
    }
    ok, d' := DecodeField(s, iter, d, wireType, m, i, first.payload, first.tail);
    if expected { k', i' := Behind(fields, m, first.k, i).0, Behind(fields, m, first.k, i).1; }
  }

  /** What a tag comes from. */
  lemma {:induction false} FirstOf(fields: seq<Field>, m: seq<Slot>, k: nat, i: nat, d: Decoding, bytes: seq<Byte>)
    returns (first: First)
    requires Underway(fields, m, k, i, d) && Spliced(fields, m, k, i, bytes) && |bytes| > 0
    ensures Leads(fields, m, k, i, bytes, first) && 0 < first.tag < TAG_LIMIT && first.wireType < 8
    ensures first.known ==>
      Underway(fields, m, first.k, i, d) && SentField(fields[first.k], m[SlotOf(fields, first.k)], i)
  {
    first := SplicedFirst(fields, m, k, i, bytes);
    if first.known {
      AdvanceTo(fields, m, k, i, first.k, d);
      NowSent(fields, m, first.k, i, first.payload);
      assert WellFormedField(fields[first.k]);
    }
  }

  /** The bits of all required fields, of the first 64 at least, are set: whole words first, then the rest. */
  method CheckRequired(iter: FieldIter, d: Decoding) returns (ok: bool)
    requires iter.Ok() && WellFormed(iter.fields) && Tracks(iter.fields, d)
    modifies iter
    ensures ok <==>
      forall n | 0 <= n < RequiredBefore(iter.fields, |iter.fields|) && n < MAX_REQUIRED_FIELDS :: Seen(d, n)
  {
    var fields := iter.fields;
    var count, last := iter.requiredFieldIndex, Required;
    var more := iter.Tag() != 0;
    assert |fields| > 0 ==> WellFormedField(fields[iter.pos]);
    while more
      invariant iter.Ok() && (|fields| == 0 ==> count == 0 && !more)
      invariant |fields| > 0 && !more ==>
        count == RequiredBefore(fields, |fields| - 1) && last == fields[|fields| - 1].htype
      invariant !more && |fields| > 0 ==> iter.pos == 0
      decreases if more then |fields| - iter.pos else 0
    {
      count, last := iter.requiredFieldIndex, fields[iter.pos].htype;
      more := iter.Next();
    }
    assert |fields| > 0 ==> WellFormedField(fields[0]);
    if last.Required? && iter.Tag() != 0 {
      count := count + 1;
    }
    assert count == RequiredBefore(fields, |fields|);
    if count > MAX_REQUIRED_FIELDS {
      count := MAX_REQUIRED_FIELDS;
    }
    ok := CheckBits(d, count);
  }

  /** The lowest n bits. */
  function Bits(n: nat): (r: set<nat>)
    ensures forall b :: b in r <==> 0 <= b < n
  {
    if n == 0 then {} else Bits(n - 1) + {n - 1}
  }

  method CheckBits(d: Decoding, count: nat) returns (ok: bool)
    requires |d.seen| == 2 && count <= MAX_REQUIRED_FIELDS
    requires forall w, b | 0 <= w < 2 && b in d.seen[w] :: b < 32
    requires count < MAX_REQUIRED_FIELDS ==> forall w, b | 0 <= w < 2 && b in d.seen[w] :: 32 * w + b < count
    ensures ok <==> forall n | 0 <= n < count :: Seen(d, n)
  {
    var all := Bits(32);
    var i := 0;
    while i < count / 32
      invariant 0 <= i <= count / 32 && forall n | 0 <= n < 32 * i :: Seen(d, n)
    {
      if d.seen[i] != all {
        var b :| b in all && b !in d.seen[i];
        assert !Seen(d, 32 * i + b);
        return false;
      }
      i := i + 1;
    }
    if count % 32 != 0 {
      var low := Bits(count % 32);
      if d.seen[count / 32] != low {
        var b :| b in low && b !in d.seen[count / 32];
        assert !Seen(d, 32 * (count / 32) + b);
        return false;
      }
    }
    ok := true;
  }

  /** Reads fields until the stream ends, over what is in the structure. */
  method DecodeNoInit(s: IStream, fields: seq<Field>, prior: seq<Slot>, ghost m: seq<Slot>)
    returns (ok: bool, dest: seq<Slot>)
    requires s.Ok() && WellFormed(fields) && Shaped(fields, prior)
    modifies s
    ensures s.Ok() && s.bytesLeft <= old(s.bytesLeft) && s.End() <= old(s.End()) &&
      (ok ==> s.End() == old(s.End()) && Shaped(fields, dest))
    ensures (Typed(fields, m) && Encodable(fields, m, 0) && Spliced(fields, m, 0, 0, old(s.Rest())) &&
        prior == Defaults(fields, |fields|)) ==>
      ok == Readable(fields, m, 0) && (ok ==> dest == Settled(fields, m))
    decreases fields, 0, 2
  {
    ghost var expected := Typed(fields, m) && Encodable(fields, m, 0) && Spliced(fields, m, 0, 0, s.Rest()) &&
      prior == Defaults(fields, |fields|);
    var iter := new FieldIter(fields);
    var d := Decoding(prior, [{}, {}], None, 0);
    ghost var k: nat, i: nat := 0, 0;
    var done := false;
    while s.bytesLeft > 0 && !done
      invariant s.Ok() && iter.Ok() && fresh(iter) && iter.fields == fields && Tracks(fields, d)
      invariant s.bytesLeft <= old(s.bytesLeft) && s.End() == old(s.End())
      invariant expected ==> !done && Underway(fields, m, k, i, d) && Spliced(fields, m, k, i, s.Rest())
      decreases s.bytesLeft, !done
    {
      ok, done, d, k, i := DecodeNext(s, iter, d, m, k, i);
      if !ok {
        return false, d.dest;
      }
    }
    if expected { Arrived(fields, m, k, i, d); }
    dest := d.dest;
    if !FixedComplete(fields, d) {
      return false, dest;
    }
    ok := CheckRequired(iter, d);
  }

  /** When nothing is left to read, everything is in place. */
  lemma {:induction false} Arrived(fields: seq<Field>, m: seq<Slot>, k: nat, i: nat, d: Decoding)
    requires Underway(fields, m, k, i, d) && Spliced(fields, m, k, i, [])
    ensures d.dest == Settled(fields, m) && Readable(fields, m, 0) && FixedComplete(fields, d)
    ensures forall n | 0 <= n < RequiredBefore(fields, |fields|) && n < MAX_REQUIRED_FIELDS :: Seen(d, n)
  {
    AllPassed(fields, m, k, d);
    forall n | 0 <= n < RequiredBefore(fields, |fields|) && n < MAX_REQUIRED_FIELDS ensures Seen(d, n) {
      var j := RequiredAt(fields, n);
      assert fields[j].htype.Required?;
    }
  }

  lemma {:induction false} AllPassed(fields: seq<Field>, m: seq<Slot>, k: nat, d: Decoding)
    requires Underway(fields, m, k, 0, d) && NothingBetween(fields, m, k, |fields|)
    ensures Underway(fields, m, |fields|, 0, d)
    decreases |fields| - k
  {
    if k < |fields| {
      assert SlotOf(fields, k) < |m|;
      SkipAbsent(fields, m, k, d);
      AllPassed(fields, m, k + 1, d);
    }
  }
}
