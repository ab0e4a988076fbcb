/** Two versions of a descriptor: the reader knows some of the sender's fields, here and in submessages. */
module PbVersions {
  import opened Format
  import opened Coding
  import opened PbCommon
  import opened PbWire
  import opened PbStream
  import opened PbSpliced

  // ---- Older descriptors, and what they see of a message ----

  predicate SameHType(hw: HType, h: HType) { if hw.Oneof? then h.Oneof? else hw == h }

  ghost predicate OlderType(lw: LType, lt: LType)
    decreases lw
  {
    if lw.LSubmessage? && lt.LSubmessage? then exists e :: Embeds(lw.fields, lt.fields, e) else lw == lt
  }

  ghost predicate OlderField(fw: Field, f: Field)
    decreases fw
  {
    fw.tag == f.tag && SameHType(fw.htype, f.htype) && OlderType(fw.ltype, f.ltype)
  }

  /** The reader's field k is the sender's field e[k]; both keep the order. */
  ghost predicate Embeds(wide: seq<Field>, fields: seq<Field>, e: seq<nat>)
    decreases wide
  {
    |e| == |fields| && (forall k | 0 <= k < |e| :: e[k] < |wide| && OlderField(wide[e[k]], fields[k])) &&
    forall j, k | 0 <= j < k < |e| :: e[j] < e[k]
  }

  /** The reader's structure holds of the sender's what the reader knows. */
  ghost predicate Restricts(wide: seq<Field>, m: seq<Slot>, fields: seq<Field>, n: seq<Slot>)
    decreases wide, 1
  {
    exists e :: RestrictsBy(wide, m, fields, n, e)
  }

  ghost predicate RestrictsBy(wide: seq<Field>, m: seq<Slot>, fields: seq<Field>, n: seq<Slot>, e: seq<nat>)
    decreases wide, 0
  {
    Embeds(wide, fields, e) && |m| == SlotCount(wide) && |n| == SlotCount(fields) &&
    forall k | 0 <= k < |e| :: SlotOf(wide, e[k]) < |m| && SlotOf(fields, k) < |n| &&
      RestrictsSlot(wide[e[k]], m[SlotOf(wide, e[k])], fields[k], n[SlotOf(fields, k)])
  }

  ghost predicate RestrictsSlot(fw: Field, src: Slot, f: Field, dst: Slot)
    decreases fw
  {
    (Present(f, dst) <==> Present(fw, src)) &&
    (Present(f, dst) ==>
      if src.Many? then
        dst.Many? && |dst.items| == |src.items| &&
        forall i | 0 <= i < |src.items| :: RestrictsValue(fw.ltype, src.items[i], f.ltype, dst.items[i])
      else !dst.Many? && RestrictsValue(fw.ltype, src.value, f.ltype, dst.value))
  }

  ghost predicate RestrictsValue(lw: LType, v: Value, lt: LType, v': Value)
    decreases lw
  {
    if lw.LSubmessage? && lt.LSubmessage? then
      v.Msg? && v'.Msg? && Restricts(lw.fields, v.slots, lt.fields, v'.slots)
    else lw == lt && v == v'
  }

  /** The next field of the sender is number w; of the reader, number k. */
  ghost predicate Matches(e: seq<nat>, w: nat, k: nat) {
    k <= |e| && (forall j | 0 <= j < k :: e[j] < w) && forall j | k <= j < |e| :: w <= e[j]
  }

  // ---- Payloads ----

  /** What a sender writes behind a tag can be skipped by its wire type. */
  lemma {:induction false} ValuePayload(lt: LType, v: Value)
    requires TypedValue(lt, v) && |ValueBytes(lt, v)| < WORD_LIMIT
    ensures PayloadOf(WireType(lt), ValueBytes(lt, v))
  {
    match lt
    case LBool | LUVarint(_) => assert ValueBytes(lt, v) == Varint(v.n);
    case LVarint(_) => assert ValueBytes(lt, v) == Varint(if v.n < 0 then TwosComplement(v.n) else v.n);
    case LSVarint(_) => assert ValueBytes(lt, v) == Varint(ZigZag(v.n));
    case LSubmessage(fields) => PrefixedPayload(Wire(fields, v.slots, 0));
    case LBytes(_) | LString(_) | LFixedLengthBytes(_) => PrefixedPayload(v.bytes);
    case _ =>
  }

  lemma {:induction false} PrefixedPayload(w: seq<Byte>)
    requires |LengthPrefixed(w)| < WORD_LIMIT
    ensures PayloadOf(2, LengthPrefixed(w))
  {
    assert |w| < WORD_LIMIT;
  }

  lemma {:induction false} SameWireType(fw: Field, f: Field)
    requires OlderField(fw, f)
    ensures FieldWireType(fw) == FieldWireType(f) && (Unpacked(fw) <==> Unpacked(f))
    ensures fw.ltype.Packable() <==> f.ltype.Packable()
    ensures !fw.ltype.LSubmessage? ==> fw.ltype == f.ltype
  {
  }

  // ---- Unknown fields ----

  ghost predicate NotKnown(fields: seq<Field>, tag: nat) {
    0 < tag < TAG_LIMIT && forall k | 0 <= k < |fields| :: fields[k].tag != tag
  }

  lemma {:induction false} SpliceOne(fields: seq<Field>, n: seq<Slot>, k: nat, tag: nat, wireType: nat,
                                     payload: seq<Byte>, tail: seq<Byte>)
    requires NotKnown(fields, tag) && PayloadOf(wireType, payload) && Spliced(fields, n, k, 0, tail)
    ensures Spliced(fields, n, k, 0, TagBytes(tag, wireType) + payload + tail)
  {
    Splice(fields, n, k, 0, tag, wireType, payload, tail);
  }

  lemma {:induction false} SpliceItem(fields: seq<Field>, n: seq<Slot>, k: nat, f: Field, v: Value, rest: seq<Byte>,
                                      tail: seq<Byte>)
    requires NotKnown(fields, f.tag) && TypedValue(f.ltype, v) && |ValueBytes(f.ltype, v)| < WORD_LIMIT
    requires Spliced(fields, n, k, 0, rest + tail)
    ensures Spliced(fields, n, k, 0, TagBytes(f.tag, WireType(f.ltype)) + ValueBytes(f.ltype, v) + rest + tail)
  {
    ValuePayload(f.ltype, v);
    SpliceOne(fields, n, k, f.tag, WireType(f.ltype), ValueBytes(f.ltype, v), rest + tail);
    Regroup(TagBytes(f.tag, WireType(f.ltype)) + ValueBytes(f.ltype, v), rest, tail);
  }

  lemma {:induction false} FirstItem(f: Field, items: seq<Value>)
    requires |items| > 0
    ensures TaggedItems(f, items) ==
      TagBytes(f.tag, WireType(f.ltype)) + ValueBytes(f.ltype, items[0]) + TaggedItems(f, items[1..])
  {
    var tag, item, rest := TaggedStep(f, items, 0);
    assert items[0..] == items;
  }

  lemma {:induction false} SpliceItems(fields: seq<Field>, n: seq<Slot>, k: nat, f: Field, items: seq<Value>,
                                       tail: seq<Byte>)
    requires NotKnown(fields, f.tag) && Spliced(fields, n, k, 0, tail)
    requires (forall v | v in items :: TypedValue(f.ltype, v)) && |TaggedItems(f, items)| < WORD_LIMIT
    ensures Spliced(fields, n, k, 0, TaggedItems(f, items) + tail)
    decreases |items|
  {
    if |items| == 0 {
      assert TaggedItems(f, items) + tail == tail;
    } else {
      FirstItem(f, items);
      assert items[0] in items && forall v | v in items[1..] :: v in items;
      SpliceItems(fields, n, k, f, items[1..], tail);
      SpliceItem(fields, n, k, f, items[0], TaggedItems(f, items[1..]), tail);
    }
  }

  /** A field that the reader does not know. */
  lemma {:induction false} SpliceField(fields: seq<Field>, n: seq<Slot>, k: nat, f: Field, src: Slot, tail: seq<Byte>)
    requires NotKnown(fields, f.tag) && Spliced(fields, n, k, 0, tail)
    requires TypedSlot(f, src) && Present(f, src) && |FieldBytes(f, src)| < WORD_LIMIT
    ensures Spliced(fields, n, k, 0, FieldBytes(f, src) + tail)
  {
    if Unpacked(f) {
      SpliceItems(fields, n, k, f, src.items, tail);
    } else if src.Many? {
      var packed := PackedItems(f.ltype, src.items);
      PrefixedPayload(packed);
      SpliceOne(fields, n, k, f.tag, WT_STRING, LengthPrefixed(packed), tail);
    } else {
      ValuePayload(f.ltype, src.value);
      SpliceOne(fields, n, k, f.tag, WireType(f.ltype), ValueBytes(f.ltype, src.value), tail);
    }
  }

  // ---- Known fields ----

  lemma {:induction false} NothingMore(fields: seq<Field>, n: seq<Slot>, k: nat, k': nat)
    requires k < |fields| && SlotOf(fields, k) < |n| && !Present(fields[k], n[SlotOf(fields, k)])
    requires NothingBetween(fields, n, k + 1, k')
    ensures NothingBetween(fields, n, k, k')
  {
  }

  lemma {:induction false} PassKnown(fields: seq<Field>, n: seq<Slot>, k: nat, first: First)
    requires k < |fields| && SlotOf(fields, k) < |n| && !Present(fields[k], n[SlotOf(fields, k)])
    requires first.known && NextIs(fields, n, k + 1, 0, first.k)
    requires Carries(fields[first.k], n[SlotOf(fields, first.k)], 0, first.payload)
    requires Spliced(fields, n, Behind(fields, n, first.k, 0).0, Behind(fields, n, first.k, 0).1, first.tail)
    ensures Spliced(fields, n, k, 0,
      TagBytes(fields[first.k].tag, FieldWireType(fields[first.k])) + first.payload + first.tail)
  {
    NothingMore(fields, n, k, first.k);
    Lead(fields, n, k, 0, first.k, first.payload, first.tail);
  }

  /** A field of which there is nothing can be passed over. */
  lemma {:induction false} PassAbsent(fields: seq<Field>, n: seq<Slot>, k: nat, bytes: seq<Byte>)
    requires k < |fields| && SlotOf(fields, k) < |n| && !Present(fields[k], n[SlotOf(fields, k)])
    requires Spliced(fields, n, k + 1, 0, bytes)
    ensures Spliced(fields, n, k, 0, bytes)
    decreases |bytes|
  {
    if |bytes| == 0 {
      NothingMore(fields, n, k, |fields|);
    } else {
      var first := SplicedFirst(fields, n, k + 1, 0, bytes);
      Regroup(TagBytes(first.tag, first.wireType), first.payload, first.tail);
      TagTakesSpace(first.tag, first.wireType);
      if first.known {
        PassKnown(fields, n, k, first);
      } else {
        PassAbsent(fields, n, k, first.tail);
        Splice(fields, n, k, 0, first.tag, first.wireType, first.payload, first.tail);
      }
    }
  }

  lemma {:induction false} LeadItem(fields: seq<Field>, n: seq<Slot>, k: nat, i: nat, fw: Field, item: seq<Byte>,
                                    rest: seq<Byte>, tail: seq<Byte>)
    requires k < |fields| && SlotOf(fields, k) < |n| && OlderField(fw, fields[k]) && Unpacked(fw)
    requires Present(fields[k], n[SlotOf(fields, k)]) && i < |n[SlotOf(fields, k)].items| && |item| < WORD_LIMIT
    requires Sends(fields[k].ltype, n[SlotOf(fields, k)].items[i], item)
    requires Spliced(fields, n, Behind(fields, n, k, i).0, Behind(fields, n, k, i).1, rest + tail)
    ensures Spliced(fields, n, k, i, TagBytes(fw.tag, WireType(fw.ltype)) + item + rest + tail)
  {
    SameWireType(fw, fields[k]);
    assert Carries(fields[k], n[SlotOf(fields, k)], i, item);
    Lead(fields, n, k, i, k, item, rest + tail);
    Regroup(TagBytes(fw.tag, WireType(fw.ltype)) + item, rest, tail);
  }

  /** All items of an array, the last one first. */
  lemma {:induction false} LeadItems(fields: seq<Field>, n: seq<Slot>, k: nat, fw: Field, items: seq<Value>,
                                     tail: seq<Byte>)
    requires k < |fields| && SlotOf(fields, k) < |n| && OlderField(fw, fields[k]) && Unpacked(fw)
    requires Present(fields[k], n[SlotOf(fields, k)]) && n[SlotOf(fields, k)].Many? && |items| > 0
    requires |n[SlotOf(fields, k)].items| == |items|
    requires forall j | 0 <= j < |items| :: ItemSent(fw, fields[k], n[SlotOf(fields, k)], items, j)
    requires Spliced(fields, n, k + 1, 0, tail)
    ensures Spliced(fields, n, k, 0, TaggedItems(fw, items) + tail)
  {
    SameWireType(fw, fields[k]);
    var i := |items|;
    assert TaggedItems(fw, items[i..]) + tail == tail;
    while i > 0
      invariant i <= |items|
      invariant if i < |items| then Spliced(fields, n, k, i, TaggedItems(fw, items[i..]) + tail)
        else Spliced(fields, n, k + 1, 0, TaggedItems(fw, items[i..]) + tail)
    {
      i := i - 1;
      var tag, item, rest := TaggedStep(fw, items, i);
      assert ItemSent(fw, fields[k], n[SlotOf(fields, k)], items, i);
      LeadItem(fields, n, k, i, fw, item, rest, tail);
    }
    assert items[0..] == items;
  }

  ghost predicate ItemSent(fw: Field, f: Field, dst: Slot, items: seq<Value>, j: nat)
    requires dst.Many? && j < |items| == |dst.items|
  {
    |ValueBytes(fw.ltype, items[j])| < WORD_LIMIT && Sends(f.ltype, dst.items[j], ValueBytes(fw.ltype, items[j]))
  }

  lemma {:induction false} ItemsSmall(f: Field, items: seq<Value>, j: nat)
    requires j < |items|
    ensures |ValueBytes(f.ltype, items[j])| <= |TaggedItems(f, items)|
  {
    if j == 0 {
      var tag, item, rest := TaggedStep(f, items, 0);
      assert items[0..] == items;
    } else {
      ItemsSmall(f, items[1..], j - 1);
      var tag, item, rest := TaggedStep(f, items, 0);
      assert items[0..] == items;
    }
  }

  /** A field that the reader knows. */
  lemma {:induction false} LeadField(fields: seq<Field>, n: seq<Slot>, k: nat, fw: Field, src: Slot, tail: seq<Byte>)
    requires k < |fields| && SlotOf(fields, k) < |n| && OlderField(fw, fields[k])
    requires RestrictsSlot(fw, src, fields[k], n[SlotOf(fields, k)]) && Present(fw, src)
    requires WellFormedField(fw) && WellFormedField(fields[k]) && TypedSlot(fw, src)
    requires |FieldBytes(fw, src)| < WORD_LIMIT && Spliced(fields, n, k + 1, 0, tail)
    ensures Spliced(fields, n, k, 0, FieldBytes(fw, src) + tail)
    decreases fw, 0
  {
    var f, dst := fields[k], n[SlotOf(fields, k)];
    SameWireType(fw, f);
    if Unpacked(fw) {
      forall j | 0 <= j < |src.items|
        ensures ItemSent(fw, f, dst, src.items, j)
      {
        ItemsSmall(fw, src.items, j);
        assert src.items[j] in src.items;
        SendsRestricted(fw.ltype, src.items[j], f.ltype, dst.items[j]);
      }
      LeadItems(fields, n, k, fw, src.items, tail);
    } else if src.Many? {
      assert src.items == dst.items;
      Lead(fields, n, k, 0, k, LengthPrefixed(PackedItems(fw.ltype, src.items)), tail);
    } else {
      SendsRestricted(fw.ltype, src.value, f.ltype, dst.value);
      Lead(fields, n, k, 0, k, ValueBytes(fw.ltype, src.value), tail);
    }
  }

  lemma {:induction false} SendsRestricted(lw: LType, v: Value, lt: LType, v': Value)
    requires RestrictsValue(lw, v, lt, v') && TypedValue(lw, v) && |ValueBytes(lw, v)| < WORD_LIMIT
    requires lw.LSubmessage? && lt.LSubmessage? ==> WellFormed(lw.fields) && WellFormed(lt.fields)
    requires lw.LSubmessage? <==> lt.LSubmessage?
    ensures Sends(lt, v', ValueBytes(lw, v))
    decreases lw
  {
    if lw.LSubmessage? {
      WireRestricted(lw.fields, v.slots, lt.fields, v'.slots);
    }
  }

  // ---- Whole messages ----

  lemma {:induction false} WireSmall(fields: seq<Field>, m: seq<Slot>, k: nat)
    requires Typed(fields, m) && k < |fields|
    ensures SlotOf(fields, k) < |m| &&
      |FieldBytes(fields[k], m[SlotOf(fields, k)])| <= |Wire(fields, m, k)| <= |Wire(fields, m, 0)|
  {
    assert SlotOf(fields, k) < |m|;
    var field, rest := WireStep(fields, m, k);
    if k > 0 {
      WireSmall(fields, m, k - 1);
      field, rest := WireStep(fields, m, k - 1);
    }
  }

  /** The sender's field w, as the reader sees it. */
  ghost predicate Ready(wide: seq<Field>, m: seq<Slot>, fields: seq<Field>, n: seq<Slot>, e: seq<nat>, w: nat) {
    w < |wide| && SlotOf(wide, w) < |m| && WellFormedField(wide[w]) && TypedSlot(wide[w], m[SlotOf(wide, w)]) &&
    |FieldBytes(wide[w], m[SlotOf(wide, w)])| < WORD_LIMIT && |e| == |fields| &&
    (w !in e ==> NotKnown(fields, wide[w].tag)) &&
    forall k | 0 <= k < |e| && e[k] == w :: KnownAs(fields, n, k, wide[w], m[SlotOf(wide, w)])
  }

  ghost predicate KnownAs(fields: seq<Field>, n: seq<Slot>, k: nat, fw: Field, src: Slot) {
    k < |fields| && SlotOf(fields, k) < |n| && WellFormedField(fields[k]) && OlderField(fw, fields[k]) &&
    RestrictsSlot(fw, src, fields[k], n[SlotOf(fields, k)])
  }

  lemma {:induction false} MakesReady(wide: seq<Field>, m: seq<Slot>, fields: seq<Field>, n: seq<Slot>, e: seq<nat>,
                                      w: nat)
    requires WellFormed(wide) && WellFormed(fields) && Typed(wide, m) && RestrictsBy(wide, m, fields, n, e)
    requires |Wire(wide, m, 0)| < WORD_LIMIT && w < |wide|
    ensures Ready(wide, m, fields, n, e, w)
  {
    FieldAt(wide, m, w);
    if w !in e { UnknownTag(wide, fields, e, w); }
    forall k | 0 <= k < |e| && e[k] == w ensures KnownAs(fields, n, k, wide[w], m[SlotOf(wide, w)]) {
      KnownAt(wide, m, fields, n, e, w, k);
    }
  }

  /** What a sender writes is, for a reader with an older descriptor, the message it knows among unknown fields. */
  lemma {:induction false} WireRestricted(wide: seq<Field>, m: seq<Slot>, fields: seq<Field>, n: seq<Slot>)
    requires WellFormed(wide) && WellFormed(fields) && Typed(wide, m) && Restricts(wide, m, fields, n)
    requires |Wire(wide, m, 0)| < WORD_LIMIT
    ensures Spliced(fields, n, 0, 0, Wire(wide, m, 0))
    decreases wide, 1
  {
    var e :| RestrictsBy(wide, m, fields, n, e);
    forall w | 0 <= w < |wide| ensures Ready(wide, m, fields, n, e, w) { MakesReady(wide, m, fields, n, e, w); }
    WireBackwards(wide, m, fields, n, e);
  }

  /** The last field first. */
  lemma {:induction false} WireBackwards(wide: seq<Field>, m: seq<Slot>, fields: seq<Field>, n: seq<Slot>, e: seq<nat>)
    requires forall w | 0 <= w < |wide| :: Ready(wide, m, fields, n, e, w)
    requires |e| == |fields| && Growing(e) && forall k | 0 <= k < |e| :: e[k] < |wide|
    ensures Spliced(fields, n, 0, 0, Wire(wide, m, 0))
    decreases wide, 0
  {
    if |e| > 0 { PlacesGrow(e, |e| - 1); }
    var w: nat, k: nat := |wide|, |e|;
    var bytes := Wire(wide, m, w);
    assert NothingBetween(fields, n, k, |fields|);
    while w > 0
      invariant k <= w <= |wide| && Matches(e, w, k) && bytes == Wire(wide, m, w) && Spliced(fields, n, k, 0, bytes)
    {
      w := w - 1;
      k, bytes := StepBack(wide, m, fields, n, e, w, k, bytes);
    }
  }

  ghost predicate Growing(e: seq<nat>) { forall i, j | 0 <= i < j < |e| :: e[i] < e[j] }

  lemma {:induction false} PlacesGrow(e: seq<nat>, k: nat)
    requires k < |e| && Growing(e)
    ensures e[k] >= k
  {
    if k > 0 { PlacesGrow(e, k - 1); }
  }

  lemma {:induction false} StepBack(wide: seq<Field>, m: seq<Slot>, fields: seq<Field>, n: seq<Slot>, e: seq<nat>,
                                    w: nat, k: nat, rest: seq<Byte>) returns (k': nat, bytes: seq<Byte>)
    requires Ready(wide, m, fields, n, e, w) && Growing(e) && Matches(e, w + 1, k)
    requires rest == Wire(wide, m, w + 1) && Spliced(fields, n, k, 0, rest)
    ensures k' <= w && Matches(e, w, k') && bytes == Wire(wide, m, w) && Spliced(fields, n, k', 0, bytes)
    decreases wide, 0, 0
  {
    var field, rest' := WireStep(wide, m, w);
    bytes := field + rest;
    if k > 0 { PlacesGrow(e, k - 1); }
    k' := k;
    if k > 0 && e[k - 1] == w {
      k' := k - 1;
      assert KnownAs(fields, n, k', wide[w], m[SlotOf(wide, w)]);
      KnownNext(fields, n, k', wide[w], m[SlotOf(wide, w)], rest);
    } else {
      assert w !in e;
      UnknownNext(fields, n, k, wide[w], m[SlotOf(wide, w)], rest);
    }
  }

  lemma {:induction false} FieldAt(wide: seq<Field>, m: seq<Slot>, w: nat)
    requires WellFormed(wide) && Typed(wide, m) && |Wire(wide, m, 0)| < WORD_LIMIT && w < |wide|
    ensures SlotOf(wide, w) < |m| && WellFormedField(wide[w]) && TypedSlot(wide[w], m[SlotOf(wide, w)])
    ensures |FieldBytes(wide[w], m[SlotOf(wide, w)])| < WORD_LIMIT
  {
    WireSmall(wide, m, w);
  }

  lemma {:induction false} KnownAt(wide: seq<Field>, m: seq<Slot>, fields: seq<Field>, n: seq<Slot>, e: seq<nat>,
                                   w: nat, k: nat)
    requires WellFormed(fields) && RestrictsBy(wide, m, fields, n, e) && k < |e| && e[k] == w
    ensures w < |wide| && SlotOf(wide, w) < |m| && KnownAs(fields, n, k, wide[w], m[SlotOf(wide, w)])
  {
    assert OlderField(wide[e[k]], fields[k]);
  }

  lemma {:induction false} KnownNext(fields: seq<Field>, n: seq<Slot>, k: nat, fw: Field, src: Slot, rest: seq<Byte>)
    requires k < |fields| && SlotOf(fields, k) < |n| && OlderField(fw, fields[k])
    requires RestrictsSlot(fw, src, fields[k], n[SlotOf(fields, k)])
    requires WellFormedField(fw) && WellFormedField(fields[k]) && TypedSlot(fw, src)
    requires |FieldBytes(fw, src)| < WORD_LIMIT && Spliced(fields, n, k + 1, 0, rest)
    ensures Spliced(fields, n, k, 0, FieldBytes(fw, src) + rest)
    decreases fw, 1
  {
    if Present(fw, src) {
      LeadField(fields, n, k, fw, src, rest);
    } else {
      assert FieldBytes(fw, src) + rest == rest;
      PassAbsent(fields, n, k, rest);
    }
  }

  lemma {:induction false} UnknownNext(fields: seq<Field>, n: seq<Slot>, k: nat, fw: Field, src: Slot, rest: seq<Byte>)
    requires NotKnown(fields, fw.tag) && TypedSlot(fw, src) && |FieldBytes(fw, src)| < WORD_LIMIT
    requires Spliced(fields, n, k, 0, rest)
    ensures Spliced(fields, n, k, 0, FieldBytes(fw, src) + rest)
  {
    if Present(fw, src) {
      SpliceField(fields, n, k, fw, src, rest);
    } else {
      assert FieldBytes(fw, src) + rest == rest;
    }
  }

  lemma {:induction false} UnknownTag(wide: seq<Field>, fields: seq<Field>, e: seq<nat>, w: nat)
    requires WellFormed(wide) && Embeds(wide, fields, e) && w < |wide| && w !in e
    ensures NotKnown(fields, wide[w].tag)
  {
    assert WellFormedField(wide[w]);
    forall j | 0 <= j < |fields| ensures fields[j].tag != wide[w].tag {
      assert OlderField(wide[e[j]], fields[j]) && e[j] in e;
    }
  }

  // ---- The same descriptor ----

  lemma {:induction false} EmbedsSelf(fields: seq<Field>)
    ensures Embeds(fields, fields, seq(|fields|, k => k))
    decreases fields
  {
    forall k | 0 <= k < |fields| ensures OlderField(fields[k], fields[k]) { OlderFieldSelf(fields[k]); }
  }

  lemma {:induction false} OlderFieldSelf(f: Field)
    ensures OlderField(f, f)
    decreases f
  {
    OlderSelf(f.ltype);
  }

  lemma {:induction false} OlderSelf(lt: LType)
    ensures OlderType(lt, lt)
    decreases lt
  {
    if lt.LSubmessage? { EmbedsSelf(lt.fields); }
  }

  lemma {:induction false} RestrictsSelf(fields: seq<Field>, m: seq<Slot>)
    requires Typed(fields, m)
    ensures Restricts(fields, m, fields, m)
    decreases fields
  {
    EmbedsSelf(fields);
    var e := seq(|fields|, k => k);
    forall k | 0 <= k < |e|
      ensures SlotOf(fields, e[k]) < |m|
      ensures RestrictsSlot(fields[e[k]], m[SlotOf(fields, e[k])], fields[k], m[SlotOf(fields, k)])
    {
      assert SlotOf(fields, k) < |m|;
      SlotSelf(fields[k], m[SlotOf(fields, k)]);
    }
    assert RestrictsBy(fields, m, fields, m, e);
  }

  lemma {:induction false} SlotSelf(f: Field, slot: Slot)
    requires TypedSlot(f, slot)
    ensures RestrictsSlot(f, slot, f, slot)
    decreases f
  {
    if Present(f, slot) {
      if slot.Many? {
        forall i | 0 <= i < |slot.items| ensures RestrictsValue(f.ltype, slot.items[i], f.ltype, slot.items[i]) {
          assert slot.items[i] in slot.items;
          ValueSelf(f.ltype, slot.items[i]);
        }
      } else {
        ValueSelf(f.ltype, slot.value);
      }
    }
  }

  lemma {:induction false} ValueSelf(lt: LType, v: Value)
    requires TypedValue(lt, v)
    ensures RestrictsValue(lt, v, lt, v)
    decreases lt
  {
    if lt.LSubmessage? { RestrictsSelf(lt.fields, v.slots); }
  }

  /** What a sender writes, a reader with the same descriptor finds. */
  lemma {:induction false} WireSpliced(fields: seq<Field>, m: seq<Slot>)
    requires WellFormed(fields) && Typed(fields, m) && |Wire(fields, m, 0)| < WORD_LIMIT
    ensures Spliced(fields, m, 0, 0, Wire(fields, m, 0))
  {
    RestrictsSelf(fields, m);
    WireRestricted(fields, m, fields, m);
  }
}
