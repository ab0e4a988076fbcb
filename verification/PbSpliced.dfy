/** Messages on the wire among fields that the reader does not know. */
module PbSpliced {
  import opened Format
  import opened Coding
  import opened PbCommon
  import opened PbWire
  import opened PbStream

  // ---- Items of a message ----

  /** An array whose items come one by one, each with the tag. */
  predicate Unpacked(f: Field) { f.htype.Repeated? && !f.ltype.Packable() }

  function FieldWireType(f: Field): nat {
    if f.htype.Repeated? && f.ltype.Packable() then WT_STRING else WireType(f.ltype)
  }

  ghost predicate AtItem(fields: seq<Field>, m: seq<Slot>, k: nat, i: nat) {
    i > 0 ==>
      k < |fields| && SlotOf(fields, k) < |m| && Unpacked(fields[k]) && Present(fields[k], m[SlotOf(fields, k)]) &&
      i < |m[SlotOf(fields, k)].items|
  }

  /** The place behind item i of field k. */
  ghost function Behind(fields: seq<Field>, m: seq<Slot>, k: nat, i: nat): (nat, nat) {
    if k < |fields| && SlotOf(fields, k) < |m| && Unpacked(fields[k]) && m[SlotOf(fields, k)].Many? &&
      i + 1 < |m[SlotOf(fields, k)].items|
    then (k, i + 1) else (k + 1, 0)
  }

  // ---- What a stream may hold of a message ----

  /** A field whose tag the descriptor does not have. */
  ghost predicate UnknownAs(fields: seq<Field>, bytes: seq<Byte>, tag: nat, wireType: nat, payload: seq<Byte>) {
    0 < tag < TAG_LIMIT && (forall k | 0 <= k < |fields| :: fields[k].tag != tag) &&
    PayloadOf(wireType, payload) && bytes == TagBytes(tag, wireType) + payload
  }

  ghost predicate Unknown(fields: seq<Field>, bytes: seq<Byte>) {
    exists tag, wireType, payload :: UnknownAs(fields, bytes, tag, wireType, payload)
  }

  /** The bytes of a value: those of its type, or a submessage that may itself be spliced. */
  ghost predicate Sends(lt: LType, v: Value, bytes: seq<Byte>)
    decreases lt, 0, 0
  {
    if lt.LSubmessage? then v.Msg? && exists w :: bytes == LengthPrefixed(w) && Spliced(lt.fields, v.slots, 0, 0, w)
    else bytes == ValueBytes(lt, v)
  }

  /** What comes behind the tag of a field: an item, a packed array, or a value. */
  ghost predicate Carries(f: Field, src: Slot, i: nat, payload: seq<Byte>)
    decreases f, 1, 0
  {
    Present(f, src) && |payload| < WORD_LIMIT &&
    if Unpacked(f) then i < |src.items| && Sends(f.ltype, src.items[i], payload)
    else if f.htype.Repeated? then payload == LengthPrefixed(PackedItems(f.ltype, src.items))
    else Sends(f.ltype, src.value, payload)
  }

  ghost predicate Piece(f: Field, src: Slot, i: nat, bytes: seq<Byte>)
    decreases f, 2, 0
  {
    exists payload :: bytes == TagBytes(f.tag, FieldWireType(f)) + payload && Carries(f, src, i, payload)
  }

  predicate NothingBetween(fields: seq<Field>, m: seq<Slot>, k: nat, k': nat) {
    forall j {:trigger SlotOf(fields, j)} | k <= j < k' && j < |fields| ::
      SlotOf(fields, j) < |m| ==> !Present(fields[j], m[SlotOf(fields, j)])
  }

  /** Field k', at item i, is the next one of which there is something. */
  ghost predicate NextIs(fields: seq<Field>, m: seq<Slot>, k: nat, i: nat, k': nat) {
    k <= k' < |fields| && SlotOf(fields, k') < |m| && (i > 0 ==> k' == k) && NothingBetween(fields, m, k, k')
  }

  /** From item i of field k on, the bytes are the rest of the message in the order of the descriptor, with unknown
      fields anywhere among them. */
  ghost predicate Spliced(fields: seq<Field>, m: seq<Slot>, k: nat, i: nat, bytes: seq<Byte>)
    decreases fields, 3, |bytes|
  {
    AtItem(fields, m, k, i) &&
    (|| (bytes == [] && i == 0 && NothingBetween(fields, m, k, |fields|))
     || (exists cut: nat ::
           0 < cut <= |bytes| && Unknown(fields, bytes[..cut]) && Spliced(fields, m, k, i, bytes[cut..]))
     || (exists cut: nat, k': nat ::
           0 < cut <= |bytes| && NextIs(fields, m, k, i, k') &&
           Piece(fields[k'], m[SlotOf(fields, k')], i, bytes[..cut]) &&
           Spliced(fields, m, Behind(fields, m, k', i).0, Behind(fields, m, k', i).1, bytes[cut..])))
  }

  // ---- Taking it apart ----

  /** What comes first: a field that is unknown, or the next item of the message. */
  datatype First = First(known: bool, k: nat, tag: nat, wireType: nat, payload: seq<Byte>, tail: seq<Byte>)

  ghost predicate Leads(fields: seq<Field>, m: seq<Slot>, k: nat, i: nat, bytes: seq<Byte>, first: First) {
    bytes == TagBytes(first.tag, first.wireType) + (first.payload + first.tail) &&
    if first.known then
      NextIs(fields, m, k, i, first.k) && first.tag == fields[first.k].tag &&
      first.wireType == FieldWireType(fields[first.k]) &&
      Carries(fields[first.k], m[SlotOf(fields, first.k)], i, first.payload) &&
      Spliced(fields, m, Behind(fields, m, first.k, i).0, Behind(fields, m, first.k, i).1, first.tail)
    else
      0 < first.tag < TAG_LIMIT && first.wireType < 8 && (forall j | 0 <= j < |fields| :: fields[j].tag != first.tag) &&
      PayloadOf(first.wireType, first.payload) && Spliced(fields, m, k, i, first.tail)
  }

  lemma {:induction false} SplicedFirst(fields: seq<Field>, m: seq<Slot>, k: nat, i: nat, bytes: seq<Byte>)
    returns (first: First)
    requires Spliced(fields, m, k, i, bytes) && |bytes| > 0
    ensures Leads(fields, m, k, i, bytes, first)
  {
    if cut: nat :| 0 < cut <= |bytes| && Unknown(fields, bytes[..cut]) && Spliced(fields, m, k, i, bytes[cut..]) {
      var tag, wireType, payload :| UnknownAs(fields, bytes[..cut], tag, wireType, payload);
      Rejoin(bytes, cut, TagBytes(tag, wireType), payload);
      first := First(false, 0, tag, wireType, payload, bytes[cut..]);
    } else {
      var cut: nat, k': nat :| 0 < cut <= |bytes| && NextIs(fields, m, k, i, k') &&
        Piece(fields[k'], m[SlotOf(fields, k')], i, bytes[..cut]) &&
        Spliced(fields, m, Behind(fields, m, k', i).0, Behind(fields, m, k', i).1, bytes[cut..]);
      var f := fields[k'];
      var payload :| bytes[..cut] == TagBytes(f.tag, FieldWireType(f)) + payload &&
        Carries(f, m[SlotOf(fields, k')], i, payload);
      Rejoin(bytes, cut, TagBytes(f.tag, FieldWireType(f)), payload);
      first := First(true, k', f.tag, FieldWireType(f), payload, bytes[cut..]);
    }
  }

  lemma {:induction false} Rejoin(bytes: seq<Byte>, cut: nat, tag: seq<Byte>, payload: seq<Byte>)
    requires cut <= |bytes| && bytes[..cut] == tag + payload
    ensures bytes == tag + (payload + bytes[cut..])
  {
    assert bytes == bytes[..cut] + bytes[cut..];
  }

  // ---- Putting it together ----

  lemma {:induction false} TagTakesSpace(tag: nat, wireType: nat)
    ensures |TagBytes(tag, wireType)| > 0
  {
    var n := tag * 8 + wireType;
    assert |Varint(n)| > 0;
  }

  lemma {:induction false} Splice(fields: seq<Field>, m: seq<Slot>, k: nat, i: nat, tag: nat, wireType: nat,
                                  payload: seq<Byte>, tail: seq<Byte>)
    requires AtItem(fields, m, k, i) && Spliced(fields, m, k, i, tail)
    requires UnknownAs(fields, TagBytes(tag, wireType) + payload, tag, wireType, payload)
    ensures Spliced(fields, m, k, i, TagBytes(tag, wireType) + payload + tail)
  {
    var head := TagBytes(tag, wireType) + payload;
    TagTakesSpace(tag, wireType);
    var bytes, cut := head + tail, |head|;
    assert bytes[..cut] == head && bytes[cut..] == tail;
    assert Unknown(fields, bytes[..cut]);
  }

  lemma {:induction false} Lead(fields: seq<Field>, m: seq<Slot>, k: nat, i: nat, k': nat, payload: seq<Byte>,
                                tail: seq<Byte>)
    requires AtItem(fields, m, k, i) && NextIs(fields, m, k, i, k')
    requires Carries(fields[k'], m[SlotOf(fields, k')], i, payload)
    requires Spliced(fields, m, Behind(fields, m, k', i).0, Behind(fields, m, k', i).1, tail)
    ensures Spliced(fields, m, k, i, TagBytes(fields[k'].tag, FieldWireType(fields[k'])) + payload + tail)
  {
    var f := fields[k'];
    var head := TagBytes(f.tag, FieldWireType(f)) + payload;
    TagTakesSpace(f.tag, FieldWireType(f));
    var bytes, cut := head + tail, |head|;
    assert bytes[..cut] == head && bytes[cut..] == tail;
    assert Piece(f, m[SlotOf(fields, k')], i, bytes[..cut]);
  }
}
