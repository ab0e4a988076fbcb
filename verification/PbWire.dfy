/** What a message looks like on the wire, and what its receiver makes of it. */
module PbWire {
  import opened Format
  import opened Coding
  import opened PbCommon

  const WT_VARINT: nat := 0
  const WT_64BIT: nat := 1
  const WT_STRING: nat := 2
  const WT_32BIT: nat := 5

  function WireType(lt: LType): nat {
    match lt
    case LBool | LVarint(_) | LUVarint(_) | LSVarint(_) => WT_VARINT
    case LFixed32 => WT_32BIT
    case LFixed64 => WT_64BIT
    case _ => WT_STRING
  }

  // ---- Which fields are written ----

  /** A field without a flag counts as absent when its value is zero. */
  predicate IsZero(lt: LType, v: Value)
    decreases lt
  {
    match lt
    case LBytes(_) | LString(_) => v.Raw? && |v.bytes| == 0
    case LFixedLengthBytes(size) => size == 0
    case LSubmessage(fields) => v.Msg? && AllDefault(fields, v.slots, 0)
    case _ => v == Num(0)
  }

  predicate IsDefault(f: Field, slot: Slot)
    decreases f
  {
    match f.htype
    case Required => false
    case Repeated(counted, _) => counted && slot.Many? && |slot.items| == 0
    case Oneof(_) => slot.Unset?
    case Optional(true) => slot.Flagged? && !slot.has
    case Optional(false) => slot.Plain? && IsZero(f.ltype, slot.value)
  }

  predicate AllDefault(fields: seq<Field>, m: seq<Slot>, k: nat)
    decreases fields, |fields| - k
  {
    k >= |fields| ||
      (SlotOf(fields, k) < |m| && IsDefault(fields[k], m[SlotOf(fields, k)]) && AllDefault(fields, m, k + 1))
  }

  predicate Present(f: Field, slot: Slot) {
    match f.htype
    case Required => slot.Plain?
    case Optional(true) => slot.Flagged? && slot.has
    case Optional(false) => slot.Plain? && !IsZero(f.ltype, slot.value)
    case Repeated(_, _) => slot.Many? && |slot.items| > 0
    case Oneof(_) => slot.Chosen? && slot.tag == f.tag
  }

  // ---- The bytes ----

  function ZigZag(n: int): nat { if n < 0 then -2 * n - 1 else 2 * n }

  function EncodeFixed64(n: int): seq<Byte> {
    EncodeFixed32(n % 0x1_0000_0000) + EncodeFixed32(n / 0x1_0000_0000 % 0x1_0000_0000)
  }

  /** A negative number is written as the 64-bit word that stands for it. */
  function NumberBytes(lt: LType, n: int): seq<Byte> {
    match lt
    case LBool | LUVarint(_) => if n < 0 then [] else Varint(n)
    case LVarint(_) => if n < 0 then Varint(TwosComplement(n)) else Varint(n)
    case LSVarint(_) => Varint(ZigZag(n))
    case LFixed32 => EncodeFixed32(n % 0x1_0000_0000)
    case LFixed64 => EncodeFixed64(n)
    case _ => []
  }

  function TwosComplement(n: int): nat { n % 0x1_0000_0000_0000_0000 }

  lemma {:induction false} TwosComplementIs(n: int)
    requires -0x8000_0000_0000_0000 <= n < 0
    ensures TwosComplement(n) == n + 0x1_0000_0000_0000_0000
  {
  }

  function ValueBytes(lt: LType, v: Value): seq<Byte>
    decreases lt, 0
  {
    match v
    case Num(n) => NumberBytes(lt, n)
    case Raw(bytes) => LengthPrefixed(bytes)
    case Msg(slots) => if lt.LSubmessage? then LengthPrefixed(Wire(lt.fields, slots, 0)) else []
  }

  function TagBytes(tag: nat, wireType: nat): seq<Byte> { Varint(tag * 8 + wireType) }

  function TaggedValue(f: Field, v: Value): seq<Byte>
    decreases f, 0
  {
    TagBytes(f.tag, WireType(f.ltype)) + ValueBytes(f.ltype, v)
  }

  function PackedItems(lt: LType, items: seq<Value>): seq<Byte>
    decreases lt, 1, |items|
  {
    if |items| == 0 then [] else ValueBytes(lt, items[0]) + PackedItems(lt, items[1..])
  }

  function TaggedItems(f: Field, items: seq<Value>): seq<Byte>
    decreases f, 1, |items|
  {
    if |items| == 0 then [] else TaggedValue(f, items[0]) + TaggedItems(f, items[1..])
  }

  function FieldBytes(f: Field, slot: Slot): seq<Byte>
    decreases f, 2
  {
    if !Present(f, slot) then []
    else if !slot.Many? then TaggedValue(f, slot.value)
    else if f.ltype.Packable() then TagBytes(f.tag, WT_STRING) + LengthPrefixed(PackedItems(f.ltype, slot.items))
    else TaggedItems(f, slot.items)
  }

  /** The fields from number k on. */
  function Wire(fields: seq<Field>, m: seq<Slot>, k: nat): seq<Byte>
    decreases fields, |fields| - k
  {
    if k >= |fields| || SlotOf(fields, k) >= |m| then []
    else FieldBytes(fields[k], m[SlotOf(fields, k)]) + Wire(fields, m, k + 1)
  }

  lemma {:induction false} WireStep(fields: seq<Field>, m: seq<Slot>, k: nat)
    returns (field: seq<Byte>, rest: seq<Byte>)
    requires k < |fields| && SlotOf(fields, k) < |m|
    ensures field == FieldBytes(fields[k], m[SlotOf(fields, k)]) && rest == Wire(fields, m, k + 1)
    ensures Wire(fields, m, k) == field + rest
  {
    field, rest := FieldBytes(fields[k], m[SlotOf(fields, k)]), Wire(fields, m, k + 1);
  }

  lemma {:induction false} PackedStep(lt: LType, items: seq<Value>, i: nat) returns (item: seq<Byte>, rest: seq<Byte>)
    requires i < |items|
    ensures item == ValueBytes(lt, items[i]) && rest == PackedItems(lt, items[i + 1..])
    ensures PackedItems(lt, items[i..]) == item + rest
  {
    assert items[i..][1..] == items[i + 1..];
    item, rest := ValueBytes(lt, items[i]), PackedItems(lt, items[i + 1..]);
  }

  lemma {:induction false} TaggedStep(f: Field, items: seq<Value>, i: nat)
    returns (tag: seq<Byte>, item: seq<Byte>, rest: seq<Byte>)
    requires i < |items|
    ensures tag == TagBytes(f.tag, WireType(f.ltype)) && item == ValueBytes(f.ltype, items[i]) &&
      rest == TaggedItems(f, items[i + 1..])
    ensures TaggedItems(f, items[i..]) == tag + item + rest
  {
    assert items[i..][1..] == items[i + 1..];
    tag, item, rest := TagBytes(f.tag, WireType(f.ltype)), ValueBytes(f.ltype, items[i]),
      TaggedItems(f, items[i + 1..]);
  }

  // ---- When a message can be written, and when it can be read ----

  predicate EncodableValue(lt: LType, v: Value)
    decreases lt
  {
    match lt
    case LBytes(capacity) => v.Raw? ==> |v.bytes| <= capacity
    case LSubmessage(fields) => v.Msg? ==> Encodable(fields, v.slots, 0)
    case _ => true
  }

  predicate EncodableSlot(f: Field, slot: Slot)
    decreases f
  {
    !Present(f, slot) || (
      if slot.Many? then
        f.htype.Repeated? && |slot.items| <= f.htype.max && forall v | v in slot.items :: EncodableValue(f.ltype, v)
      else EncodableValue(f.ltype, slot.value))
  }

  /** Counters and byte counts stay within their arrays. */
  predicate Encodable(fields: seq<Field>, m: seq<Slot>, k: nat)
    decreases fields
  {
    forall j {:trigger SlotOf(fields, j)} | k <= j < |fields| :: SlotOf(fields, j) < |m| ==>
      EncodableSlot(fields[j], m[SlotOf(fields, j)])
  }

  predicate ReadableValue(lt: LType, v: Value)
    decreases lt
  {
    match lt
    case LString(size) => v.Raw? ==> |v.bytes| < size
    case LSubmessage(fields) => v.Msg? ==> Readable(fields, v.slots, 0)
    case _ => true
  }

  predicate ReadableSlot(f: Field, slot: Slot)
    decreases f
  {
    !Present(f, slot) || (
      if slot.Many? then forall v | v in slot.items :: ReadableValue(f.ltype, v)
      else ReadableValue(f.ltype, slot.value))
  }

  /** Every string that is written leaves room for its NUL. */
  predicate Readable(fields: seq<Field>, m: seq<Slot>, k: nat)
    decreases fields
  {
    forall j {:trigger SlotOf(fields, j)} | k <= j < |fields| :: SlotOf(fields, j) < |m| ==>
      ReadableSlot(fields[j], m[SlotOf(fields, j)])
  }

  // ---- What the receiver's structure holds ----

  function SettledValue(lt: LType, v: Value): Value
    decreases lt, 0
  {
    if lt.LSubmessage? && v.Msg? then Msg(State(lt.fields, v.slots, |lt.fields|)) else v
  }

  function SettledItems(lt: LType, items: seq<Value>): (r: seq<Value>)
    ensures |r| == |items| && forall i | 0 <= i < |r| :: r[i] == SettledValue(lt, items[i])
    decreases lt, 1, |items|
  {
    if |items| == 0 then [] else [SettledValue(lt, items[0])] + SettledItems(lt, items[1..])
  }

  function SettledSlot(f: Field, slot: Slot): Slot
    decreases f
  {
    match slot
    case Plain(v) => Plain(SettledValue(f.ltype, v))
    case Flagged(has, v) => Flagged(has, SettledValue(f.ltype, v))
    case Many(items) => Many(SettledItems(f.ltype, items))
    case Unset => Unset
    case Chosen(tag, v) => Chosen(tag, SettledValue(f.ltype, v))
  }

  /** After the first k fields of the message: what was written over the defaults. */
  function State(fields: seq<Field>, m: seq<Slot>, k: nat): (r: seq<Slot>)
    ensures |r| == SlotCount(fields)
    decreases fields, k
  {
    DefaultsLength(fields, |fields|);
    if k == 0 || k > |fields| || |m| != SlotCount(fields) then Defaults(fields, |fields|) else
      var before := State(fields, m, k - 1);
      var s := SlotOf(fields, k - 1);
      SlotsOrdered(fields, k - 1, |fields| - 1);
      if Present(fields[k - 1], m[s]) then before[s := SettledSlot(fields[k - 1], m[s])] else before
  }

  function Settled(fields: seq<Field>, m: seq<Slot>): seq<Slot> { State(fields, m, |fields|) }

  /** A slot keeps what it holds while none of its fields is present. */
  lemma {:induction false} StateKeeps(fields: seq<Field>, m: seq<Slot>, s: nat, a: nat, n: nat)
    requires a <= n <= |fields| && |m| == SlotCount(fields) && s < |m|
    requires forall j | a <= j < n && SlotOf(fields, j) == s :: !Present(fields[j], m[s])
    ensures State(fields, m, n)[s] == State(fields, m, a)[s]
  {
    if a < n {
      StateKeeps(fields, m, s, a, n - 1);
      SlotsOrdered(fields, n - 1, |fields| - 1);
    }
  }

  /** At most one field of a slot is present. */
  lemma {:induction false} OthersAbsent(fields: seq<Field>, m: seq<Slot>, j: nat, k: nat)
    requires WellFormed(fields) && j < |fields| && k < |fields| && j != k
    requires SlotOf(fields, j) == SlotOf(fields, k) < |m| && Present(fields[k], m[SlotOf(fields, k)])
    ensures !Present(fields[j], m[SlotOf(fields, k)])
  {
    if j < k { SlotsOrdered(fields, j, k); } else { SlotsOrdered(fields, k, j); }
    assert fields[j].tag != fields[k].tag;
  }

  lemma {:induction false} InitialAt(fields: seq<Field>, m: seq<Slot>, k: nat)
    requires k < |fields|
    ensures SlotOf(fields, k) < SlotCount(fields) && State(fields, m, 0)[SlotOf(fields, k)] == DefaultSlot(fields[k])
  {
    SlotsOrdered(fields, k, |fields| - 1);
    DefaultsAt(fields, |fields|, k);
  }

  /** A field that is present finds its slot at the default. */
  lemma {:induction false} FreshAt(fields: seq<Field>, m: seq<Slot>, k: nat)
    requires WellFormed(fields) && |m| == SlotCount(fields)
    requires k < |fields| && SlotOf(fields, k) < |m| && Present(fields[k], m[SlotOf(fields, k)])
    ensures State(fields, m, k)[SlotOf(fields, k)] == DefaultSlot(fields[k])
  {
    var s := SlotOf(fields, k);
    forall j | 0 <= j < k && SlotOf(fields, j) == s ensures !Present(fields[j], m[s]) { OthersAbsent(fields, m, j, k); }
    StateKeeps(fields, m, s, 0, k);
    InitialAt(fields, m, k);
  }

  lemma {:induction false} SettledPresent(fields: seq<Field>, m: seq<Slot>, k: nat)
    requires WellFormed(fields) && |m| == SlotCount(fields)
    requires k < |fields| && SlotOf(fields, k) < |m| && Present(fields[k], m[SlotOf(fields, k)])
    ensures Settled(fields, m)[SlotOf(fields, k)] == SettledSlot(fields[k], m[SlotOf(fields, k)])
  {
    var s := SlotOf(fields, k);
    forall j | k < j < |fields| && SlotOf(fields, j) == s
      ensures !Present(fields[j], m[s]) { OthersAbsent(fields, m, j, k); }
    StateKeeps(fields, m, s, k + 1, |fields|);
  }

  lemma {:induction false} SettledAbsent(fields: seq<Field>, m: seq<Slot>, k: nat)
    requires |m| == SlotCount(fields) && k < |fields| && SlotOf(fields, k) < |m|
    requires forall j | 0 <= j < |fields| &&
      SlotOf(fields, j) == SlotOf(fields, k) :: !Present(fields[j], m[SlotOf(fields, k)])
    ensures Settled(fields, m)[SlotOf(fields, k)] == DefaultSlot(fields[k])
  {
    StateKeeps(fields, m, SlotOf(fields, k), 0, |fields|);
    InitialAt(fields, m, k);
  }

  // ---- What it means to get a message back ----

  /** Flags, counters and union tags agree, present values agree, and a value whose flag is off is at its default. */
  ghost predicate SameMessage(fields: seq<Field>, m: seq<Slot>, r: seq<Slot>)
    decreases fields
  {
    |m| == |r| == SlotCount(fields) &&
    forall k {:trigger SlotOf(fields, k)} | 0 <= k < |fields| :: SlotOf(fields, k) < |m| &&
      SameSlot(fields[k], m[SlotOf(fields, k)], r[SlotOf(fields, k)])
  }

  ghost predicate SameSlot(f: Field, slot: Slot, r: Slot)
    decreases f
  {
    match slot
    case Plain(v) => r.Plain? && SameValue(f.ltype, v, r.value)
    case Flagged(has, v) => r.Flagged? && r.has == has &&
      (if has then SameValue(f.ltype, v, r.value) else r.value == DefaultValue(f))
    case Many(items) => r.Many? && |r.items| == |items| &&
      forall i | 0 <= i < |items| :: SameValue(f.ltype, items[i], r.items[i])
    case Unset => r.Unset?
    case Chosen(tag, v) => r.Chosen? && r.tag == tag && (tag == f.tag ==> SameValue(f.ltype, v, r.value))
  }

  ghost predicate SameValue(lt: LType, v: Value, r: Value)
    decreases lt
  {
    if lt.LSubmessage? && v.Msg? then r.Msg? && SameMessage(lt.fields, v.slots, r.slots) else v == r
  }

  /** Wherever a field without a flag is zero, in the message or in a part that is written, its default is zero. */
  ghost predicate ZerosKept(fields: seq<Field>, m: seq<Slot>)
    decreases fields
  {
    forall k {:trigger SlotOf(fields, k)} | 0 <= k < |fields| :: SlotOf(fields, k) < |m| ==>
      ZeroKept(fields[k], m[SlotOf(fields, k)])
  }

  ghost predicate ZeroKept(f: Field, slot: Slot)
    decreases f
  {
    if !Present(f, slot) then f.htype == Optional(false) ==> IsZero(f.ltype, DefaultValue(f))
    else if slot.Many? then forall v | v in slot.items :: ZerosKeptWithin(f.ltype, v)
    else ZerosKeptWithin(f.ltype, slot.value)
  }

  ghost predicate ZerosKeptWithin(lt: LType, v: Value)
    decreases lt
  {
    lt.LSubmessage? && v.Msg? ==> ZerosKept(lt.fields, v.slots)
  }

  lemma {:induction false} AllDefaultAt(fields: seq<Field>, m: seq<Slot>, k: nat, j: nat)
    requires k <= j < |fields| && AllDefault(fields, m, k)
    ensures SlotOf(fields, j) < |m| && IsDefault(fields[j], m[SlotOf(fields, j)])
    decreases j - k
  {
    if k < j { AllDefaultAt(fields, m, k + 1, j); }
  }

  lemma {:induction false} AllDefaultFrom(fields: seq<Field>, m: seq<Slot>, k: nat)
    requires forall j | k <= j < |fields| :: SlotOf(fields, j) < |m| && IsDefault(fields[j], m[SlotOf(fields, j)])
    ensures AllDefault(fields, m, k)
    decreases |fields| - k
  {
    if k < |fields| { AllDefaultFrom(fields, m, k + 1); }
  }

  /** A zero value is like the default exactly when the default is zero. */
  lemma {:induction false} ZeroLikeDefault(f: Field, v: Value)
    requires WellFormedField(f) && TypedValue(f.ltype, v) && IsZero(f.ltype, v)
    ensures SameValue(f.ltype, v, DefaultValue(f)) <==> IsZero(f.ltype, DefaultValue(f))
    decreases f, 0
  {
    if f.ltype.LSubmessage? {
      DefaultLikeDefaults(f.ltype.fields, v.slots);
    } else if f.ltype.LFixedLengthBytes? {
      assert v.bytes == [];
    }
  }

  lemma {:induction false} DefaultLikeDefaults(fields: seq<Field>, m: seq<Slot>)
    requires WellFormed(fields) && Typed(fields, m) && AllDefault(fields, m, 0)
    ensures SameMessage(fields, m, Defaults(fields, |fields|)) <==> AllDefault(fields, Defaults(fields, |fields|), 0)
    decreases fields
  {
    var d := Defaults(fields, |fields|);
    DefaultsLength(fields, |fields|);
    forall k | 0 <= k < |fields|
      ensures SlotOf(fields, k) < |m|
      ensures SameSlot(fields[k], m[SlotOf(fields, k)], d[SlotOf(fields, k)]) <==>
        IsDefault(fields[k], d[SlotOf(fields, k)])
    {
      DefaultsAt(fields, |fields|, k);
      AllDefaultAt(fields, m, 0, k);
      DefaultLike(fields[k], m[SlotOf(fields, k)]);
    }
    if AllDefault(fields, d, 0) {
      forall k | 0 <= k < |fields| ensures IsDefault(fields[k], d[SlotOf(fields, k)]) { AllDefaultAt(fields, d, 0, k); }
    }
    if SameMessage(fields, m, d) {
      AllDefaultFrom(fields, d, 0);
    }
  }

  lemma {:induction false} DefaultLike(f: Field, slot: Slot)
    requires WellFormedField(f) && TypedSlot(f, slot) && IsDefault(f, slot)
    ensures SameSlot(f, slot, DefaultSlot(f)) <==> IsDefault(f, DefaultSlot(f))
    decreases f, 1
  {
    if f.htype == Optional(false) { ZeroLikeDefault(f, slot.value); }
  }

  /** The receiver gets the message back exactly when no zero is mistaken for a default that is not zero. */
  lemma {:induction false} SettledSame(fields: seq<Field>, m: seq<Slot>)
    requires WellFormed(fields) && Typed(fields, m)
    ensures SameMessage(fields, m, Settled(fields, m)) <==> ZerosKept(fields, m)
    decreases fields
  {
    forall k | 0 <= k < |fields|
      ensures SameSlot(fields[k], m[SlotOf(fields, k)], Settled(fields, m)[SlotOf(fields, k)]) <==>
        ZeroKept(fields[k], m[SlotOf(fields, k)])
    {
      SettledSlotSame(fields, m, k);
    }
  }

  lemma {:induction false} SettledSlotSame(fields: seq<Field>, m: seq<Slot>, k: nat)
    requires WellFormed(fields) && Typed(fields, m) && k < |fields|
    ensures SameSlot(fields[k], m[SlotOf(fields, k)], Settled(fields, m)[SlotOf(fields, k)]) <==>
      ZeroKept(fields[k], m[SlotOf(fields, k)])
    decreases fields, 0
  {
    var f, s := fields[k], SlotOf(fields, k);
    assert TypedSlot(f, m[s]) && WellFormedField(f);
    if Present(f, m[s]) {
      SettledPresent(fields, m, k);
      WrittenSame(f, m[s]);
    } else if f.htype.Oneof? {
      if m[s].Chosen? {
        var j :| 0 <= j < |fields| && SlotOf(fields, j) == s && fields[j].tag == m[s].tag;
        assert TypedSlot(fields[j], m[s]);
        if j < k { SlotsOrdered(fields, j, k); } else { SlotsOrdered(fields, k, j); }
        SettledPresent(fields, m, j);
      } else {
        AloneOrUnset(fields, m, k);
        SettledAbsent(fields, m, k);
      }
    } else {
      AloneOrUnset(fields, m, k);
      SettledAbsent(fields, m, k);
      if f.htype == Optional(false) { ZeroLikeDefault(f, m[s].value); }
    }
  }

  lemma {:induction false} AloneOrUnset(fields: seq<Field>, m: seq<Slot>, k: nat)
    requires k < |fields| && SlotOf(fields, k) < |m| && !Present(fields[k], m[SlotOf(fields, k)])
    requires fields[k].htype.Oneof? ==> m[SlotOf(fields, k)].Unset?
    ensures forall j | 0 <= j < |fields| &&
      SlotOf(fields, j) == SlotOf(fields, k) :: !Present(fields[j], m[SlotOf(fields, k)])
  {
    forall j | 0 <= j < |fields| && SlotOf(fields, j) == SlotOf(fields, k) && j != k
      ensures !Present(fields[j], m[SlotOf(fields, k)])
    {
      if j < k { SlotsOrdered(fields, j, k); } else { SlotsOrdered(fields, k, j); }
    }
  }

  lemma {:induction false} WrittenSame(f: Field, slot: Slot)
    requires WellFormedField(f) && TypedSlot(f, slot) && Present(f, slot)
    ensures SameSlot(f, slot, SettledSlot(f, slot)) <==> ZeroKept(f, slot)
    decreases f
  {
    if slot.Many? {
      forall v | v in slot.items
        ensures SameValue(f.ltype, v, SettledValue(f.ltype, v)) <==> ZerosKeptWithin(f.ltype, v) {
        WrittenValueSame(f.ltype, v);
      }
      if SameSlot(f, slot, SettledSlot(f, slot)) {
        forall v | v in slot.items ensures ZerosKeptWithin(f.ltype, v) {
          var i :| 0 <= i < |slot.items| && slot.items[i] == v;
          assert SameValue(f.ltype, slot.items[i], SettledItems(f.ltype, slot.items)[i]);
        }
      }
    } else {
      WrittenValueSame(f.ltype, slot.value);
    }
  }

  lemma {:induction false} WrittenValueSame(lt: LType, v: Value)
    requires TypedValue(lt, v) && (lt.LSubmessage? ==> WellFormed(lt.fields))
    ensures SameValue(lt, v, SettledValue(lt, v)) <==> ZerosKeptWithin(lt, v)
    decreases lt
  {
    if lt.LSubmessage? { SettledSame(lt.fields, v.slots); }
  }
}
