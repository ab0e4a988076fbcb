/** Descriptors, message structures and the field iterator that encoder and decoder share. */
module PbCommon {
  import opened Format
  import opened Coding

  /** The bytes an integer takes in the message structure. */
  type Width = w: nat | w == 1 || w == 2 || w == 4 || w == 8 witness 1

  datatype LType =
    | LBool
    | LVarint(width: Width)
    | LUVarint(width: Width)
    | LSVarint(width: Width)
    | LFixed32
    | LFixed64
    | LBytes(capacity: nat)
    | LString(size: nat)
    | LSubmessage(fields: seq<Field>)
    | LFixedLengthBytes(size: nat)
  {
    predicate Packable() { LBool? || LVarint? || LUVarint? || LSVarint? || LFixed32? || LFixed64? }
  }

  /** Whether an optional field has a flag, whether a repeated one has a counter, and whether a member of a union lies
      at the same address as the member before it, is part of the descriptor. */
  datatype HType = Required | Optional(flagged: bool) | Repeated(counted: bool, max: nat) | Oneof(inUnion: bool)

  datatype Field = Field(tag: nat, ltype: LType, htype: HType, default: Option<Value>)

  /** Numbers stand for the bits they are stored in; a string ends before its NUL or with its buffer. */
  datatype Value = Num(n: int) | Raw(bytes: seq<Byte>) | Msg(slots: seq<Slot>)

  /** What a message structure holds at the place of a field. */
  datatype Slot =
    | Plain(value: Value)
    | Flagged(has: bool, value: Value)
    | Many(items: seq<Value>)
    | Unset
    | Chosen(tag: nat, value: Value)

  /** The largest size or count that a descriptor can hold, in the widest configuration. */
  const PB_SIZE_MAX: nat := 0xFFFF_FFFF

  /** A tag shares a 32-bit word with the three bits of the wire type. */
  const TAG_LIMIT: nat := 0x2000_0000

  // ---- Where a field lies in the structure ----

  /** A member of a union lies where the member before it does. */
  predicate Shares(fields: seq<Field>, k: nat)
    requires k < |fields|
  {
    k > 0 && fields[k - 1].htype.Oneof? && fields[k].htype.Oneof? && fields[k].htype.inUnion
  }

  function SlotOf(fields: seq<Field>, k: nat): nat
    requires k < |fields|
  {
    if k == 0 then 0 else SlotOf(fields, k - 1) + (if Shares(fields, k) then 0 else 1)
  }

  function SlotCount(fields: seq<Field>): nat { if |fields| == 0 then 0 else SlotOf(fields, |fields| - 1) + 1 }

  lemma {:induction false} SlotsOrdered(fields: seq<Field>, j: nat, k: nat)
    requires j <= k < |fields|
    ensures SlotOf(fields, j) <= SlotOf(fields, k) < SlotCount(fields)
    ensures j < k && SlotOf(fields, j) == SlotOf(fields, k) ==> fields[j].htype.Oneof? && fields[k].htype.Oneof?
    decreases |fields| - j
  {
    if j < k {
      SlotsOrdered(fields, j + 1, k);
    } else if k + 1 < |fields| {
      SlotsOrdered(fields, k + 1, |fields| - 1);
    }
  }

  function RequiredBefore(fields: seq<Field>, k: nat): nat
    requires k <= |fields|
  {
    if k == 0 then 0 else RequiredBefore(fields, k - 1) + (if fields[k - 1].htype.Required? then 1 else 0)
  }

  lemma {:induction false} RequiredOrdered(fields: seq<Field>, j: nat, k: nat)
    requires j <= k <= |fields|
    ensures RequiredBefore(fields, j) <= RequiredBefore(fields, k)
    ensures j < k && fields[j].htype.Required? ==> RequiredBefore(fields, j) < RequiredBefore(fields, k)
  {
    if j < k { RequiredOrdered(fields, j, k - 1); }
  }

  lemma {:induction false} RequiredAt(fields: seq<Field>, n: nat) returns (k: nat)
    requires n < RequiredBefore(fields, |fields|)
    ensures k < |fields| && fields[k].htype.Required? && RequiredBefore(fields, k) == n
  {
    k := |fields| - 1;
    while RequiredBefore(fields, k) > n
      invariant k < |fields| && RequiredBefore(fields, k + 1) > n
      decreases k
    {
      k := k - 1;
    }
  }

  // ---- Which messages fit a descriptor ----

  /** 2 to the power of one less than the bits of the width. */
  function Half(w: Width): nat {
    if w == 1 then 0x80 else if w == 2 then 0x8000 else if w == 4 then 0x8000_0000 else 0x8000_0000_0000_0000
  }

  ghost predicate TypedValue(lt: LType, v: Value)
    decreases lt
  {
    match lt
    case LBool => v == Num(0) || v == Num(1)
    case LVarint(w) => v.Num? && -(Half(w) as int) <= v.n < Half(w)
    case LUVarint(w) => v.Num? && 0 <= v.n < 2 * Half(w)
    case LSVarint(w) => v.Num? && -(Half(w) as int) <= v.n < Half(w)
    case LFixed32 => v.Num? && 0 <= v.n < 0x1_0000_0000
    case LFixed64 => v.Num? && 0 <= v.n < 0x1_0000_0000_0000_0000
    case LBytes(_) => v.Raw?
    case LString(size) => v.Raw? && |v.bytes| <= size && 0 !in v.bytes
    case LSubmessage(fields) => v.Msg? && Typed(fields, v.slots)
    case LFixedLengthBytes(size) => v.Raw? && |v.bytes| == size
  }

  ghost predicate TypedSlot(f: Field, slot: Slot)
    decreases f
  {
    match f.htype
    case Required => slot.Plain? && TypedValue(f.ltype, slot.value)
    case Optional(true) => slot.Flagged? && (slot.has ==> TypedValue(f.ltype, slot.value))
    case Optional(false) => slot.Plain? && TypedValue(f.ltype, slot.value)
    case Repeated(counted, max) =>
      slot.Many? && (!counted ==> |slot.items| == max) && forall v | v in slot.items :: TypedValue(f.ltype, v)
    case Oneof(_) => slot.Unset? || (slot.Chosen? && (slot.tag == f.tag ==> TypedValue(f.ltype, slot.value)))
  }

  /** The structure has the right types, and a union says which of its own members it holds. */
  ghost predicate Typed(fields: seq<Field>, m: seq<Slot>)
    decreases fields
  {
    |m| == SlotCount(fields) &&
    (forall k {:trigger SlotOf(fields, k)} | 0 <= k < |fields| :: SlotOf(fields, k) < |m| &&
      TypedSlot(fields[k], m[SlotOf(fields, k)])) &&
    (forall s | 0 <= s < |m| && m[s].Chosen? ::
      exists k {:trigger SlotOf(fields, k)} | 0 <= k < |fields| :: SlotOf(fields, k) == s && fields[k].tag == m[s].tag)
  }

  /** Tags are distinct numbers of at most 29 bits, sizes and counts are in range, defaults have the type of their
      field. */
  ghost predicate WellFormed(fields: seq<Field>)
    decreases fields
  {
    (forall k | 0 <= k < |fields| :: WellFormedField(fields[k])) &&
    (forall j, k | 0 <= j < k < |fields| :: fields[j].tag != fields[k].tag)
  }

  ghost predicate WellFormedField(f: Field)
    decreases f
  {
    0 < f.tag < TAG_LIMIT && (f.htype.Repeated? ==> f.htype.max <= PB_SIZE_MAX) &&
    (f.ltype.LBytes? ==> f.ltype.capacity <= PB_SIZE_MAX) &&
    (f.ltype.LString? || f.ltype.LFixedLengthBytes? ==> f.ltype.size <= PB_SIZE_MAX) &&
    (if f.ltype.LSubmessage? then WellFormed(f.ltype.fields)
     else f.default.Some? ==> TypedValue(f.ltype, f.default.value))
  }

  // ---- Default values ----

  function Zeros(n: nat): seq<Byte> { if n == 0 then [] else [0] + Zeros(n - 1) }

  function ZeroOf(lt: LType): Value {
    match lt
    case LBytes(_) | LString(_) => Raw([])
    case LFixedLengthBytes(size) => Raw(Zeros(size))
    case _ => Num(0)
  }

  function DefaultValue(f: Field): Value
    decreases f, 0
  {
    if f.ltype.LSubmessage? then Msg(Defaults(f.ltype.fields, |f.ltype.fields|))
    else if f.default.Some? then f.default.value
    else ZeroOf(f.ltype)
  }

  function DefaultSlot(f: Field): Slot
    decreases f, 1
  {
    match f.htype
    case Required => Plain(DefaultValue(f))
    case Optional(true) => Flagged(false, DefaultValue(f))
    case Optional(false) => Plain(DefaultValue(f))
    case Repeated(_, _) => Many([])
    case Oneof(_) => Unset
  }

  /** The slots of the first k fields at their defaults. */
  function Defaults(fields: seq<Field>, k: nat): seq<Slot>
    requires k <= |fields|
    decreases fields, k
  {
    if k == 0 then [] else
      Defaults(fields, k - 1) + if Shares(fields, k - 1) then [] else [DefaultSlot(fields[k - 1])]
  }

  lemma {:induction false} DefaultsLength(fields: seq<Field>, k: nat)
    requires k <= |fields|
    ensures |Defaults(fields, k)| == if k == 0 then 0 else SlotOf(fields, k - 1) + 1
  {
    if k > 0 { DefaultsLength(fields, k - 1); }
  }

  lemma {:induction false} DefaultsAt(fields: seq<Field>, n: nat, k: nat)
    requires k < n <= |fields|
    ensures SlotOf(fields, k) < |Defaults(fields, n)| &&
      Defaults(fields, n)[SlotOf(fields, k)] == DefaultSlot(fields[k])
  {
    DefaultsLength(fields, n);
    if k == n - 1 {
      DefaultsLength(fields, n - 1);
      if Shares(fields, k) {
        DefaultsAt(fields, n - 1, k - 1);
      }
    } else {
      DefaultsLength(fields, n - 1);
      DefaultsAt(fields, n - 1, k);
    }
  }

  // ---- The iterator ----

  /** A position in the descriptor. It wraps around at the end; in an empty descriptor it stays on the terminator. */
  class FieldIter {
    const fields: seq<Field>
    var pos: nat
    var requiredFieldIndex: nat
    var pData: nat

    ghost predicate Ok()
      reads this
    {
      (pos == 0 || pos < |fields|) &&
      requiredFieldIndex == RequiredBefore(fields, pos) &&
      pData == if |fields| == 0 then 0 else SlotOf(fields, pos)
    }

    constructor (fields: seq<Field>)
      ensures Ok() && this.fields == fields && pos == 0
    {
      this.fields := fields;
      pos, requiredFieldIndex, pData := 0, 0, 0;
    }

    method Begin()
      modifies this
      ensures Ok() && pos == 0
    {
      pos, requiredFieldIndex, pData := 0, 0, 0;
    }

    /** The tag at the position; the terminator has tag 0. */
    function Tag(): nat
      requires Ok()
      reads this
    {
      if |fields| == 0 then 0 else fields[pos].tag
    }

    method Next() returns (more: bool)
      requires Ok()
      modifies this
      ensures Ok()
      ensures more == (old(pos) + 1 < |fields|) && pos == if more then old(pos) + 1 else 0
    {
      if |fields| == 0 {
        return false;
      }
      var prev := fields[pos];
      pos := pos + 1;
      if pos == |fields| {
        Begin();
        return false;
      }
      more := true;
      if prev.htype.Oneof? && fields[pos].htype.Oneof? && fields[pos].htype.inUnion {
        return;
      }
      if prev.htype.Required? {
        requiredFieldIndex := requiredFieldIndex + 1;
      }
      pData := pData + 1;
    }

    /** Searches once around, from the current position. */
    method Find(tag: nat) returns (found: bool)
      requires Ok()
      modifies this
      ensures Ok()
      ensures found ==> Tag() == tag
      ensures !found ==> Tag() != tag && forall k | 0 <= k < |fields| :: fields[k].tag != tag
    {
      var start := pos;
      ghost var wrapped := false;
      while true
        invariant Ok() && (wrapped ==> pos <= start)
        invariant wrapped && |fields| > 0 ==> pos < start
        invariant |fields| == 0 ==> !wrapped
        invariant forall k | start <= k < |fields| && (wrapped || k < pos) :: fields[k].tag != tag
        invariant wrapped ==> forall k | 0 <= k < pos :: fields[k].tag != tag
        invariant !wrapped ==> pos >= start
        decreases if wrapped then start - pos else |fields| + 1 + start - pos
      {
        if Tag() == tag {
          return true;
        }
        var more := Next();
        if !more { wrapped := true; }
        if pos == start {
          break;
        }
      }
      found := false;
    }
  }
}
