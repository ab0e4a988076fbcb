/** Messages byte by byte, as any other implementation of protocol buffers writes them. */
module PbKnown {
  import opened Format
  import opened Coding
  import opened PbCommon
  import opened PbWire

  /** Wire type 0 for variable-length numbers, 1 for eight bytes, 5 for four, 2 for what has its length in front. */
  lemma {:induction false} WireTypesAre(w: Width, n: nat, fields: seq<Field>)
    ensures WireType(LBool) == 0 && WireType(LVarint(w)) == 0 && WireType(LUVarint(w)) == 0 &&
      WireType(LSVarint(w)) == 0
    ensures WireType(LFixed64) == 1 && WireType(LFixed32) == 5
    ensures WireType(LBytes(n)) == 2 && WireType(LString(n)) == 2 && WireType(LFixedLengthBytes(n)) == 2 &&
      WireType(LSubmessage(fields)) == 2
  {
  }

  /** A tag and its wire type in one byte, while the tag has four bits. */
  lemma {:induction false} TagIs(tag: nat, wireType: nat)
    requires tag < 16 && wireType < 8
    ensures TagBytes(tag, wireType) == [(8 * tag + wireType) as Byte]
  {
  }

  /** Small numbers of either sign have small codes. */
  lemma {:induction false} ZigZagIs()
    ensures ZigZag(0) == 0 && ZigZag(-1) == 1 && ZigZag(1) == 2 && ZigZag(-2) == 3
    ensures ZigZag(0x7FFF_FFFF) == 0xFFFF_FFFE && ZigZag(-0x8000_0000) == 0xFFFF_FFFF
  {
  }

  /** Numbers by type: minus one as ten bytes or as one. */
  lemma {:induction false} NumbersAre()
    ensures NumberBytes(LVarint(4), 150) == [0x96, 0x01] && NumberBytes(LSVarint(4), -1) == [0x01]
    ensures NumberBytes(LVarint(4), -1) == [0xFF, 0xFF, 0xFF, 0xFF, 0xFF, 0xFF, 0xFF, 0xFF, 0xFF, 0x01]
  {
    assert Varint(150) == [0x96] + Varint(1);
    TwosComplementIs(-1);
    Ones();
  }

  /** Words with the lowest byte first. */
  lemma {:induction false} WordsAre()
    ensures NumberBytes(LFixed32, 0x0403_0201) == [1, 2, 3, 4]
    ensures NumberBytes(LFixed64, 0x0807_0605_0403_0201) == [1, 2, 3, 4, 5, 6, 7, 8]
  {
    assert EncodeFixed32(0x0403_0201) == [1, 2, 3, 4] && EncodeFixed32(0x0807_0605) == [5, 6, 7, 8];
    assert 0x0807_0605_0403_0201 % 0x1_0000_0000 == 0x0403_0201;
    assert 0x0807_0605_0403_0201 / 0x1_0000_0000 % 0x1_0000_0000 == 0x0807_0605;
    assert [1, 2, 3, 4] + [5, 6, 7, 8] == [1, 2, 3, 4, 5, 6, 7, 8];
  }

  /** Nine groups of ones, and one more bit. */
  lemma {:induction false} Ones()
    ensures Varint(0xFFFF_FFFF_FFFF_FFFF) == [0xFF, 0xFF, 0xFF, 0xFF, 0xFF, 0xFF, 0xFF, 0xFF, 0xFF, 0x01]
  {
    assert Varint(0x7F) == [0x7F] && Varint(1) == [1];
    assert Varint(0xFF) == [0xFF] + Varint(1);
    assert Varint(0x7FFF) == [0xFF] + Varint(0xFF);
    assert Varint(0x3F_FFFF) == [0xFF] + Varint(0x7FFF);
    assert Varint(0x1FFF_FFFF) == [0xFF] + Varint(0x3F_FFFF);
    assert Varint(0xF_FFFF_FFFF) == [0xFF] + Varint(0x1FFF_FFFF);
    assert Varint(0x7FF_FFFF_FFFF) == [0xFF] + Varint(0xF_FFFF_FFFF);
    assert Varint(0x3_FFFF_FFFF_FFFF) == [0xFF] + Varint(0x7FF_FFFF_FFFF);
    assert Varint(0x1FF_FFFF_FFFF_FFFF) == [0xFF] + Varint(0x3_FFFF_FFFF_FFFF);
    assert Varint(0xFFFF_FFFF_FFFF_FFFF) == [0xFF] + Varint(0x1FF_FFFF_FFFF_FFFF);
  }

  /** An array may be full, and so may a byte array; a string must leave room for its NUL to be read. */
  lemma {:induction false} LimitsAre(f: Field, items: seq<Value>, bytes: seq<Byte>, size: nat)
    requires f.htype.Repeated? && f.ltype.LUVarint?
    ensures EncodableSlot(f, Many(items)) <==> |items| == 0 || |items| <= f.htype.max
    ensures EncodableValue(LBytes(size), Raw(bytes)) <==> |bytes| <= size
    ensures ReadableValue(LString(size), Raw(bytes)) <==> |bytes| + 1 <= size
  {
  }

  lemma {:induction false} TakesSpace(f: Field, slot: Slot)
    requires Present(f, slot) && !slot.Many?
    ensures FieldBytes(f, slot) != []
  {
    assert FieldBytes(f, slot) == TaggedValue(f, slot.value);
    assert TaggedValue(f, slot.value) == TagBytes(f.tag, WireType(f.ltype)) + ValueBytes(f.ltype, slot.value);
    assert |Varint(f.tag * 8 + WireType(f.ltype))| > 0;
  }

  /** What is left out: a flag that is off, an empty array, and a union that holds something else. */
  lemma {:induction false} LeftOut(tag: nat, n: nat, max: nat, other: nat)
    requires other != tag
    ensures FieldBytes(Field(tag, LUVarint(4), Optional(true), None), Flagged(false, Num(n))) == []
    ensures FieldBytes(Field(tag, LUVarint(4), Repeated(true, max), None), Many([])) == []
    ensures FieldBytes(Field(tag, LUVarint(4), Oneof(true), None), Chosen(other, Num(n))) == []
  {
  }

  /** A zero is left out if it has no flag, and only then. */
  lemma {:induction false} ZeroLeftOut(tag: nat, n: nat, bytes: seq<Byte>)
    ensures FieldBytes(Field(tag, LUVarint(4), Optional(false), None), Plain(Num(n))) == [] <==> n == 0
    ensures FieldBytes(Field(tag, LString(16), Optional(false), None), Plain(Raw(bytes))) == [] <==> |bytes| == 0
    ensures FieldBytes(Field(tag, LUVarint(4), Optional(true), None), Flagged(true, Num(0))) != []
    ensures FieldBytes(Field(tag, LUVarint(4), Required, None), Plain(Num(0))) != []
  {
    if n > 0 { TakesSpace(Field(tag, LUVarint(4), Optional(false), None), Plain(Num(n))); }
    if |bytes| > 0 { TakesSpace(Field(tag, LString(16), Optional(false), None), Plain(Raw(bytes))); }
    TakesSpace(Field(tag, LUVarint(4), Optional(true), None), Flagged(true, Num(0)));
    TakesSpace(Field(tag, LUVarint(4), Required, None), Plain(Num(0)));
  }

  const NUMBER := Field(1, LVarint(4), Required, None)
  const TEXT := Field(2, LString(16), Required, None)
  const NESTED := Field(3, LSubmessage([NUMBER]), Required, None)
  const PACKED := Field(4, LVarint(4), Repeated(true, 8), None)

  lemma {:induction false} OneField(f: Field, slot: Slot)
    ensures Wire([f], [slot], 0) == FieldBytes(f, slot)
  {
    assert SlotOf([f], 0) == 0;
    assert Wire([f], [slot], 1) == [];
    assert FieldBytes(f, slot) + [] == FieldBytes(f, slot);
  }

  /** 150 as field 1. */
  lemma {:induction false} NumberIs()
    ensures Wire([NUMBER], [Plain(Num(150))], 0) == [0x08, 0x96, 0x01]
  {
    OneField(NUMBER, Plain(Num(150)));
    NumbersAre();
    TagIs(1, 0);
    assert FieldBytes(NUMBER, Plain(Num(150))) == [0x08] + [0x96, 0x01];
  }

  /** "testing" as field 2. */
  lemma {:induction false} TextIs()
    ensures Wire([TEXT], [Plain(Raw([116, 101, 115, 116, 105, 110, 103]))], 0) ==
      [0x12, 0x07, 116, 101, 115, 116, 105, 110, 103]
  {
    var text := Raw([116, 101, 115, 116, 105, 110, 103]);
    OneField(TEXT, Plain(text));
    TagIs(2, 2);
    assert ValueBytes(TEXT.ltype, text) == [7] + text.bytes;
    assert FieldBytes(TEXT, Plain(text)) == [0x12] + ([7] + text.bytes);
  }

  /** The first of these as a submessage in field 3. */
  lemma {:induction false} NestedIs()
    ensures Wire([NESTED], [Plain(Msg([Plain(Num(150))]))], 0) == [0x1A, 0x03, 0x08, 0x96, 0x01]
  {
    var inner := Msg([Plain(Num(150))]);
    OneField(NESTED, Plain(inner));
    TagIs(3, 2);
    NumberIs();
    assert ValueBytes(NESTED.ltype, inner) == LengthPrefixed([0x08, 0x96, 0x01]);
    assert LengthPrefixed([0x08, 0x96, 0x01]) == [3] + [0x08, 0x96, 0x01];
    assert FieldBytes(NESTED, Plain(inner)) == [0x1A] + ([3] + [0x08, 0x96, 0x01]);
  }

  /** 3, 270 and 86942 as a packed array in field 4. */
  lemma {:induction false} PackedIs()
    ensures Wire([PACKED], [Many([Num(3), Num(270), Num(86942)])], 0) ==
      [0x22, 0x06, 0x03, 0x8E, 0x02, 0x9E, 0xA7, 0x05]
  {
    var items := [Num(3), Num(270), Num(86942)];
    OneField(PACKED, Many(items));
    TagIs(4, 2);
    ThreeNumbers();
    assert LengthPrefixed([0x03, 0x8E, 0x02, 0x9E, 0xA7, 0x05]) == [6] + [0x03, 0x8E, 0x02, 0x9E, 0xA7, 0x05];
    assert FieldBytes(PACKED, Many(items)) == [0x22] + ([6] + [0x03, 0x8E, 0x02, 0x9E, 0xA7, 0x05]);
  }

  lemma {:induction false} ThreeNumbers()
    ensures PackedItems(LVarint(4), [Num(3), Num(270), Num(86942)]) == [0x03, 0x8E, 0x02, 0x9E, 0xA7, 0x05]
  {
    var items := [Num(3), Num(270), Num(86942)];
    assert items[1..] == [Num(270), Num(86942)] && items[1..][1..] == [Num(86942)] && [Num(86942)][1..] == [];
    assert Varint(270) == [0x8E] + Varint(2);
    assert Varint(679) == [0xA7] + Varint(5) && Varint(86942) == [0x9E] + Varint(679);
    assert PackedItems(LVarint(4), [Num(86942)]) == [0x9E, 0xA7, 0x05];
    assert PackedItems(LVarint(4), [Num(270), Num(86942)]) == [0x8E, 0x02, 0x9E, 0xA7, 0x05];
  }
}
