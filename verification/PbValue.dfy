/** Decoders of single values, submessages aside. */
module PbValue {
  import opened Format
  import opened Coding
  import opened PbCommon
  import opened PbWire
  import opened PbStream

  /** The signed reading of a word of which h is the highest bit. */
  function Signed(u: int, h: nat): int
    requires h > 0
  {
    (u + h) % (2 * h) - h
  }

  lemma {:induction false} SignedSmall(n: int, w: Width)
    requires -(Half(w) as int) <= n < Half(w)
    ensures Signed(n, Half(w)) == n
  {
  }

  /** The word a negative number is written as reads back, also when only its low half is looked at. */
  lemma {:induction false} SignedWord(n: int)
    requires -0x8000_0000_0000_0000 <= n < 0x8000_0000_0000_0000
    ensures Signed(TwosComplement(n), 0x8000_0000_0000_0000) == n
    ensures -0x8000_0000 <= n < 0x8000_0000 ==> Signed(TwosComplement(n), 0x8000_0000) == n
  {
    var u := TwosComplement(n);
    assert u == if n < 0 then n + 0x1_0000_0000_0000_0000 else n;
    if -0x8000_0000 <= n < 0 {
      assert (u + 0x8000_0000) == (n + 0x8000_0000) + 0x1_0000_0000 * 0x1_0000_0000;
    }
  }

  method DecodeVarintField(s: IStream, width: Width, ghost n: int, ghost tail: seq<Byte>) returns (ok: bool, dest: int)
    requires s.Ok()
    modifies s
    ensures s.Ok() && s.End() == old(s.End()) && s.bytesLeft <= old(s.bytesLeft)
    ensures TypedValue(LVarint(width), Num(n)) && old(s.Rest()) == NumberBytes(LVarint(width), n) + tail ==>
      ok && dest == n && s.Rest() == tail
  {
    var value;
    ghost var expected := TypedValue(LVarint(width), Num(n));
    if expected {
      SignedWord(n);
      SignedSmall(n, width);
      if n >= 0 { NotNegative(n); }
    }
    ok, value := DecodeVarint(s, TwosComplement(n), tail);
    dest := 0;
    if !ok {
      return;
    }
    var wide := if width == 8 then Signed(value, 0x8000_0000_0000_0000) else Signed(value, 0x8000_0000);
    dest := Signed(wide, Half(width));
    ok := dest == wide;
  }

  lemma {:induction false} NotNegative(n: nat)
    requires n < 0x1_0000_0000_0000_0000
    ensures TwosComplement(n) == n
  {
  }

  method DecodeUVarintField(s: IStream, width: Width, ghost n: int, ghost tail: seq<Byte>) returns (ok: bool, dest: int)
    requires s.Ok()
    modifies s
    ensures s.Ok() && s.End() == old(s.End()) && s.bytesLeft <= old(s.bytesLeft)
    ensures TypedValue(LUVarint(width), Num(n)) && old(s.Rest()) == NumberBytes(LUVarint(width), n) + tail ==>
      ok && dest == n && s.Rest() == tail
  {
    var value;
    ok, value := DecodeVarint(s, if n < 0 then 0 else n, tail);
    dest := value % (2 * Half(width));
    ok := ok && dest == value;
  }

  lemma {:induction false} ZigZagParts(n: int)
    ensures n < 0 ==> ZigZag(n) % 2 == 1 && -(ZigZag(n) / 2) - 1 == n
    ensures n >= 0 ==> ZigZag(n) % 2 == 0 && ZigZag(n) / 2 == n
  {
  }

  method DecodeSVarintField(s: IStream, width: Width, ghost n: int, ghost tail: seq<Byte>) returns (ok: bool, dest: int)
    requires s.Ok()
    modifies s
    ensures s.Ok() && s.End() == old(s.End()) && s.bytesLeft <= old(s.bytesLeft)
    ensures TypedValue(LSVarint(width), Num(n)) && old(s.Rest()) == NumberBytes(LSVarint(width), n) + tail ==>
      ok && dest == n && s.Rest() == tail
  {
    var word;
    if TypedValue(LSVarint(width), Num(n)) {
      ZigZagParts(n);
      SignedSmall(n, width);
    }
    ok, word := DecodeVarint(s, ZigZag(n), tail);
    var half: int := word / 2;
    var value: int := if word % 2 == 1 then -half - 1 else half;
    dest := Signed(value, Half(width));
    ok := ok && dest == value;
  }

  method DecodeBool(s: IStream, ghost n: int, ghost tail: seq<Byte>) returns (ok: bool, dest: int)
    requires s.Ok()
    modifies s
    ensures s.Ok() && s.End() == old(s.End()) && s.bytesLeft <= old(s.bytesLeft)
    ensures TypedValue(LBool, Num(n)) && old(s.Rest()) == NumberBytes(LBool, n) + tail ==>
      ok && dest == n && s.Rest() == tail
  {
    var value, eof;
    ok, value, eof := DecodeVarint32(s, if n < 0 then 0 else n, tail);
    dest := if value != 0 then 1 else 0;
  }

  lemma {:induction false} Cut(a: seq<Byte>, b: seq<Byte>)
    ensures (a + b)[..|a|] == a && (a + b)[|a|..] == b
  {
  }

  method DecodeFixed32Field(s: IStream, ghost n: int, ghost tail: seq<Byte>) returns (ok: bool, dest: nat)
    requires s.Ok()
    modifies s
    ensures s.Ok() && s.End() == old(s.End()) && s.bytesLeft <= old(s.bytesLeft) && (ok ==> dest < WORD_LIMIT)
    ensures TypedValue(LFixed32, Num(n)) && old(s.Rest()) == NumberBytes(LFixed32, n) + tail ==>
      ok && dest == n && s.Rest() == tail
  {
    var data;
    ghost var expected := TypedValue(LFixed32, Num(n)) && s.Rest() == NumberBytes(LFixed32, n) + tail;
    if expected {
      Small(n, WORD_LIMIT);
      Cut(EncodeFixed32(n), tail);
      DecodeEncodeFixed32(n);
    }
    ok, data := s.Read(4);
    dest := if ok then DecodeFixed32(data) else 0;
  }

  lemma {:induction false} Halves(n: nat)
    requires n < 0x1_0000_0000_0000_0000
    ensures n % 0x1_0000_0000 + 0x1_0000_0000 * (n / 0x1_0000_0000 % 0x1_0000_0000) == n
  {
  }

  /** Both halves, the low one first. */
  method DecodeFixed64Field(s: IStream, ghost n: int, ghost tail: seq<Byte>) returns (ok: bool, dest: nat)
    requires s.Ok()
    modifies s
    ensures s.Ok() && s.End() == old(s.End()) && s.bytesLeft <= old(s.bytesLeft)
    ensures TypedValue(LFixed64, Num(n)) && old(s.Rest()) == NumberBytes(LFixed64, n) + tail ==>
      ok && dest == n && s.Rest() == tail
  {
    var data;
    ghost var low, high := n % 0x1_0000_0000, n / 0x1_0000_0000 % 0x1_0000_0000;
    ghost var expected := TypedValue(LFixed64, Num(n)) && s.Rest() == NumberBytes(LFixed64, n) + tail;
    if expected {
      Cut(EncodeFixed64(n), tail);
      DecodeEncodeFixed32(low);
      DecodeEncodeFixed32(high);
      Cut(EncodeFixed32(low), EncodeFixed32(high));
      Halves(n);
    }
    ok, data := s.Read(8);
    dest := if ok then DecodeFixed32(data[..4]) + 0x1_0000_0000 * DecodeFixed32(data[4..]) else 0;
  }

  method DecodeNumber(s: IStream, lt: LType, ghost n: int, ghost tail: seq<Byte>) returns (ok: bool, dest: int)
    requires s.Ok() && lt.Packable()
    modifies s
    ensures s.Ok() && s.End() == old(s.End()) && s.bytesLeft <= old(s.bytesLeft)
    ensures TypedValue(lt, Num(n)) && old(s.Rest()) == NumberBytes(lt, n) + tail ==> ok && dest == n && s.Rest() == tail
  {
    match lt {
      case LBool => ok, dest := DecodeBool(s, n, tail);
      case LVarint(width) => ok, dest := DecodeVarintField(s, width, n, tail);
      case LUVarint(width) => ok, dest := DecodeUVarintField(s, width, n, tail);
      case LSVarint(width) => ok, dest := DecodeSVarintField(s, width, n, tail);
      case LFixed32 => ok, dest := DecodeFixed32Field(s, n, tail);
      case LFixed64 => ok, dest := DecodeFixed64Field(s, n, tail);
    }
  }

  /** A string in memory ends at its first NUL. */
  function UpToNul(bytes: seq<Byte>): seq<Byte> {
    if |bytes| == 0 || bytes[0] == 0 then [] else [bytes[0]] + UpToNul(bytes[1..])
  }

  lemma {:induction false} NoNul(bytes: seq<Byte>)
    requires 0 !in bytes
    ensures UpToNul(bytes) == bytes
  {
    if |bytes| > 0 { NoNul(bytes[1..]); }
  }

  /** Strings and byte arrays. A string needs room for its NUL; a byte array of fixed length is complete or empty. */
  method DecodeBytes(s: IStream, lt: LType, ghost bytes: seq<Byte>, ghost tail: seq<Byte>)
    returns (ok: bool, dest: seq<Byte>)
    requires s.Ok() && (lt.LBytes? || lt.LString? || lt.LFixedLengthBytes?)
    modifies s
    ensures s.Ok() && s.End() == old(s.End()) && s.bytesLeft <= old(s.bytesLeft)
    ensures (TypedValue(lt, Raw(bytes)) && EncodableValue(lt, Raw(bytes)) && |bytes| < WORD_LIMIT &&
             old(s.Rest()) == LengthPrefixed(bytes) + tail) ==>
      ok == ReadableValue(lt, Raw(bytes)) && (ok ==> dest == bytes && s.Rest() == tail)
  {
    var size, eof;
    Regroup(Varint(|bytes|), bytes, tail);
    ok, size, eof := DecodeVarint32(s, |bytes|, bytes + tail);
    dest := [];
    if !ok {
      return;
    }
    if !lt.LString? && size > PB_SIZE_MAX {
      ok := false;
    } else if lt.LBytes? && size > lt.capacity {
      ok := false;
    } else if lt.LString? && size + 1 > lt.size {
      ok := false;
    } else if lt.LFixedLengthBytes? && size == 0 {
      dest := Zeros(lt.size);
    } else if lt.LFixedLengthBytes? && size != lt.size {
      ok := false;
    } else {
      Cut(bytes, tail);
      ok, dest := s.Read(size);
      if lt.LString? {
        if 0 !in bytes { NoNul(bytes); }
        dest := UpToNul(dest);
      }
    }
  }
}
