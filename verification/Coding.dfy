/** Bytes, fixed-width words and the stored form of a checksum. */
module Coding {
  import opened Format

  newtype Byte = b: int | 0 <= b < 0x100
  type Word = w: int | 0 <= w < 0x1_0000_0000

  /** Least significant byte first. */
  function EncodeFixed32(w: Word): seq<Byte> {
    var q1 := w / 0x100;
    var q2 := q1 / 0x100;
    [(w % 0x100) as Byte, (q1 % 0x100) as Byte, (q2 % 0x100) as Byte, (q2 / 0x100) as Byte]
  }

  function DecodeFixed32(bytes: seq<Byte>): Word
    requires |bytes| == 4
  {
    bytes[0] as int + 0x100 * (bytes[1] as int + 0x100 * (bytes[2] as int + 0x100 * bytes[3] as int))
  }

  lemma {:induction false} DecodeEncodeFixed32(w: Word)
    ensures |EncodeFixed32(w)| == 4 && DecodeFixed32(EncodeFixed32(w)) == w
  {
    var q1 := w / 0x100;
    var q2 := q1 / 0x100;
    assert w == w % 0x100 + 0x100 * q1;
    assert q1 == q1 % 0x100 + 0x100 * q2;
    assert q2 == q2 % 0x100 + 0x100 * (q2 / 0x100);
  }

  const MASK_DELTA: Word := 0xa282_ead8

  /** Rotates right by 15 bits and adds a constant, so that data holding checksums does not checksum badly. */
  function Mask(crc: Word): Word {
    (crc / 0x8000 + crc % 0x8000 * 0x2_0000 + MASK_DELTA) % 0x1_0000_0000
  }

  function Unmask(masked: Word): (crc: Word) {
    var rot := (masked - MASK_DELTA) % 0x1_0000_0000;
    rot / 0x2_0000 + rot % 0x2_0000 * 0x8000
  }

  lemma {:induction false} UnmaskMask(crc: Word)
    ensures Unmask(Mask(crc)) == crc
  {
    var high, low := crc / 0x8000, crc % 0x8000;
    var rot := high + low * 0x2_0000;
    assert 0 <= rot < 0x1_0000_0000;
    assert (Mask(crc) - MASK_DELTA) % 0x1_0000_0000 == rot;
    assert rot / 0x2_0000 == low && rot % 0x2_0000 == high;
  }

  // ---- Variable-length integers ----

  type Number = n: int | 0 <= n < 0x1_0000_0000_0000_0000

  /** Seven bits a byte, least significant first; the top bit says that more follow. */
  function Varint(v: nat): seq<Byte> {
    if v < 0x80 then [v as Byte] else [(v % 0x80 + 0x80) as Byte] + Varint(v / 0x80)
  }

  /** The value of a variable-length integer of at most n bytes at the start of the input, and what follows it. */
  function ParseVarint(input: seq<Byte>, n: nat): (r: Option<(nat, seq<Byte>)>)
    ensures r.Some? ==> |r.value.1| < |input|
  {
    if n == 0 || |input| == 0 then None
    else if input[0] < 0x80 then Some((input[0] as nat, input[1..]))
    else
      var r := ParseVarint(input[1..], n - 1);
      if r.None? then None else Some((input[0] as nat - 0x80 + 0x80 * r.value.0, r.value.1))
  }

  lemma {:induction false} VarintHead(q: nat, tail: seq<Byte>, b: Byte, rest: seq<Byte>)
    requires Varint(q) + tail == [b] + rest
    ensures b as nat % 0x80 == q % 0x80 && (b >= 0x80 <==> q >= 0x80)
    ensures rest == if q < 0x80 then tail else Varint(q / 0x80) + tail
  {
    assert b == (Varint(q) + tail)[0];
    assert rest == (Varint(q) + tail)[1..];
    if q >= 0x80 { assert (Varint(q) + tail)[1..] == Varint(q / 0x80) + tail; }
  }

  /** The number of 7-bit groups that v needs is at most n. */
  predicate FitsIn(v: nat, n: nat) { n > 0 && (v < 0x80 || FitsIn(v / 0x80, n - 1)) }

  lemma {:induction false} ParseVarintOf(v: nat, n: nat, rest: seq<Byte>)
    requires FitsIn(v, n)
    ensures ParseVarint(Varint(v) + rest, n) == Some((v, rest))
  {
    var input := Varint(v) + rest;
    if v < 0x80 {
      assert input[1..] == rest;
    } else {
      ParseVarintOf(v / 0x80, n - 1, rest);
      assert input[1..] == Varint(v / 0x80) + rest;
    }
  }

  lemma {:induction false} NumberFits(v: nat, n: nat)
    requires n > 0 && v < Groups(n)
    ensures FitsIn(v, n)
  {
    if v >= 0x80 { NumberFits(v / 0x80, n - 1); }
  }

  /** Values below this take at most n bytes. */
  function Groups(n: nat): nat { if n == 0 then 1 else 0x80 * Groups(n - 1) }

  lemma {:induction false} WidthsFit(v: nat)
    ensures v < 0x1_0000_0000 ==> FitsIn(v, 5)
    ensures v < 0x1_0000_0000_0000_0000 ==> FitsIn(v, 10)
  {
    assert Groups(1) == 0x80;
    assert Groups(2) == 0x4000;
    assert Groups(3) == 0x20_0000;
    assert Groups(4) == 0x1000_0000;
    assert Groups(5) == 0x8_0000_0000;
    assert Groups(6) == 0x400_0000_0000;
    assert Groups(7) == 0x2_0000_0000_0000;
    assert Groups(8) == 0x100_0000_0000_0000;
    assert Groups(9) == 0x8000_0000_0000_0000;
    assert Groups(10) == 0x40_0000_0000_0000_0000;
    if v < 0x1_0000_0000 { NumberFits(v, 5); }
    if v < 0x1_0000_0000_0000_0000 { NumberFits(v, 10); }
  }

  method PutVarint32(dst: seq<Byte>, v: Word) returns (r: seq<Byte>)
    ensures r == dst + Varint(v) && (dst == [] ==> r == Varint(v))
  {
    var v0: nat := v;
    var b0, b1, b2, b3 := v0 % 0x80, v0 / 0x80 % 0x80, v0 / 0x4000 % 0x80, v0 / 0x20_0000 % 0x80;
    assert v0 / 0x80 / 0x80 == v0 / 0x4000 && v0 / 0x4000 / 0x80 == v0 / 0x20_0000 &&
      v0 / 0x20_0000 / 0x80 == v0 / 0x1000_0000;
    if v < 0x80 {
      r := dst + [v0 as Byte];
    } else if v < 0x4000 {
      r := dst + [(b0 + 0x80) as Byte, (v0 / 0x80) as Byte];
    } else if v < 0x20_0000 {
      r := dst + [(b0 + 0x80) as Byte, (b1 + 0x80) as Byte, (v0 / 0x4000) as Byte];
    } else if v < 0x1000_0000 {
      r := dst + [(b0 + 0x80) as Byte, (b1 + 0x80) as Byte, (b2 + 0x80) as Byte, (v0 / 0x20_0000) as Byte];
    } else {
      r := dst + [(b0 + 0x80) as Byte, (b1 + 0x80) as Byte, (b2 + 0x80) as Byte, (b3 + 0x80) as Byte,
        (v0 / 0x1000_0000) as Byte];
    }
    VarintUnrolled(v0);
  }

  lemma {:induction false} VarintUnrolled(v: nat)
    requires v < 0x1_0000_0000
    ensures v < 0x80 ==> Varint(v) == [v as Byte]
    ensures v >= 0x80 ==> Varint(v) == [(v % 0x80 + 0x80) as Byte] + Varint(v / 0x80)
    ensures v >= 0x4000 ==> Varint(v / 0x80) == [(v / 0x80 % 0x80 + 0x80) as Byte] + Varint(v / 0x4000)
    ensures v >= 0x20_0000 ==> Varint(v / 0x4000) == [(v / 0x4000 % 0x80 + 0x80) as Byte] + Varint(v / 0x20_0000)
    ensures v >= 0x1000_0000 ==>
      Varint(v / 0x20_0000) == [(v / 0x20_0000 % 0x80 + 0x80) as Byte] + Varint(v / 0x1000_0000)
    ensures v / 0x1000_0000 < 0x80 && Varint(v / 0x1000_0000) == [(v / 0x1000_0000) as Byte]
  {
    assert v / 0x80 / 0x80 == v / 0x4000 && v / 0x4000 / 0x80 == v / 0x20_0000 &&
      v / 0x20_0000 / 0x80 == v / 0x1000_0000;
  }

  method PutVarint64(dst: seq<Byte>, v: Number) returns (r: seq<Byte>)
    ensures r == dst + Varint(v) && (dst == [] ==> r == Varint(v))
  {
    r := dst;
    var left: nat := v;
    while left >= 0x80
      invariant r + Varint(left) == dst + Varint(v)
    {
      r := r + [(left % 0x80 + 0x80) as Byte];
      left := left / 0x80;
    }
    r := r + [left as Byte];
  }

  /** A variable-length 32-bit integer: at most five bytes; higher bits are lost. */
  function GetVarint32(input: seq<Byte>): (r: Option<(Word, seq<Byte>)>)
    ensures r.Some? ==> |r.value.1| < |input|
  {
    var r := ParseVarint(input, 5);
    if r.None? then None else Some((r.value.0 % 0x1_0000_0000, r.value.1))
  }

  function GetVarint64(input: seq<Byte>): (r: Option<(Number, seq<Byte>)>)
    ensures r.Some? ==> |r.value.1| < |input|
  {
    var r := ParseVarint(input, 10);
    if r.None? then None else Some((r.value.0 % 0x1_0000_0000_0000_0000, r.value.1))
  }

  /** The scan shared by both: group by group, at most n of them. */
  method GetVarintPtr(input: seq<Byte>, n: nat) returns (r: Option<(nat, seq<Byte>)>)
    ensures r == ParseVarint(input, n)
  {
    var result: nat, scale: nat := 0, 1;
    var i := 0;
    while i < n && i < |input|
      invariant i <= n && i <= |input|
      invariant ParseVarint(input, n) == Scaled(result, scale, ParseVarint(input[i..], n - i))
    {
      var byte := input[i];
      i := i + 1;
      assert input[i - 1..][1..] == input[i..];
      if byte >= 0x80 {
        ScaledStep(result, scale, byte as nat - 0x80, ParseVarint(input[i..], n - i));
        result := result + (byte as nat - 0x80) * scale;
        scale := scale * 0x80;
      } else {
        result := result + byte as nat * scale;
        return Some((result, input[i..]));
      }
    }
    r := None;
  }

  function Scaled(result: nat, scale: nat, r: Option<(nat, seq<Byte>)>): Option<(nat, seq<Byte>)> {
    if r.None? then None else Some((result + r.value.0 * scale, r.value.1))
  }

  lemma {:induction false} ScaledStep(result: nat, scale: nat, group: nat, r: Option<(nat, seq<Byte>)>)
    ensures Scaled(result, scale, if r.None? then None else Some((group + 0x80 * r.value.0, r.value.1))) ==
      Scaled(result + group * scale, scale * 0x80, r)
  {
    if r.Some? {
      var v := r.value.0;
      assert (group + 0x80 * v) * scale == group * scale + v * (scale * 0x80);
    }
  }

  // ---- Length-prefixed strings ----

  function LengthPrefixed(s: seq<Byte>): seq<Byte> { Varint(|s|) + s }

  function GetLengthPrefixedSlice(input: seq<Byte>): (r: Option<(seq<Byte>, seq<Byte>)>)
    ensures r.Some? ==> |r.value.1| < |input|
  {
    var r := GetVarint32(input);
    if r.None? || |r.value.1| < r.value.0 then None
    else Some((r.value.1[..r.value.0], r.value.1[r.value.0..]))
  }

  lemma {:induction false} GetPutVarint(v: nat, rest: seq<Byte>)
    ensures v < 0x1_0000_0000 ==> GetVarint32(Varint(v) + rest) == Some((v, rest))
    ensures v < 0x1_0000_0000_0000_0000 ==> GetVarint64(Varint(v) + rest) == Some((v, rest))
  {
    WidthsFit(v);
    if v < 0x1_0000_0000 { ParseVarintOf(v, 5, rest); }
    if v < 0x1_0000_0000_0000_0000 { ParseVarintOf(v, 10, rest); }
  }

  lemma {:induction false} GetPutSlice(s: seq<Byte>, rest: seq<Byte>)
    requires |s| < 0x1_0000_0000
    ensures GetLengthPrefixedSlice(LengthPrefixed(s) + rest) == Some((s, rest))
  {
    GetPutVarint(|s|, s + rest);
    assert LengthPrefixed(s) + rest == Varint(|s|) + (s + rest);
  }

  method PutLengthPrefixedSlice(dst: seq<Byte>, s: seq<Byte>) returns (r: seq<Byte>)
    requires |s| < 0x1_0000_0000
    ensures r == dst + LengthPrefixed(s) && (dst == [] ==> r == LengthPrefixed(s))
  {
    r := PutVarint32(dst, |s|);
    r := r + s;
  }
}
