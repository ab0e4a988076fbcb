/** Known labels, which depend on the constants of RFC 3492, section 5. */
module PunycodeKnown {
  import opened Format
  import opened Coding
  import opened Punycode

  const JAPANESE: seq<nat> := [0x305D, 0x306E, 0x30B9, 0x30D4, 0x30FC, 0x30C9, 0x3067]

  /** One more digit of a variable-length integer. */
  lemma {:induction false} MoreDigits(c: Byte, rest: seq<Byte>, k: nat, bias: nat, i: nat, w: nat, d: nat)
    requires DigitValue(c) == Some(d)
    ensures DecodeInteger([c] + rest, k, bias, i, w) ==
      if d < Threshold(k, bias) then Some((i + d * w, rest))
      else DecodeInteger(rest, k + 36, bias, i + d * w, w * (36 - Threshold(k, bias)))
  {
    assert ([c] + rest)[1..] == rest;
  }

  lemma {:induction false} Unhyphened(text: seq<Byte>)
    requires HYPHEN !in text
    ensures LastHyphen(text).None?
  {
    if |text| > 0 {
      assert text == text[..|text| - 1] + [text[|text| - 1]];
      Unhyphened(text[..|text| - 1]);
    }
  }

  lemma {:induction false} NothingBefore(text: seq<Byte>)
    requires LastHyphen(text).None?
    ensures Decode(text) == DecodeRest(text, Decoder(128, 0, 72, []))
  {
  }

  lemma {:induction false} InsertIs(s: Decoder, sum: nat, steps: nat, i: nat, bias: nat)
    requires sum == steps * (|s.output| + 1) + i && i <= |s.output| && sum >= s.i
    requires Adapt(sum - s.i, |s.output| + 1, s.i == 0) == bias
    ensures InsertNext(s, sum) == Decoder(s.n + steps, i + 1, bias, s.output[..i] + [s.n + steps] + s.output[i..])
  {
    DivideInsert(steps, |s.output| + 1, i);
  }

  lemma {:induction false} OneInsertion(input: seq<Byte>, s: Decoder, sum: nat, s': Decoder, rest: seq<Byte>)
    requires DecodeInteger(input, 36, s.bias, s.i, 1) == Some((sum, rest)) && InsertNext(s, sum) == s' && s'.n >= 128
    ensures DecodeRest(input, s) == DecodeRest(rest, s')
  {
    assert |input| > 0;
  }

  lemma {:induction false} Digits1(rest: seq<Byte>)
    ensures DecodeInteger([100] + ([57] + ([106] + rest)), 36, 72, 0, 1) == Some((12253, rest))
  {
    MoreDigits(100, [57] + ([106] + rest), 36, 72, 0, 1, 3);
    MoreDigits(57, [106] + rest, 72, 72, 3, 35, 35);
    MoreDigits(106, rest, 108, 72, 1228, 1225, 9);
  }

  lemma {:induction false} Inserted1()
    ensures InsertNext(Decoder(128, 0, 72, []), 12253) ==
      Decoder(12381, 1, 17, [12381])
  {
    assert Adapt(12253, 1, true) == 17;
    InsertIs(Decoder(128, 0, 72, []), 12253, 12253, 0, 17);
    assert [][..0] + [12381] + [][0..] == [12381];
  }

  lemma {:induction false} Insertion1(rest: seq<Byte>)
    ensures DecodeRest([100] + ([57] + ([106] + rest)), Decoder(128, 0, 72, [])) ==
      DecodeRest(rest, Decoder(12381, 1, 17, [12381]))
  {
    Digits1(rest);
    Inserted1();
    OneInsertion([100] + ([57] + ([106] + rest)), Decoder(128, 0, 72, []), 12253,
      Decoder(12381, 1, 17, [12381]), rest);
  }

  lemma {:induction false} Digits2(rest: seq<Byte>)
    ensures DecodeInteger([117] + ([97] + rest), 36, 17, 1, 1) == Some((21, rest))
  {
    MoreDigits(117, [97] + rest, 36, 17, 1, 1, 20);
    MoreDigits(97, rest, 72, 17, 21, 17, 0);
  }

  lemma {:induction false} Inserted2()
    ensures InsertNext(Decoder(12381, 1, 17, [12381]), 21) ==
      Decoder(12391, 2, 10, [12381, 12391])
  {
    assert Adapt(20, 2, false) == 10;
    InsertIs(Decoder(12381, 1, 17, [12381]), 21, 10, 1, 10);
    assert [12381][..1] + [12391] + [12381][1..] == [12381, 12391];
  }

  lemma {:induction false} Insertion2(rest: seq<Byte>)
    ensures DecodeRest([117] + ([97] + rest), Decoder(12381, 1, 17, [12381])) ==
      DecodeRest(rest, Decoder(12391, 2, 10, [12381, 12391]))
  {
    Digits2(rest);
    Inserted2();
    OneInsertion([117] + ([97] + rest), Decoder(12381, 1, 17, [12381]), 21,
      Decoder(12391, 2, 10, [12381, 12391]), rest);
  }

  lemma {:induction false} Digits3(rest: seq<Byte>)
    ensures DecodeInteger([117] + rest, 36, 10, 2, 1) == Some((22, rest))
  {
    MoreDigits(117, rest, 36, 10, 2, 1, 20);
  }

  lemma {:induction false} Inserted3()
    ensures InsertNext(Decoder(12391, 2, 10, [12381, 12391]), 22) ==
      Decoder(12398, 2, 9, [12381, 12398, 12391])
  {
    assert Adapt(20, 3, false) == 9;
    InsertIs(Decoder(12391, 2, 10, [12381, 12391]), 22, 7, 1, 9);
    assert [12381, 12391][..1] + [12398] + [12381, 12391][1..] == [12381, 12398, 12391];
  }

  lemma {:induction false} Insertion3(rest: seq<Byte>)
    ensures DecodeRest([117] + rest, Decoder(12391, 2, 10, [12381, 12391])) ==
      DecodeRest(rest, Decoder(12398, 2, 9, [12381, 12398, 12391]))
  {
    Digits3(rest);
    Inserted3();
    OneInsertion([117] + rest, Decoder(12391, 2, 10, [12381, 12391]), 22,
      Decoder(12398, 2, 9, [12381, 12398, 12391]), rest);
  }

  lemma {:induction false} Digits4(rest: seq<Byte>)
    ensures DecodeInteger([52] + ([49] + ([97] + rest)), 36, 9, 2, 1) == Some((302, rest))
  {
    MoreDigits(52, [49] + ([97] + rest), 36, 9, 2, 1, 30);
    MoreDigits(49, [97] + rest, 72, 9, 32, 10, 27);
    MoreDigits(97, rest, 108, 9, 302, 100, 0);
  }

  lemma {:induction false} Inserted4()
    ensures InsertNext(Decoder(12398, 2, 9, [12381, 12398, 12391]), 302) ==
      Decoder(12473, 3, 29, [12381, 12398, 12473, 12391])
  {
    assert Adapt(300, 4, false) == 29;
    InsertIs(Decoder(12398, 2, 9, [12381, 12398, 12391]), 302, 75, 2, 29);
    assert [12381, 12398, 12391][..2] + [12473] + [12381, 12398, 12391][2..] == [12381, 12398, 12473, 12391];
  }

  lemma {:induction false} Insertion4(rest: seq<Byte>)
    ensures DecodeRest([52] + ([49] + ([97] + rest)), Decoder(12398, 2, 9, [12381, 12398, 12391])) ==
      DecodeRest(rest, Decoder(12473, 3, 29, [12381, 12398, 12473, 12391]))
  {
    Digits4(rest);
    Inserted4();
    OneInsertion([52] + ([49] + ([97] + rest)), Decoder(12398, 2, 9, [12381, 12398, 12391]), 302,
      Decoder(12473, 3, 29, [12381, 12398, 12473, 12391]), rest);
  }

  lemma {:induction false} Digits5(rest: seq<Byte>)
    ensures DecodeInteger([119] + ([99] + rest), 36, 29, 3, 1) == Some((83, rest))
  {
    MoreDigits(119, [99] + rest, 36, 29, 3, 1, 22);
    MoreDigits(99, rest, 72, 29, 25, 29, 2);
  }

  lemma {:induction false} Inserted5()
    ensures InsertNext(Decoder(12473, 3, 29, [12381, 12398, 12473, 12391]), 83) ==
      Decoder(12489, 4, 20, [12381, 12398, 12473, 12489, 12391])
  {
    assert Adapt(80, 5, false) == 20;
    InsertIs(Decoder(12473, 3, 29, [12381, 12398, 12473, 12391]), 83, 16, 3, 20);
    assert [12381, 12398, 12473, 12391][..3] + [12489] + [12381, 12398, 12473, 12391][3..] ==
      [12381, 12398, 12473, 12489, 12391];
  }

  lemma {:induction false} Insertion5(rest: seq<Byte>)
    ensures DecodeRest([119] + ([99] + rest), Decoder(12473, 3, 29, [12381, 12398, 12473, 12391])) ==
      DecodeRest(rest, Decoder(12489, 4, 20, [12381, 12398, 12473, 12489, 12391]))
  {
    Digits5(rest);
    Inserted5();
    OneInsertion([119] + ([99] + rest), Decoder(12473, 3, 29, [12381, 12398, 12473, 12391]), 83,
      Decoder(12489, 4, 20, [12381, 12398, 12473, 12489, 12391]), rest);
  }

  lemma {:induction false} Digits6(rest: seq<Byte>)
    ensures DecodeInteger([122] + ([99] + rest), 36, 20, 4, 1) == Some((69, rest))
  {
    MoreDigits(122, [99] + rest, 36, 20, 4, 1, 25);
    MoreDigits(99, rest, 72, 20, 29, 20, 2);
  }

  lemma {:induction false} Inserted6()
    ensures InsertNext(Decoder(12489, 4, 20, [12381, 12398, 12473, 12489, 12391]), 69) ==
      Decoder(12500, 4, 17, [12381, 12398, 12473, 12500, 12489, 12391])
  {
    assert Adapt(65, 6, false) == 17;
    InsertIs(Decoder(12489, 4, 20, [12381, 12398, 12473, 12489, 12391]), 69, 11, 3, 17);
    assert [12381, 12398, 12473, 12489, 12391][..3] + [12500] + [12381, 12398, 12473, 12489, 12391][3..] ==
      [12381, 12398, 12473, 12500, 12489, 12391];
  }

  lemma {:induction false} Insertion6(rest: seq<Byte>)
    ensures DecodeRest([122] + ([99] + rest), Decoder(12489, 4, 20, [12381, 12398, 12473, 12489, 12391])) ==
      DecodeRest(rest, Decoder(12500, 4, 17, [12381, 12398, 12473, 12500, 12489, 12391]))
  {
    Digits6(rest);
    Inserted6();
    OneInsertion([122] + ([99] + rest), Decoder(12489, 4, 20, [12381, 12398, 12473, 12489, 12391]), 69,
      Decoder(12500, 4, 17, [12381, 12398, 12473, 12500, 12489, 12391]), rest);
  }

  lemma {:induction false} Digits7(rest: seq<Byte>)
    ensures DecodeInteger([122] + ([112] + rest), 36, 17, 4, 1) == Some((284, rest))
  {
    MoreDigits(122, [112] + rest, 36, 17, 4, 1, 25);
    MoreDigits(112, rest, 72, 17, 29, 17, 15);
  }

  lemma {:induction false} Inserted7()
    ensures InsertNext(Decoder(12500, 4, 17, [12381, 12398, 12473, 12500, 12489, 12391]), 284) ==
      Decoder(12540, 5, 29, [12381, 12398, 12473, 12500, 12540, 12489, 12391])
  {
    assert Adapt(280, 7, false) == 29;
    InsertIs(Decoder(12500, 4, 17, [12381, 12398, 12473, 12500, 12489, 12391]), 284, 40, 4, 29);
    assert [12381, 12398, 12473, 12500, 12489, 12391][..4] + [12540] +
      [12381, 12398, 12473, 12500, 12489, 12391][4..] == [12381, 12398, 12473, 12500, 12540, 12489, 12391];
  }

  lemma {:induction false} Insertion7(rest: seq<Byte>)
    ensures DecodeRest([122] + ([112] + rest), Decoder(12500, 4, 17, [12381, 12398, 12473, 12500, 12489, 12391])) ==
      DecodeRest(rest, Decoder(12540, 5, 29, [12381, 12398, 12473, 12500, 12540, 12489, 12391]))
  {
    Digits7(rest);
    Inserted7();
    OneInsertion([122] + ([112] + rest), Decoder(12500, 4, 17, [12381, 12398, 12473, 12500, 12489, 12391]), 284,
      Decoder(12540, 5, 29, [12381, 12398, 12473, 12500, 12540, 12489, 12391]), rest);
  }

  lemma {:induction false} Rest7() returns (text: seq<Byte>)
    ensures text == [122, 112]
    ensures DecodeRest(text, Decoder(12500, 4, 17, [12381, 12398, 12473, 12500, 12489, 12391])) == Some(JAPANESE)
  {
    var rest: seq<Byte> := [];
    Insertion7(rest);
    text := [122] + ([112] + rest);
  }

  lemma {:induction false} Rest6() returns (text: seq<Byte>)
    ensures text == [122, 99, 122, 112]
    ensures DecodeRest(text, Decoder(12489, 4, 20, [12381, 12398, 12473, 12489, 12391])) == Some(JAPANESE)
  {
    var rest := Rest7();
    Insertion6(rest);
    text := [122] + ([99] + rest);
  }

  lemma {:induction false} Rest5() returns (text: seq<Byte>)
    ensures text == [119, 99, 122, 99, 122, 112]
    ensures DecodeRest(text, Decoder(12473, 3, 29, [12381, 12398, 12473, 12391])) == Some(JAPANESE)
  {
    var rest := Rest6();
    Insertion5(rest);
    text := [119] + ([99] + rest);
  }

  lemma {:induction false} Rest4() returns (text: seq<Byte>)
    ensures text == [52, 49, 97, 119, 99, 122, 99, 122, 112]
    ensures DecodeRest(text, Decoder(12398, 2, 9, [12381, 12398, 12391])) == Some(JAPANESE)
  {
    var rest := Rest5();
    Insertion4(rest);
    text := [52] + ([49] + ([97] + rest));
  }

  lemma {:induction false} Rest3() returns (text: seq<Byte>)
    ensures text == [117, 52, 49, 97, 119, 99, 122, 99, 122, 112]
    ensures DecodeRest(text, Decoder(12391, 2, 10, [12381, 12391])) == Some(JAPANESE)
  {
    var rest := Rest4();
    Insertion3(rest);
    text := [117] + rest;
  }

  lemma {:induction false} Rest2() returns (text: seq<Byte>)
    ensures text == [117, 97, 117, 52, 49, 97, 119, 99, 122, 99, 122, 112]
    ensures DecodeRest(text, Decoder(12381, 1, 17, [12381])) == Some(JAPANESE)
  {
    var rest := Rest3();
    Insertion2(rest);
    text := [117] + ([97] + rest);
  }

  lemma {:induction false} Rest1() returns (text: seq<Byte>)
    ensures text == [100, 57, 106, 117, 97, 117, 52, 49, 97, 119, 99, 122, 99, 122, 112]
    ensures DecodeRest(text, Decoder(128, 0, 72, [])) == Some(JAPANESE)
  {
    var rest := Rest2();
    Insertion1(rest);
    text := [100] + ([57] + ([106] + rest));
  }

  /** A label of seven Japanese code points. */
  lemma {:induction false} JapaneseIs()
    ensures Decode([100, 57, 106, 117, 97, 117, 52, 49, 97, 119, 99, 122, 99, 122, 112]) == Some(JAPANESE)
  {
    var text := Rest1();
    Unhyphened(text);
    NothingBefore(text);
  }

  lemma {:induction false} GermanDigits(rest: seq<Byte>)
    ensures DecodeInteger([107] + ([118] + ([97] + rest)), 36, 72, 0, 1) == Some((745, rest))
  {
    MoreDigits(107, [118] + ([97] + rest), 36, 72, 0, 1, 10);
    MoreDigits(118, [97] + rest, 72, 72, 10, 35, 21);
    MoreDigits(97, rest, 108, 72, 745, 1225, 0);
  }

  lemma {:induction false} GermanInsertion(rest: seq<Byte>)
    ensures DecodeRest([107] + ([118] + ([97] + rest)), Decoder(128, 0, 72, [98, 99, 104, 101, 114])) ==
      DecodeRest(rest, Decoder(252, 2, 0, [98, 252, 99, 104, 101, 114]))
  {
    var start := Decoder(128, 0, 72, [98, 99, 104, 101, 114]);
    GermanDigits(rest);
    assert start.output[..1] + [252] + start.output[1..] == [98, 252, 99, 104, 101, 114];
    OneInsertion([107] + ([118] + ([97] + rest)), start, 745, Decoder(252, 2, 0, [98, 252, 99, 104, 101, 114]), rest);
  }

  /** A label with both kinds of code points: what is written out, and what is inserted. */
  lemma {:induction false} GermanIs()
    ensures Decode([98, 99, 104, 101, 114, 45, 107, 118, 97]) == Some([98, 252, 99, 104, 101, 114])
  {
    var ascii: seq<Byte> := [98, 99, 104, 101, 114];
    var digits: seq<Byte> := [107] + ([118] + ([97] + []));
    var text := ascii + [HYPHEN] + digits;
    assert text == [98, 99, 104, 101, 114, 45, 107, 118, 97];
    assert HYPHEN !in digits;
    LastHyphenIs(ascii, digits);
    assert text[..5] == ascii && text[6..] == digits;
    assert CodePoints(ascii) == [98, 99, 104, 101, 114];
    GermanInsertion([]);
  }
}
