/** Punycode: the encoder of one host-name label, and the decoder of RFC 3492, section 6.2. */
module Punycode {
  import opened Format
  import opened Coding

  const BASE: nat := 36
  const TMAX: nat := 26
  const INITIAL_BIAS: nat := 72
  const INITIAL_N: nat := 128
  const HYPHEN: Byte := 45

  function Quotient(a: nat, b: nat): nat
    requires b > 0
  {
    a / b
  }

  /** The bias after a delta; numPoints counts the code point it was for. */
  function Adapt(delta: nat, numPoints: nat, first: bool): nat
    requires numPoints > 0
  {
    var d := if first then delta / 700 else delta / 2;
    Settle(d + Quotient(d, numPoints), 0)
  }

  function Settle(delta: nat, k: nat): nat {
    if delta > 455 then Settle(delta / 35, k + 36) else k + Quotient(36 * delta, delta + 38)
  }

  /** The threshold of the digit at position k. */
  function Threshold(k: nat, bias: nat): (t: nat)
    ensures 1 <= t <= 26
  {
    if k <= bias then 1 else if k - bias > 26 then 26 else k - bias
  }

  // ---- The decoder ----

  function DigitValue(c: Byte): Option<nat> {
    if 97 <= c <= 122 then Some(c as nat - 97)
    else if 65 <= c <= 90 then Some(c as nat - 65)
    else if 48 <= c <= 57 then Some(c as nat - 48 + 26)
    else None
  }

  /** Reads one variable-length integer: adds its digits, scaled by w, to i. */
  function DecodeInteger(input: seq<Byte>, k: nat, bias: nat, i: nat, w: nat): (r: Option<(nat, seq<Byte>)>)
    ensures r.Some? ==> |r.value.1| < |input|
  {
    if |input| == 0 then None
    else
      var digit := DigitValue(input[0]);
      if digit.None? then None
      else
        var t := Threshold(k, bias);
        var sum := i + digit.value * w;
        if digit.value < t then Some((sum, input[1..]))
        else DecodeInteger(input[1..], k + 36, bias, sum, w * (36 - t))
  }

  datatype Decoder = Decoder(n: nat, i: nat, bias: nat, output: seq<nat>)

  /** Inserts one code point: delta steps on from where the last one was inserted. */
  function InsertNext(s: Decoder, sum: nat): Decoder {
    var len := |s.output| + 1;
    var n, i := s.n + sum / len, sum % len;
    Decoder(n, i + 1, Adapt(if sum >= s.i then sum - s.i else 0, len, s.i == 0), s.output[..i] + [n] + s.output[i..])
  }

  function DecodeRest(input: seq<Byte>, s: Decoder): Option<seq<nat>>
    decreases |input|
  {
    if |input| == 0 then Some(s.output)
    else
      var r := DecodeInteger(input, 36, s.bias, s.i, 1);
      if r.None? then None else
        var s' := InsertNext(s, r.value.0);
        if s'.n < 128 then None else DecodeRest(r.value.1, s')
  }

  function LastHyphen(text: seq<Byte>): (r: Option<nat>)
    ensures r.Some? ==> r.value < |text| && text[r.value] == HYPHEN && HYPHEN !in text[r.value + 1..]
    ensures r.None? ==> HYPHEN !in text
  {
    if |text| == 0 then None
    else if text[|text| - 1] == HYPHEN then Some(|text| - 1)
    else LastHyphen(text[..|text| - 1])
  }

  function CodePoints(bytes: seq<Byte>): seq<nat> { seq(|bytes|, i requires 0 <= i < |bytes| => bytes[i] as nat) }

  /** Decodes the text behind the prefix "xn--". */
  function Decode(text: seq<Byte>): Option<seq<nat>> {
    var h := LastHyphen(text);
    if h.Some? && h.value > 0 then
      if exists c :: c in text[..h.value] && c >= 128 then None
      else DecodeRest(text[h.value + 1..], Decoder(128, 0, 72, CodePoints(text[..h.value])))
    else DecodeRest(text, Decoder(128, 0, 72, []))
  }

  // ---- One variable-length integer ----

  function Digit(d: nat): Byte
    requires d < 36
  {
    if d < 26 then (97 + d) as Byte else (48 + d - 26) as Byte
  }

  lemma {:induction false} Divide(x: nat, y: nat)
    requires 10 <= y
    ensures x == y * (x / y) + x % y && 0 <= x % y < y && x / y <= x
  {
    assert x / y >= 0;
  }

  /** The digit that stands for the low part of q, and what is left of q. */
  function LowDigit(q: nat, t: nat): (d: nat)
    requires 1 <= t <= 26 && t <= q
    ensures t <= d < 36
  {
    Divide(q - t, 36 - t);
    t + (q - t) % (36 - t)
  }

  function HighPart(q: nat, t: nat): (r: nat)
    requires 1 <= t <= 26 && t <= q
    ensures r < q
  {
    Divide(q - t, 36 - t);
    (q - t) / (36 - t)
  }

  lemma {:induction false} LowAndHigh(q: nat, t: nat)
    requires 1 <= t <= 26 && t <= q
    ensures q == LowDigit(q, t) + (36 - t) * HighPart(q, t)
  {
    Divide(q - t, 36 - t);
  }

  function EncodeInteger(q: nat, k: nat, bias: nat): seq<Byte> {
    var t := Threshold(k, bias);
    if q < t then [Digit(q)] else [Digit(LowDigit(q, t))] + EncodeInteger(HighPart(q, t), k + 36, bias)
  }

  lemma {:induction false} Rescale(i: nat, d: nat, w: nat, u: nat, h: nat, q: nat)
    requires q == d + u * h
    ensures i + d * w + h * (w * u) == i + q * w
  {
    assert h * (w * u) == (u * h) * w;
    assert (d + u * h) * w == d * w + (u * h) * w;
  }

  lemma {:induction false} DecodeEncodeInteger(q: nat, k: nat, bias: nat, i: nat, w: nat, rest: seq<Byte>)
    ensures DecodeInteger(EncodeInteger(q, k, bias) + rest, k, bias, i, w) == Some((i + q * w, rest))
  {
    var t := Threshold(k, bias);
    var input := EncodeInteger(q, k, bias) + rest;
    if q < t {
      assert input[1..] == rest;
    } else {
      var d, h := LowDigit(q, t), HighPart(q, t);
      DecodeEncodeInteger(h, k + 36, bias, i + d * w, w * (36 - t), rest);
      assert input[1..] == EncodeInteger(h, k + 36, bias) + rest;
      assert DigitValue(input[0]) == Some(d);
      LowAndHigh(q, t);
      Rescale(i, d, w, 36 - t, h, q);
    }
  }

  // ---- Which code points have been handled ----

  /** The code points below n, and those equal to n before position p, in order. */
  function Handled(points: seq<nat>, n: nat, p: nat): seq<nat> {
    if |points| == 0 then [] else
      var m := |points| - 1;
      Handled(points[..m], n, p) + if points[m] < n || (points[m] == n && m < p) then [points[m]] else []
  }

  /** How many of them come before position p: where the next one is inserted. */
  function Before(points: seq<nat>, n: nat, p: nat): nat
    requires p <= |points|
  {
    |Handled(points[..p], n, p)|
  }

  /** Later marks do not matter for earlier positions. */
  lemma {:induction false} HandledEarly(points: seq<nat>, n: nat, p: nat, p': nat)
    requires |points| <= p && |points| <= p'
    ensures Handled(points, n, p) == Handled(points, n, p')
  {
    if |points| > 0 { HandledEarly(points[..|points| - 1], n, p, p'); }
  }

  /** Handling the code point at p inserts it behind those before it. */
  lemma {:induction false} HandleOne(points: seq<nat>, n: nat, p: nat, q: nat)
    requires p < q <= |points| && points[p] == n
    ensures Before(points, n, p) <= |Handled(points[..q], n, p)|
    ensures var old_, c := Handled(points[..q], n, p), Before(points, n, p);
      Handled(points[..q], n, p + 1) == old_[..c] + [n] + old_[c..]
  {
    var c := Before(points, n, p);
    assert points[..q][..q - 1] == points[..q - 1];
    if q == p + 1 {
      HandledEarly(points[..p], n, p, p + 1);
    } else {
      HandleOne(points, n, p, q - 1);
      var old_ := Handled(points[..q - 1], n, p);
      var more := if points[q - 1] < n then [points[q - 1]] else [];
      assert Handled(points[..q], n, p) == old_ + more &&
        Handled(points[..q], n, p + 1) == Handled(points[..q - 1], n, p + 1) + more;
      assert (old_ + more)[..c] == old_[..c] && (old_ + more)[c..] == old_[c..] + more;
    }
  }

  lemma {:induction false} HandleNone(points: seq<nat>, n: nat, p: nat, q: nat)
    requires p < |points| && q <= |points| && points[p] != n
    ensures Handled(points[..q], n, p + 1) == Handled(points[..q], n, p)
  {
    if q > 0 {
      HandleNone(points, n, p, q - 1);
      assert points[..q][..q - 1] == points[..q - 1];
    }
  }

  lemma {:induction false} BeforeNext(points: seq<nat>, n: nat, p: nat)
    requires p < |points|
    ensures Before(points, n, p + 1) == Before(points, n, p) + if points[p] <= n then 1 else 0
  {
    assert points[..p + 1][..p] == points[..p];
    HandledEarly(points[..p], n, p, p + 1);
  }

  /** At the end of a round nothing is left that is n or below. */
  lemma {:induction false} NextRound(points: seq<nat>, n: nat, p: nat)
    requires |points| <= p
    ensures Handled(points, n + 1, 0) == Handled(points, n, p)
  {
    if |points| > 0 { NextRound(points[..|points| - 1], n, p); }
  }

  /** Values that do not occur can be skipped. */
  lemma {:induction false} SkipTo(points: seq<nat>, n: nat, m: nat)
    requires n <= m && forall c | c in points :: c < n || c >= m
    ensures Handled(points, m, 0) == Handled(points, n, 0)
  {
    if |points| > 0 {
      var k := |points| - 1;
      assert points[k] in points && forall c | c in points[..k] :: c in points;
      SkipTo(points[..k], n, m);
    }
  }

  lemma {:induction false} HandledAll(points: seq<nat>, n: nat, p: nat)
    ensures |Handled(points, n, p)| <= |points|
    ensures |Handled(points, n, p)| == |points| ==> Handled(points, n, p) == points
    ensures |Handled(points, n, p)| < |points| ==> exists c :: c in points && c >= n
  {
    if |points| > 0 {
      var k := |points| - 1;
      HandledAll(points[..k], n, p);
      assert points == points[..k] + [points[k]];
      assert forall c | c in points[..k] :: c in points;
      assert points[k] in points;
    }
  }

  // ---- Encoder and decoder in step ----

  /** Where the decoder is once it has read what has been written, and what the encoder still owes it: delta steps lead
      from there to value n at position p. */
  ghost predicate InStep(points: seq<nat>, n: nat, p: nat, delta: nat, s: Decoder) {
    p <= |points| && s.output == Handled(points, n, p) && s.n <= n && 128 <= n &&
    delta + s.i == (n - s.n) * (|s.output| + 1) + Before(points, n, p)
  }

  /** Whatever follows, decoding from the start comes to the state after reading the text. */
  ghost predicate Reads(text: seq<Byte>, start: Decoder, s: Decoder) {
    forall more: seq<Byte> :: DecodeRest(text + more, start) == DecodeRest(more, s)
  }

  lemma {:induction false} DivideInsert(steps: nat, len: nat, c: nat)
    requires c < len
    ensures (steps * len + c) / len == steps && (steps * len + c) % len == c
  {
    var x := steps * len + c;
    var gap := x / len - steps;
    assert x == len * (x / len) + x % len;
    assert len * gap == len * (x / len) - len * steps == c - x % len;
    Multiples(len, gap);
  }

  lemma {:induction false} Multiples(len: int, gap: int)
    requires len >= 0
    ensures gap >= 1 ==> len * gap >= len
    ensures gap <= -1 ==> len * gap <= -len
  {
  }

  /** The decoder's state after the code point at p. */
  function Advance(s: Decoder, delta: nat): Decoder { InsertNext(s, s.i + delta) }

  /** Writing delta makes the decoder insert the code point at p in its place. */
  lemma {:induction false} InsertInStep(points: seq<nat>, n: nat, p: nat, delta: nat, s: Decoder)
    requires InStep(points, n, p, delta, s) && p < |points| && points[p] == n
    ensures InStep(points, n, p + 1, 0, Advance(s, delta))
    ensures Advance(s, delta).bias == Adapt(delta, |s.output| + 1, s.i == 0) && Advance(s, delta).i > 0
    ensures |Advance(s, delta).output| == |s.output| + 1 && Advance(s, delta).n == n
  {
    var c, len := Before(points, n, p), |s.output| + 1;
    assert points[..|points|] == points;
    HandleOne(points, n, p, |points|);
    DivideInsert(n - s.n, len, c);
    BeforeNext(points, n, p);
  }

  lemma {:induction false} ReadsMore(text: seq<Byte>, start: Decoder, s: Decoder, delta: nat)
    requires Reads(text, start, s) && Advance(s, delta).n >= 128
    ensures Reads(text + EncodeInteger(delta, 36, s.bias), start, Advance(s, delta))
  {
    forall more: seq<Byte>
      ensures DecodeRest(text + EncodeInteger(delta, 36, s.bias) + more, start) == DecodeRest(more, Advance(s, delta))
    {
      assert text + EncodeInteger(delta, 36, s.bias) + more == text + (EncodeInteger(delta, 36, s.bias) + more);
      ReadsOne(s, delta, more);
    }
  }

  lemma {:induction false} ReadsOne(s: Decoder, delta: nat, more: seq<Byte>)
    requires Advance(s, delta).n >= 128
    ensures DecodeRest(EncodeInteger(delta, 36, s.bias) + more, s) == DecodeRest(more, Advance(s, delta))
  {
    DecodeEncodeInteger(delta, 36, s.bias, s.i, 1, more);
    assert |EncodeInteger(delta, 36, s.bias) + more| > 0;
  }

  lemma {:induction false} PassInStep(points: seq<nat>, n: nat, p: nat, delta: nat, s: Decoder)
    requires InStep(points, n, p, delta, s) && p < |points| && points[p] != n
    ensures InStep(points, n, p + 1, if points[p] < n then delta + 1 else delta, s)
  {
    assert points[..|points|] == points;
    HandleNone(points, n, p, |points|);
    BeforeNext(points, n, p);
  }

  lemma {:induction false} EndOfRound(points: seq<nat>, n: nat, delta: nat, s: Decoder)
    requires InStep(points, n, |points|, delta, s)
    ensures InStep(points, n + 1, 0, delta + 1, s)
  {
    assert points[..|points|] == points && points[..0] == [];
    NextRound(points, n, |points|);
    var len := |s.output| + 1;
    assert (n + 1 - s.n) * len == (n - s.n) * len + len;
  }

  lemma {:induction false} JumpInStep(points: seq<nat>, n: nat, m: nat, delta: nat, s: Decoder)
    requires InStep(points, n, 0, delta, s) && n <= m && forall c | c in points :: c < n || c >= m
    ensures InStep(points, m, 0, delta + (m - n) * (|s.output| + 1), s)
  {
    SkipTo(points, n, m);
    assert points[..0] == [];
    var len := |s.output| + 1;
    assert (m - s.n) * len == (n - s.n) * len + (m - n) * len;
  }

  // ---- Which deltas there are ----

  /** Where the largest value from 128 up to n last occurs: the code point that is handled last before those equal to
      n. */
  function LastBelow(points: seq<nat>, n: nat): (r: Option<nat>)
    ensures r.None? <==> forall k :: 0 <= k < |points| ==> points[k] < 128 || points[k] >= n
    ensures r.Some? ==> r.value < |points| && 128 <= points[r.value] < n
    ensures r.Some? ==> forall k :: 0 <= k < |points| && 128 <= points[k] < n ==>
      points[k] < points[r.value] || (points[k] == points[r.value] && k <= r.value)
  {
    if |points| == 0 then None else
      var m := |points| - 1;
      var r := LastBelow(points[..m], n);
      assert forall k :: 0 <= k < m ==> points[..m][k] == points[k];
      if 128 <= points[m] < n && (r.None? || points[r.value] <= points[m]) then Some(m) else r
  }

  /** Where the decoder was left by the last code point below n: at which value, and behind how many code points. */
  function Mark(points: seq<nat>, n: nat): (nat, nat) {
    match LastBelow(points, n)
    case None => (128, 0)
    case Some(q) => (points[q], Before(points, points[q], q) + 1)
  }

  /** The steps the decoder takes from there to the first occurrence of a value at p. */
  function FirstDelta(points: seq<nat>, p: nat): int
    requires p < |points|
  {
    var n := points[p];
    var (m, i) := Mark(points, n);
    (n - m) * (|Handled(points, n, 0)| + 1) + Before(points, n, p) - i
  }

  /** The delta of the first occurrence of n fits into 32 bits. */
  ghost predicate Fits(points: seq<nat>, n: nat) {
    forall p {:trigger FirstDelta(points, p)} ::
      0 <= p < |points| && points[p] == n && n !in points[..p] ==> FirstDelta(points, p) <= MAX_UNSIGNED
  }

  /** Some first occurrence of a value that is not ASCII has a delta of more than 32 bits. */
  ghost predicate Wide(points: seq<nat>) {
    exists n {:trigger Fits(points, n)} :: n in points && n >= 128 && !Fits(points, n)
  }

  /** The decoder is where the last code point below n was inserted. */
  ghost predicate Marked(points: seq<nat>, n: nat, s: Decoder) { Mark(points, n) == (s.n, s.i) }

  lemma {:induction false} MarkSkips(points: seq<nat>, n: nat, m: nat)
    requires n <= m && forall c | c in points :: c < n || c >= m
    ensures LastBelow(points, m) == LastBelow(points, n)
  {
    assert forall k :: 0 <= k < |points| ==> points[k] in points;
  }

  /** After a round the last occurrence of n is the last code point handled. */
  lemma {:induction false} MarkMoves(points: seq<nat>, n: nat, q: nat, s: Decoder)
    requires q < |points| && points[q] == n >= 128 && n !in points[q + 1..] && s.n == n &&
      s.i == Before(points, n, q) + 1
    ensures Marked(points, n + 1, s)
  {
    forall k | q < k < |points| ensures points[k] != n {
      assert points[q + 1..][k - q - 1] == points[k];
    }
    var r := LastBelow(points, n + 1);
    assert r.Some?;
    assert points[r.value] == n && r.value == q;
  }

  lemma {:induction false} BeforeGrows(points: seq<nat>, n: nat, p: nat, q: nat)
    requires p <= q <= |points|
    ensures Before(points, n, p) <= Before(points, n, q)
  {
    if p < q {
      BeforeGrows(points, n, p, q - 1);
      BeforeNext(points, n, q - 1);
    }
  }

  lemma {:induction false} HandledFresh(points: seq<nat>, n: nat, p: nat)
    requires n !in points[..if p < |points| then p else |points|]
    ensures Handled(points, n, p) == Handled(points, n, 0)
  {
    if |points| > 0 {
      var m := |points| - 1;
      var cut := if p < |points| then p else |points|;
      var cut' := if p < m then p else m;
      assert points[..m][..cut'] == points[..cut][..cut'];
      HandledFresh(points[..m], n, p);
      assert m < p ==> points[..cut][m] == points[m];
    }
  }

  /** Before the first occurrence of n at p, what the encoder owes is the delta of p without the steps still to come. */
  lemma {:induction false} OwedIsFirst(points: seq<nat>, n: nat, i: nat, p: nat, delta: nat, s: Decoder)
    requires InStep(points, n, i, delta, s) && Marked(points, n, s)
    requires i <= p < |points| && points[p] == n && n !in points[..p]
    ensures FirstDelta(points, p) == delta + Before(points, n, p) - Before(points, n, i) &&
      Before(points, n, i) <= Before(points, n, p)
  {
    assert points[..i] == points[..p][..i];
    HandledFresh(points, n, i);
    BeforeGrows(points, n, i, p);
  }

  lemma {:induction false} FirstPlace(points: seq<nat>, n: nat, i: nat) returns (p: nat)
    requires n in points && i <= |points| && n !in points[..i]
    ensures i <= p < |points| && points[p] == n && n !in points[..p]
  {
    p := i;
    while points[p] != n
      invariant i <= p < |points| && n !in points[..p]
      invariant n in points[p..]
      decreases |points| - p
    {
      assert points[p..] == [points[p]] + points[p + 1..];
      assert points[..p + 1] == points[..p] + [points[p]];
      p := p + 1;
    }
  }

  /** More than 32 bits owed on the way to the first occurrence of n: its delta is too wide. */
  lemma {:induction false} OwedTooMuch(points: seq<nat>, n: nat, i: nat, delta: nat, s: Decoder)
    requires InStep(points, n, i, delta, s) && Marked(points, n, s) && n in points && n !in points[..i]
    requires delta > MAX_UNSIGNED
    ensures Wide(points)
  {
    var p := FirstPlace(points, n, i);
    OwedIsFirst(points, n, i, p, delta, s);
    assert !Fits(points, n);
  }

  lemma {:induction false} FirstBefore(points: seq<nat>, n: nat, i: nat, p: nat)
    requires i <= |points| && p < |points| && points[p] == n
    ensures n in points[..i] || i <= p
  {
    if p < i { assert points[..i][p] == n; }
  }

  /** At most 32 bits owed at the first occurrence of n: its delta fits. */
  lemma {:induction false} OwedFits(points: seq<nat>, n: nat, i: nat, delta: nat, s: Decoder)
    requires InStep(points, n, i, delta, s) && Marked(points, n, s)
    requires i < |points| && points[i] == n && n !in points[..i] && delta <= MAX_UNSIGNED
    ensures Fits(points, n)
  {
    forall p | 0 <= p < |points| && points[p] == n && n !in points[..p] ensures FirstDelta(points, p) <= MAX_UNSIGNED {
      FirstBefore(points, n, i, p);
      FirstBefore(points, n, p, i);
      OwedIsFirst(points, n, i, p, delta, s);
    }
  }

  /** Behind an occurrence of n only code points are counted. */
  lemma {:induction false} OwedBehind(points: seq<nat>, n: nat, i: nat, delta: nat, s: Decoder)
    requires InStep(points, n, i, delta, s) && s.n == n
    ensures delta <= |points|
  {
    HandledAll(points[..i], n, i);
  }

  lemma {:induction false} HandledBelow(points: seq<nat>, n: nat)
    ensures forall c | c in Handled(points, n, 0) :: c < n
  {
    if |points| > 0 { HandledBelow(points[..|points| - 1], n); }
  }

  lemma {:induction false} AllHandled(points: seq<nat>, n: nat)
    requires forall k :: 0 <= k < |points| ==> points[k] < n
    ensures Handled(points, n, 0) == points
  {
    if |points| > 0 { AllHandled(points[..|points| - 1], n); }
  }

  /** There are labels that are too wide: any 4000 ASCII code points and the last code point of all. */
  lemma {:induction false} WideLabel(ascii: seq<nat>)
    requires |ascii| == 4000 && forall k :: 0 <= k < |ascii| ==> ascii[k] < 128
    ensures Wide(ascii + [0x10_FFFF])
  {
    var n, points := 0x10_FFFF, ascii + [0x10_FFFF];
    assert points[4000] == n && points[..4000] == ascii;
    AllHandled(ascii, n);
    assert n !in ascii && n in points;
    assert LastBelow(points, n).None?;
    assert |Handled(points, n, 0)| == 4000;
    assert FirstDelta(points, 4000) >= (n - 128) * 4001;
    assert !Fits(points, n);
  }

  /** Only a long label is too wide. */
  lemma {:induction false} WideIsLong(points: seq<nat>)
    requires Wide(points) && forall c | c in points :: c < 0x11_0000
    ensures 0x11_0000 * (|points| + 1) > MAX_UNSIGNED
  {
    var n :| n in points && n >= 128 && !Fits(points, n);
    var p :| 0 <= p < |points| && points[p] == n && n !in points[..p] && FirstDelta(points, p) > MAX_UNSIGNED;
    FirstDeltaBound(points, p);
  }

  lemma {:induction false} FirstDeltaBound(points: seq<nat>, p: nat)
    requires p < |points| && 128 <= points[p] < 0x11_0000
    ensures FirstDelta(points, p) <= 0x11_0000 * (|points| + 1)
  {
    var n := points[p];
    var len, b := |Handled(points, n, 0)| + 1, Before(points, n, p);
    HandledAll(points, n, 0);
    HandledAll(points[..p], n, p);
    LongSum(n - Mark(points, n).0, len, b, |points|);
  }

  lemma {:induction false} LongSum(a: nat, len: nat, b: nat, size: nat)
    requires a < 0x11_0000 && len <= size + 1 && b <= size
    ensures a * len + b <= 0x11_0000 * (size + 1)
  {
    assert a * len <= 0x10_FFFF * len;
  }

  // ---- The encoder ----

  /** What malformed text decodes to. */
  const INVALID: nat := 0xFFFF_FFFF
  const MAX_UNSIGNED: nat := 0xFFFF_FFFF

  datatype Rc = Ascii(count: nat) | Encoded | Malformed | TooBig

  /** What a buffer held before, and where the text is to start. */
  datatype Buffer = Buffer(was: seq<Byte>, start: nat)

  /** Behind what was there before, the buffer holds the text, or as much of it as fits. */
  ghost predicate Holds(d: array<Byte>, before: Buffer, pos: nat, text: seq<Byte>)
    reads d
  {
    before.start <= pos <= d.Length == |before.was| && pos - before.start <= |text| &&
    d[..pos] == before.was[..before.start] + text[..pos - before.start] && d[pos..] == before.was[pos..] &&
    (pos - before.start < |text| ==> pos == d.Length)
  }

  /** Writes a byte if there is room. */
  method Put(d: array<Byte>, pos: nat, c: Byte, ghost before: Buffer, ghost text: seq<Byte>) returns (pos': nat)
    requires Holds(d, before, pos, text)
    modifies d
    ensures Holds(d, before, pos', text + [c])
  {
    pos' := pos;
    if pos' < d.Length {
      d[pos'] := c;
      pos' := pos' + 1;
    }
  }

  method PutAll(d: array<Byte>, pos: nat, bytes: seq<Byte>, ghost before: Buffer, ghost text: seq<Byte>)
    returns (pos': nat)
    requires Holds(d, before, pos, text)
    modifies d
    ensures Holds(d, before, pos', text + bytes)
  {
    pos' := pos;
    assert text + [] == text;
    for i := 0 to |bytes|
      invariant Holds(d, before, pos', text + bytes[..i])
    {
      pos' := Put(d, pos', bytes[i], before, text + bytes[..i]);
      assert text + bytes[..i] + [bytes[i]] == text + bytes[..i + 1];
    }
    assert bytes[..|bytes|] == bytes;
  }

  /** One digit of a variable-length integer. */
  method NextDigit(q: nat, k: nat, bias: nat) returns (more: bool, digit: nat, rest: nat)
    ensures more <==> q >= Threshold(k, bias)
    ensures more ==> digit == LowDigit(q, Threshold(k, bias)) && rest == HighPart(q, Threshold(k, bias))
    ensures !more ==> digit == q < 36
  {
    var t: nat := 1;
    if k > bias {
      t := k - bias;
    }
    if t > TMAX {
      t := TMAX;
    }
    if q < t {
      return false, q, 0;
    }
    more, digit, rest := true, LowDigit(q, t), HighPart(q, t);
  }

  lemma {:induction false} EncodeStep(q: nat, k: nat, bias: nat, digits: seq<Byte>, text: seq<Byte>)
    requires q >= Threshold(k, bias)
    ensures var t := Threshold(k, bias);
      digits + EncodeInteger(q, k, bias) == digits + [Digit(LowDigit(q, t))] +
        EncodeInteger(HighPart(q, t), k + 36, bias)
    ensures text + digits + [Digit(LowDigit(q, Threshold(k, bias)))] == text +
      (digits + [Digit(LowDigit(q, Threshold(k, bias)))])
  {
  }

  /** Writes delta as a variable-length integer. */
  method PutInteger(d: array<Byte>, pos: nat, delta: nat, bias: nat, ghost before: Buffer, ghost text: seq<Byte>)
    returns (pos': nat)
    requires Holds(d, before, pos, text)
    modifies d
    ensures Holds(d, before, pos', text + EncodeInteger(delta, 36, bias))
  {
    pos' := pos;
    ghost var digits := [];
    var k: nat, q: nat := BASE, delta;
    assert text + digits == text;
    while true
      invariant Holds(d, before, pos', text + digits)
      invariant digits + EncodeInteger(q, k, bias) == EncodeInteger(delta, 36, bias)
      decreases q
    {
      var more, digit, rest := NextDigit(q, k, bias);
      if !more {
        break;
      }
      EncodeStep(q, k, bias, digits, text);
      pos' := Put(d, pos', Digit(digit), before, text + digits);
      digits := digits + [Digit(digit)];
      q := rest;
      k := k + BASE;
    }
    pos' := Put(d, pos', Digit(q), before, text + digits);
    assert text + digits + [Digit(q)] == text + (digits + [Digit(q)]);
  }

  /** The bias for the next delta; h counts the code points handled, the current one included. */
  method NextBias(delta0: nat, h: nat, first: bool) returns (bias: nat)
    requires h > 0
    ensures bias == Adapt(delta0, h, first)
  {
    var delta: nat := delta0 / 2;
    if first {
      delta := delta / 350;
      assert delta == delta0 / 700;
    }
    delta := delta + Quotient(delta, h);
    bias := 0;
    while delta > 35 * 26 / 2
      invariant Settle(delta, bias) == Adapt(delta0, h, first)
      decreases delta
    {
      delta := delta / 35;
      bias := bias + 36;
    }
    bias := bias + Quotient(36 * delta, delta + 38);
  }

  /** The least value at or above n. */
  method LeastFrom(points: seq<nat>, n: nat) returns (m: nat)
    requires (exists c :: c in points && c >= n) && forall c | c in points :: c < INVALID
    ensures m in points && n <= m && forall c | c in points :: c < n || c >= m
  {
    m := MAX_UNSIGNED;
    for i := 0 to |points|
      invariant forall c | c in points[..i] :: c < n || c >= m
      invariant m == MAX_UNSIGNED || (m in points && n <= m)
    {
      assert points[..i + 1] == points[..i] + [points[i]];
      if points[i] >= n {
        if points[i] < m {
          m := points[i];
        }
      }
    }
    assert points[..|points|] == points;
  }

  lemma {:induction false} NoHyphen(q: nat, k: nat, bias: nat)
    ensures HYPHEN !in EncodeInteger(q, k, bias)
  {
    var t := Threshold(k, bias);
    if q >= t { NoHyphen(HighPart(q, t), k + 36, bias); }
  }

  /** The state of the encoder between two code points. */
  ghost predicate Encoding(points: seq<nat>, start: Decoder, n: nat, p: nat, delta: nat, h: nat, bias: nat, first: bool,
                           digits: seq<Byte>, s: Decoder) {
    InStep(points, n, p, delta, s) && Reads(digits, start, s) && HYPHEN !in digits &&
    h == |s.output| && bias == s.bias && (first <==> s.i == 0)
  }

  lemma {:induction false} EncodeOne(points: seq<nat>, start: Decoder, n: nat, p: nat, delta: nat, h: nat, bias: nat,
                                     first: bool, digits: seq<Byte>, s: Decoder)
    requires Encoding(points, start, n, p, delta, h, bias, first, digits, s) && p < |points| && points[p] == n
    ensures Encoding(points, start, n, p + 1, 0, h + 1, Adapt(delta, h + 1, first), false,
      digits + EncodeInteger(delta, 36, bias), Advance(s, delta))
    ensures Advance(s, delta).n == n
  {
    InsertInStep(points, n, p, delta, s);
    ReadsMore(digits, start, s, delta);
    NoHyphen(delta, 36, bias);
  }

  /** Writes the delta that inserts the code point at p. */
  method PutPoint(points: seq<nat>, ghost n: nat, ghost p: nat, d: array<Byte>, pos: nat, delta: nat, h: nat, bias: nat,
                  first: bool, ghost before: Buffer, ghost text: seq<Byte>, ghost start: Decoder,
                  ghost digits: seq<Byte>, ghost s: Decoder)
    returns (pos': nat, h': nat, bias': nat, ghost digits': seq<Byte>, ghost s': Decoder)
    requires Encoding(points, start, n, p, delta, h, bias, first, digits, s) && p < |points| && points[p] == n
    requires Holds(d, before, pos, text + digits)
    modifies d
    ensures Encoding(points, start, n, p + 1, 0, h', bias', false, digits', s') && h' == h + 1 && s'.n == n
    ensures Holds(d, before, pos', text + digits')
  {
    EncodeOne(points, start, n, p, delta, h, bias, first, digits, s);
    pos' := PutInteger(d, pos, delta, bias, before, text + digits);
    assert text + digits + EncodeInteger(delta, 36, bias) == text + (digits + EncodeInteger(delta, 36, bias));
    digits', s' := digits + EncodeInteger(delta, 36, bias), Advance(s, delta);
    h' := h + 1;
    bias' := NextBias(delta, h', first);
  }

  /** A code point below n cannot be counted any more: no occurrence of n has been handled yet. */
  lemma {:induction false} Overflows(points: seq<nat>, n: nat, i: nat, s: Decoder)
    requires InStep(points, n, i, MAX_UNSIGNED, s) && i < |points| && points[i] < n && n in points
    requires |points| < MAX_UNSIGNED && (n !in points[..i] ==> Marked(points, n, s)) && (n in points[..i] ==> s.n == n)
    ensures Wide(points)
  {
    if n in points[..i] {
      OwedBehind(points, n, i, MAX_UNSIGNED, s);
    }
    PassInStep(points, n, i, MAX_UNSIGNED, s);
    assert points[..i + 1] == points[..i] + [points[i]];
    OwedTooMuch(points, n, i + 1, MAX_UNSIGNED + 1, s);
  }

  /** The decoder is behind the insertion of the code point at position k. */
  predicate At(points: seq<nat>, n: nat, k: nat, s: Decoder)
    requires k <= |points|
  {
    s.n == n && s.i == Before(points, n, k) + 1
  }

  lemma {:induction false} InsertedAt(points: seq<nat>, n: nat, i: nat, s: Decoder)
    requires i < |points| && points[i] == n && InStep(points, n, i + 1, 0, s) && s.n == n
    ensures At(points, n, i, s)
  {
    BeforeNext(points, n, i);
  }

  /** Before position i of a round: nothing has happened yet, or the code point at last was handled last. */
  ghost predicate InRound(points: seq<nat>, n: nat, i: nat, last: nat, s0: Decoder, s: Decoder)
    requires i <= |points|
  {
    (n !in points[..i] ==> s == s0) &&
    (n in points[..i] ==>
      Fits(points, n) && last < i && points[last] == n && n !in points[last + 1..i] && At(points, n, last, s))
  }

  lemma {:induction false} RoundPasses(points: seq<nat>, n: nat, i: nat, last: nat, s0: Decoder, s: Decoder)
    requires i < |points| && InRound(points, n, i, last, s0, s) && points[i] != n
    ensures InRound(points, n, i + 1, last, s0, s)
  {
    assert points[..i + 1] == points[..i] + [points[i]];
    if n in points[..i] {
      assert points[last + 1..i + 1] == points[last + 1..i] + [points[i]];
    }
  }

  lemma {:induction false} PointFits(points: seq<nat>, n: nat, i: nat, delta: nat, last: nat, s0: Decoder, s: Decoder)
    requires i < |points| && InRound(points, n, i, last, s0, s) && points[i] == n && Marked(points, n, s0)
    requires InStep(points, n, i, delta, s) && delta <= MAX_UNSIGNED
    ensures Fits(points, n)
  {
    if n !in points[..i] {
      assert s == s0;
      OwedFits(points, n, i, delta, s);
    }
  }

  lemma {:induction false} RoundPoint(points: seq<nat>, n: nat, i: nat, s0: Decoder, s: Decoder)
    requires i < |points| && points[i] == n && Fits(points, n) && At(points, n, i, s)
    ensures InRound(points, n, i + 1, i, s0, s)
  {
    assert points[i + 1..i + 1] == [];
    assert points[..i + 1][i] == n;
  }

  lemma {:induction false} RoundMarks(points: seq<nat>, n: nat, last: nat, s0: Decoder, s: Decoder)
    requires InRound(points, n, |points|, last, s0, s) && n in points && n >= 128
    ensures Fits(points, n) && Marked(points, n + 1, s)
  {
    assert points[..|points|] == points && points[last + 1..|points|] == points[last + 1..];
    MarkMoves(points, n, last, s);
  }

  /** One round: handles every occurrence of n. */
  method Round(points: seq<nat>, n: nat, d: array<Byte>, pos0: nat, delta0: nat, h0: nat, bias0: nat, first0: bool,
               ghost before: Buffer, ghost text: seq<Byte>, ghost start: Decoder, ghost digits0: seq<Byte>,
               ghost s0: Decoder)
    returns (overflow: bool, pos: nat, delta: nat, h: nat, bias: nat, first: bool, ghost digits: seq<Byte>,
      ghost s: Decoder)
    requires Encoding(points, start, n, 0, delta0, h0, bias0, first0, digits0, s0) &&
      Holds(d, before, pos0, text + digits0)
    requires delta0 <= MAX_UNSIGNED && n in points && |points| < MAX_UNSIGNED && Marked(points, n, s0)
    modifies d
    ensures Holds(d, before, pos, text + digits) && delta <= MAX_UNSIGNED
    ensures !overflow ==> Encoding(points, start, n, |points|, delta, h, bias, first, digits, s) && h > h0 && s.n == n
    ensures !overflow ==> Fits(points, n) && Marked(points, n + 1, s)
    ensures overflow ==> Wide(points)
  {
    overflow, pos, delta, h, bias, first, digits, s := false, pos0, delta0, h0, bias0, first0, digits0, s0;
    ghost var last := 0;
    for i := 0 to |points|
      invariant Encoding(points, start, n, i, delta, h, bias, first, digits, s) && delta <= MAX_UNSIGNED
      invariant Holds(d, before, pos, text + digits)
      invariant h >= h0 && (n in points[..i] ==> h > h0) && InRound(points, n, i, last, s0, s)
    {
      var c := points[i];
      assert points[..i + 1] == points[..i] + [c];
      if c != n {
        PassInStep(points, n, i, delta, s);
        RoundPasses(points, n, i, last, s0, s);
      }
      if c < n {
        if delta == MAX_UNSIGNED {
          Overflows(points, n, i, s);
          return true, pos, delta, h, bias, first, digits, s;
        }
        delta := delta + 1;
      }
      if c == n {
        ghost var was, owed := s, delta;
        pos, h, bias, digits, s :=
          PutPoint(points, n, i, d, pos, delta, h, bias, first, before, text, start, digits, s);
        PointFits(points, n, i, owed, last, s0, was);
        InsertedAt(points, n, i, s);
        RoundPoint(points, n, i, s0, s);
        last := i;
        first := false;
        delta := 0;
      }
    }
    assert points[..|points|] == points;
    RoundMarks(points, n, last, s0, s);
  }

  // ---- One label ----

  /** A label as the UTF-8 reader delivers it. */
  ghost predicate Readable(points: seq<nat>) {
    |points| < MAX_UNSIGNED && forall c | c in points :: c < 0x11_0000 || c == INVALID
  }

  /** How many ASCII code points there are, and how many others; none if the text is malformed. */
  method CountAscii(points: seq<nat>) returns (h: nat, todo: nat, malformed: bool)
    ensures malformed <==> INVALID in points
    ensures !malformed ==> h == |Handled(points, 128, 0)| && h + todo == |points|
  {
    h, todo, malformed := 0, 0, false;
    for i := 0 to |points|
      invariant INVALID !in points[..i] && h == |Handled(points[..i], 128, 0)| && h + todo == i
    {
      var c := points[i];
      assert points[..i + 1] == points[..i] + [c] && points[..i + 1][..i] == points[..i];
      if c < 128 {
        h := h + 1;
      } else if c == INVALID {
        return h, todo, true;
      } else {
        todo := todo + 1;
      }
    }
    assert points[..|points|] == points;
  }

  lemma {:induction false} AsciiStep(points: seq<nat>, i: nat)
    requires i < |points|
    ensures Handled(points[..i + 1], 128, 0) ==
      Handled(points[..i], 128, 0) + if points[i] < 128 then [points[i]] else []
  {
    assert points[..i + 1][..i] == points[..i];
  }

  lemma {:induction false} CodePointsSnoc(bytes: seq<Byte>, b: Byte)
    ensures CodePoints(bytes + [b]) == CodePoints(bytes) + [b as nat]
  {
  }

  /** Copies the ASCII code points, and stops after the last one. */
  method PutAscii(points: seq<nat>, h: nat, d: array<Byte>, pos0: nat, ghost before: Buffer, ghost text: seq<Byte>)
    returns (pos: nat, ghost ascii: seq<Byte>)
    requires Holds(d, before, pos0, text) && h == |Handled(points, 128, 0)|
    modifies d
    ensures Holds(d, before, pos, text + ascii) && CodePoints(ascii) == Handled(points, 128, 0) && |ascii| == h
  {
    pos, ascii := pos0, [];
    var x := 0;
    assert text + ascii == text;
    for i := 0 to |points|
      invariant CodePoints(ascii) == Handled(points[..i], 128, 0) && x == |ascii|
      invariant Holds(d, before, pos, text + ascii)
    {
      var c := points[i];
      AsciiStep(points, i);
      if c > 127 {
        continue;
      }
      pos := Put(d, pos, c as Byte, before, text + ascii);
      Regroup(text, ascii, [c as Byte]);
      CodePointsSnoc(ascii, c as Byte);
      ascii := ascii + [c as Byte];
      x := x + 1;
      if x == h {
        AsciiComplete(points, i + 1);
        return;
      }
    }
    assert points[..|points|] == points;
  }

  lemma {:induction false} HandledGrows(points: seq<nat>, n: nat, p: nat, k: nat, q: nat)
    requires k <= q <= |points|
    ensures Handled(points[..k], n, p) <= Handled(points[..q], n, p)
  {
    if k < q {
      HandledGrows(points, n, p, k, q - 1);
      assert points[..q][..q - 1] == points[..q - 1];
    }
  }

  lemma {:induction false} AsciiComplete(points: seq<nat>, k: nat)
    requires k <= |points| && |Handled(points[..k], 128, 0)| == |Handled(points, 128, 0)|
    ensures Handled(points[..k], 128, 0) == Handled(points, 128, 0)
  {
    HandledGrows(points, 128, 0, k, |points|);
    assert points[..|points|] == points;
  }

  const PREFIX: seq<Byte> := [120, 110, 45, 45]

  lemma {:induction false} LastHyphenIs(ascii: seq<Byte>, digits: seq<Byte>)
    requires HYPHEN !in digits
    ensures LastHyphen(digits) == None
    ensures LastHyphen(ascii + [HYPHEN] + digits) == Some(|ascii|)
  {
    var text := ascii + [HYPHEN] + digits;
    if |digits| > 0 {
      var m := |digits| - 1;
      LastHyphenIs(ascii, digits[..m]);
      assert text[..|text| - 1] == ascii + [HYPHEN] + digits[..m];
    } else {
      assert text == ascii + [HYPHEN];
    }
  }

  /** The text behind the prefix: the ASCII code points, a hyphen if there are any, and the deltas. */
  function Coded(ascii: seq<Byte>, digits: seq<Byte>): seq<Byte> {
    (if |ascii| > 0 then ascii + [HYPHEN] else []) + digits
  }

  /** The decoder takes off the ASCII code points, and goes on with the digits. */
  lemma {:induction false} CodedStarts(ascii: seq<Byte>, digits: seq<Byte>)
    requires HYPHEN !in digits && forall c | c in ascii :: c < 128
    ensures Decode(Coded(ascii, digits)) == DecodeRest(digits, Decoder(128, 0, 72, CodePoints(ascii)))
  {
    LastHyphenIs(ascii, digits);
    var text := Coded(ascii, digits);
    if |ascii| > 0 {
      assert text[..|ascii|] == ascii && text[|ascii| + 1..] == digits;
    } else {
      assert text == digits && CodePoints(ascii) == [];
    }
  }

  lemma {:induction false} AsciiBelow(points: seq<nat>, ascii: seq<Byte>)
    requires CodePoints(ascii) == Handled(points, 128, 0)
    ensures forall c | c in ascii :: c < 128
  {
    HandledBelow(points, 128);
    forall c | c in ascii ensures c < 128 {
      var i :| 0 <= i < |ascii| && ascii[i] == c;
      assert CodePoints(ascii)[i] in Handled(points, 128, 0);
    }
  }

  /** When everything is handled, decoding what was written gives back the label. */
  lemma {:induction false} CodedDecodes(points: seq<nat>, ascii: seq<Byte>, digits: seq<Byte>, n: nat, p: nat,
                                        delta: nat, s: Decoder)
    requires CodePoints(ascii) == Handled(points, 128, 0) && HYPHEN !in digits
    requires Reads(digits, Decoder(128, 0, 72, Handled(points, 128, 0)), s) && InStep(points, n, p, delta, s)
    requires |s.output| == |points|
    ensures Decode(Coded(ascii, digits)) == Some(points)
  {
    var start := Decoder(128, 0, 72, Handled(points, 128, 0));
    HandledAll(points, n, p);
    assert digits + [] == digits;
    assert DecodeRest(digits + [], start) == DecodeRest([], s);
    AsciiBelow(points, ascii);
    CodedStarts(ascii, digits);
  }

  lemma {:induction false} EncodingStarts(points: seq<nat>)
    ensures var start := Decoder(128, 0, 72, Handled(points, 128, 0));
      Encoding(points, start, 128, 0, 0, |start.output|, 72, true, [], start)
  {
    var start := Decoder(128, 0, 72, Handled(points, 128, 0));
    assert points[..0] == [];
    forall more: seq<Byte> ensures DecodeRest([] + more, start) == DecodeRest(more, start) {
      assert [] + more == more;
    }
  }

  /** The check before the multiplication refuses exactly the products that would overflow. */
  lemma {:induction false} OverflowCheck(delta: nat, x: nat, y: nat)
    requires delta <= MAX_UNSIGNED && y > 0
    ensures x > (MAX_UNSIGNED - delta) / y <==> delta + x * y > MAX_UNSIGNED
  {
    var room := MAX_UNSIGNED - delta;
    assert room == y * (room / y) + room % y;
    var gap := x - room / y;
    assert y * gap == x * y - y * (room / y);
    Multiples(y, gap);
  }

  /** Where delta gets to when x values are skipped. */
  function Skipped(delta: nat, x: nat, h: nat): nat { delta + x * (h + 1) }

  lemma {:induction false} SkipInStep(points: seq<nat>, n: nat, x: nat, delta: nat, h: nat, s: Decoder)
    requires InStep(points, n, 0, delta, s) && h == |s.output|
    requires forall c | c in points :: c < n || c >= n + x
    ensures InStep(points, n + x, 0, Skipped(delta, x, h), s)
  {
    JumpInStep(points, n, n + x, delta, s);
  }

  lemma {:induction false} SkipTooMuch(points: seq<nat>, m: nat, delta: nat, s: Decoder)
    requires InStep(points, m, 0, delta, s) && Marked(points, m, s) && m in points && delta > MAX_UNSIGNED
    ensures Wide(points)
  {
    assert points[..0] == [];
    OwedTooMuch(points, m, 0, delta, s);
  }

  /** Adds the steps to the next value, unless they overflow. */
  method Skip(delta: nat, x: nat, h: nat) returns (overflow: bool, delta': nat)
    requires delta <= MAX_UNSIGNED
    ensures overflow <==> Skipped(delta, x, h) > MAX_UNSIGNED
    ensures !overflow ==> delta' == Skipped(delta, x, h)
  {
    OverflowCheck(delta, x, h + 1);
    overflow := x > (MAX_UNSIGNED - delta) / (h + 1);
    delta' := delta;
    if !overflow {
      delta' := delta + x * (h + 1);
    }
  }

  ghost predicate FitsBelow(points: seq<nat>, n: nat) {
    forall c {:trigger Fits(points, c)} :: c in points && 128 <= c < n ==> Fits(points, c)
  }

  /** The state of the encoder between two rounds. */
  ghost predicate Between(points: seq<nat>, start: Decoder, n: nat, delta: nat, h: nat, bias: nat, first: bool,
                          digits: seq<Byte>, s: Decoder) {
    Encoding(points, start, n, 0, delta, h, bias, first, digits, s) && delta <= MAX_UNSIGNED &&
    Marked(points, n, s) && FitsBelow(points, n)
  }

  /** Goes to the next value that occurs, and counts the steps the decoder takes to get there. */
  method NextValue(points: seq<nat>, ghost start: Decoder, n: nat, delta: nat, h: nat, ghost bias: nat,
                   ghost first: bool, ghost digits: seq<Byte>, ghost s: Decoder)
    returns (overflow: bool, m: nat, delta': nat)
    requires Readable(points) && INVALID !in points && Between(points, start, n, delta, h, bias, first, digits, s)
    requires h < |points|
    ensures m in points && n <= m && Marked(points, m, s) && forall c | c in points :: c < n || c >= m
    ensures !overflow ==> delta' <= MAX_UNSIGNED && Encoding(points, start, m, 0, delta', h, bias, first, digits, s)
    ensures overflow ==> Wide(points)
  {
    Remaining(points, n, h, s, delta);
    m := LeastFrom(points, n);
    MarkSkips(points, n, m);
    SkipInStep(points, n, m - n, delta, h, s);
    overflow, delta' := Skip(delta, m - n, h);
    if overflow {
      SkipTooMuch(points, m, Skipped(delta, m - n, h), s);
    }
  }

  lemma {:induction false} Remaining(points: seq<nat>, n: nat, h: nat, s: Decoder, delta: nat)
    requires Readable(points) && INVALID !in points && InStep(points, n, 0, delta, s) && h == |s.output| < |points|
    ensures exists c :: c in points && c >= n
    ensures forall c | c in points :: c < INVALID
  {
    HandledAll(points, n, 0);
  }

  lemma {:induction false} AllFit(points: seq<nat>, n: nat)
    requires FitsBelow(points, n) && |Handled(points, n, 0)| == |points|
    ensures !Wide(points)
  {
    HandledAll(points, n, 0);
    HandledBelow(points, n);
  }

  /** What a round leaves in delta only counts the code points behind the last one handled. */
  lemma {:induction false} RoundLeaves(points: seq<nat>, n: nat, delta: nat, s: Decoder)
    requires InStep(points, n, |points|, delta, s) && s.n == n
    ensures delta <= |points| && |s.output| <= |points|
  {
    HandledAll(points[..|points|], n, |points|);
    HandledAll(points, n, |points|);
  }

  lemma {:induction false} AfterRound(points: seq<nat>, start: Decoder, was: nat, n: nat, delta: nat, h: nat, bias: nat,
                                      first: bool, digits: seq<Byte>, s: Decoder)
    requires Encoding(points, start, n, |points|, delta, h, bias, first, digits, s) && s.n == n
    requires Readable(points) && Marked(points, n + 1, s) && FitsBelow(points, was) && Fits(points, n)
    requires was <= n && forall c | c in points :: c < was || c >= n
    ensures Between(points, start, n + 1, delta + 1, h, bias, first, digits, s) && h <= |points|
  {
    RoundLeaves(points, n, delta, s);
    EndOfRound(points, n, delta, s);
  }

  /** A round, and the step to the next value. */
  method Finish(points: seq<nat>, ghost was: nat, n: nat, d: array<Byte>, pos0: nat, delta0: nat, h0: nat, bias0: nat,
                first0: bool, ghost before: Buffer, ghost text: seq<Byte>, ghost start: Decoder,
                ghost digits0: seq<Byte>, ghost s0: Decoder)
    returns (overflow: bool, pos: nat, delta: nat, h: nat, bias: nat, first: bool, ghost digits: seq<Byte>,
             ghost s: Decoder)
    requires Encoding(points, start, n, 0, delta0, h0, bias0, first0, digits0, s0) &&
      Holds(d, before, pos0, text + digits0)
    requires delta0 <= MAX_UNSIGNED && n in points && Readable(points) && Marked(points, n, s0)
    requires FitsBelow(points, was) && was <= n && forall c | c in points :: c < was || c >= n
    modifies d
    ensures Holds(d, before, pos, text + digits)
    ensures !overflow ==> Between(points, start, n + 1, delta, h, bias, first, digits, s) && h0 < h <= |points|
    ensures overflow ==> Wide(points)
  {
    overflow, pos, delta, h, bias, first, digits, s :=
      Round(points, n, d, pos0, delta0, h0, bias0, first0, before, text, start, digits0, s0);
    if !overflow {
      AfterRound(points, start, was, n, delta, h, bias, first, digits, s);
      delta := delta + 1;
    }
  }

  /** From one round to the next. */
  method Pass(points: seq<nat>, n0: nat, d: array<Byte>, pos0: nat, delta0: nat, h0: nat, bias0: nat, first0: bool,
              ghost before: Buffer, ghost text: seq<Byte>, ghost start: Decoder, ghost digits0: seq<Byte>,
              ghost s0: Decoder)
    returns (overflow: bool, n: nat, pos: nat, delta: nat, h: nat, bias: nat, first: bool, ghost digits: seq<Byte>,
             ghost s: Decoder)
    requires Between(points, start, n0, delta0, h0, bias0, first0, digits0, s0) && h0 < |points|
    requires Readable(points) && INVALID !in points && Holds(d, before, pos0, text + digits0)
    modifies d
    ensures Holds(d, before, pos, text + digits)
    ensures !overflow ==> Between(points, start, n, delta, h, bias, first, digits, s) && h0 < h <= |points|
    ensures overflow ==> Wide(points)
  {
    pos, h, bias, first, digits, s := pos0, h0, bias0, first0, digits0, s0;
    overflow, n, delta := NextValue(points, start, n0, delta0, h0, bias0, first0, digits0, s0);
    if !overflow {
      overflow, pos, delta, h, bias, first, digits, s :=
        Finish(points, n0, n, d, pos, delta, h, bias, first, before, text, start, digits, s);
      n := n + 1;
    }
  }

  lemma {:induction false} BetweenStarts(points: seq<nat>)
    ensures var start := Decoder(128, 0, 72, Handled(points, 128, 0));
      Between(points, start, 128, 0, |start.output|, 72, true, [], start)
  {
    EncodingStarts(points);
    assert LastBelow(points, 128).None?;
  }

  lemma {:induction false} BetweenEnds(points: seq<nat>, ascii: seq<Byte>, n: nat, delta: nat, h: nat, bias: nat,
                                       first: bool, digits: seq<Byte>, s: Decoder)
    requires Between(points, Decoder(128, 0, 72, Handled(points, 128, 0)), n, delta, h, bias, first, digits, s)
    requires h == |points| && CodePoints(ascii) == Handled(points, 128, 0)
    ensures Decode(Coded(ascii, digits)) == Some(points) && !Wide(points)
  {
    CodedDecodes(points, ascii, digits, n, 0, delta, s);
    AllFit(points, n);
  }

  /** Writes the deltas of all code points that are not ASCII, in increasing order of value. */
  method PutDeltas(points: seq<nat>, h0: nat, todo0: nat, d: array<Byte>, pos0: nat,
                   ghost before: Buffer, ghost text: seq<Byte>, ghost ascii: seq<Byte>)
    returns (rc: Rc, pos: nat, ghost digits: seq<Byte>)
    requires Readable(points) && INVALID !in points && h0 == |Handled(points, 128, 0)| && h0 + todo0 == |points|
    requires Holds(d, before, pos0, text) && CodePoints(ascii) == Handled(points, 128, 0)
    modifies d
    ensures Holds(d, before, pos, text + digits) && (rc.Encoded? || rc.TooBig?)
    ensures rc.Encoded? ==> Decode(Coded(ascii, digits)) == Some(points)
    ensures rc.TooBig? <==> Wide(points)
  {
    ghost var start := Decoder(128, 0, 72, Handled(points, 128, 0));
    var n: nat, delta: nat, h: nat, bias: nat, todo: nat := INITIAL_N, 0, h0, INITIAL_BIAS, todo0;
    var first := true;
    ghost var s := start;
    pos, digits := pos0, [];
    BetweenStarts(points);
    assert text + digits == text;
    while todo > 0
      invariant Between(points, start, n, delta, h, bias, first, digits, s) && h + todo == |points|
      invariant Holds(d, before, pos, text + digits)
      decreases todo
    {
      var overflow;
      overflow, n, pos, delta, h, bias, first, digits, s :=
        Pass(points, n, d, pos, delta, h, bias, first, before, text, start, digits, s);
      if overflow {
        return TooBig, pos, digits;
      }
      todo := |points| - h;
    }
    BetweenEnds(points, ascii, n, delta, h, bias, first, digits, s);
    rc := Encoded;
  }

  lemma {:induction false} CodedJoins(text: seq<Byte>, ascii: seq<Byte>, digits: seq<Byte>)
    ensures text + Coded(ascii, []) == if |ascii| > 0 then text + ascii + [HYPHEN] else text + ascii
    ensures text + Coded(ascii, []) + digits == text + Coded(ascii, digits)
  {
  }

  /** The ASCII code points, and a hyphen if there are any. */
  method PutHead(points: seq<nat>, h: nat, d: array<Byte>, pos0: nat, ghost before: Buffer, ghost text: seq<Byte>)
    returns (pos: nat, ghost ascii: seq<Byte>)
    requires h == |Handled(points, 128, 0)| && Holds(d, before, pos0, text)
    modifies d
    ensures Holds(d, before, pos, text + Coded(ascii, [])) && CodePoints(ascii) == Handled(points, 128, 0)
  {
    pos, ascii := PutAscii(points, h, d, pos0, before, text);
    CodedJoins(text, ascii, []);
    if h > 0 {
      pos := Put(d, pos, HYPHEN, before, text + ascii);
    }
  }

  /** Writes one label. A label with other code points than ASCII comes out as "xn--" and text that decodes to it;
      what does not fit into the buffer is left out. */
  method ToAsciiLabel(points: seq<nat>, d: array<Byte>, start: nat) returns (rc: Rc, pos: nat, ghost text: seq<Byte>)
    requires Readable(points) && start <= d.Length
    modifies d
    ensures rc.Malformed? <==> INVALID in points
    ensures rc.Ascii? ==> rc.count == |points| && CodePoints(text) == points && (forall c | c in points :: c < 128)
    ensures rc.Ascii? ==> Holds(d, Buffer(old(d[..]), start), pos, text)
    ensures rc.Malformed? ==> pos == start && d[..] == old(d[..])
    ensures rc.Encoded? ==> (exists c :: c in points && c >= 128) && Decode(text) == Some(points)
    ensures rc.Encoded? || rc.TooBig? ==> Holds(d, Buffer(old(d[..]), start), pos, [120, 110, 45, 45] + text)
    ensures rc.TooBig? <==> INVALID !in points && Wide(points)
  {
    ghost var before := Buffer(d[..], start);
    pos, text := start, [];
    var h, todo, malformed := CountAscii(points);
    if malformed {
      return Malformed, pos, text;
    }
    HandledAll(points, 128, 0);
    HandledBelow(points, 128);
    if todo > 0 {
      ghost var ascii, digits;
      pos := PutAll(d, start, PREFIX, before, []);
      assert [] + PREFIX == PREFIX;
      pos, ascii := PutHead(points, h, d, pos, before, PREFIX);
      rc, pos, digits := PutDeltas(points, h, todo, d, pos, before, PREFIX + Coded(ascii, []), ascii);
      CodedJoins(PREFIX, ascii, digits);
      text := Coded(ascii, digits);
    } else {
      pos, text := PutAscii(points, h, d, start, before, []);
      assert [] + text == text;
      rc := Ascii(h);
    }
  }
}
