/** The block-framed log: records cut into checksummed fragments that never cross a block boundary. */
module Log {
  import opened Format
  import opened Coding

  const BLOCK: nat := 32768
  const HEADER: nat := 7

  const FULL: Byte := 1
  const FIRST: Byte := 2
  const MIDDLE: Byte := 3
  const LAST: Byte := 4
  /** What the reader returns in place of a fragment: the end of the file, or something to skip. */
  const EOF: Byte := 5
  const BAD: Byte := 6

  /** Checksum of some data followed by more data, given the checksum of the first. */
  type Crc = (Word, seq<Byte>) -> Word

  ghost predicate Composes(crc: Crc) {
    forall w: Word, a: seq<Byte>, b: seq<Byte> :: crc(crc(w, a), b) == crc(w, a + b)
  }

  datatype Fragment = Fragment(kind: Byte, data: seq<Byte>)

  function TypeOf(begin: bool, end: bool): Byte {
    if begin && end then FULL else if begin then FIRST else if end then LAST else MIDDLE
  }

  // ---- Layout ----

  /** Too few bytes for a header are left in the block: they are filled with zeros. */
  function PadLen(p: nat): nat {
    var leftover := BLOCK - p % 32768;
    if leftover < HEADER then leftover else 0
  }

  function AfterPad(p: nat): nat { p + PadLen(p) }

  /** Room for data in the block of the next fragment. */
  function Avail(p: nat): nat { BLOCK - HEADER - AfterPad(p) % 32768 }

  /** How much of the data goes into the next fragment. */
  function TakeOf(left: seq<Byte>, p: nat): nat { if |left| < Avail(p) then |left| else Avail(p) }

  lemma {:induction false} PadFacts(p: nat)
    ensures AfterPad(p) % 32768 <= BLOCK - HEADER
    ensures Avail(p) == 0 ==> Avail(AfterPad(p) + HEADER) == BLOCK - HEADER
  {
    assert PadLen(p) > 0 ==> AfterPad(p) % 32768 == 0;
  }

  lemma {:induction false} SameOffset(a: nat, b: nat, k: nat)
    requires a % 32768 == b % 32768
    ensures (a + k) % 32768 == (b + k) % 32768
  {
    var c := a - b;
    assert c % 32768 == 0;
    assert a + k == b + k + 32768 * (c / 32768);
  }

  function FragEnd(f: Fragment, p: nat): nat { AfterPad(p) + HEADER + |f.data| }

  /** The fragments of a record that starts at a position. */
  function Split(data: seq<Byte>, begin: bool, p: nat): seq<Fragment>
    decreases |data|, Avail(p) == 0
  {
    PadFacts(p);
    var n, f := TakeOf(data, p), NextFragment(data, begin, p);
    if n == |data| then [f] else [f] + Split(data[n..], false, FragEnd(f, p))
  }

  function EndOf(frags: seq<Fragment>, p: nat): nat {
    if |frags| == 0 then p else EndOf(frags[1..], FragEnd(frags[0], p))
  }

  function Zeros(n: nat): seq<Byte> { seq(n, _ => 0) }

  function LengthBytes(n: nat): seq<Byte>
    requires n < 0x1_0000
  {
    [(n % 0x100) as Byte, (n / 0x100) as Byte]
  }

  /** Header and data of a fragment. */
  function Physical(crc: Crc, f: Fragment): seq<Byte>
    requires |f.data| < 0x1_0000
  {
    EncodeFixed32(Mask(crc(crc(0, [f.kind]), f.data))) + LengthBytes(|f.data|) + [f.kind] + f.data
  }

  /** What a fragment adds to a file of length p. */
  function Emitted(crc: Crc, f: Fragment, p: nat): (r: seq<Byte>)
    requires |f.data| < 0x1_0000
    ensures p + |r| == FragEnd(f, p)
  {
    Zeros(PadLen(p)) + Physical(crc, f)
  }

  ghost predicate Fits(f: Fragment, p: nat) {
    AfterPad(p) % 32768 + HEADER + |f.data| <= BLOCK && FULL <= f.kind <= LAST
  }

  ghost predicate AllFit(frags: seq<Fragment>, p: nat) {
    |frags| > 0 ==> Fits(frags[0], p) && AllFit(frags[1..], FragEnd(frags[0], p))
  }

  /** The bytes the fragments take from a position on. */
  ghost function Bytes(crc: Crc, frags: seq<Fragment>, p: nat): seq<Byte>
    requires AllFit(frags, p)
  {
    if |frags| == 0 then [] else
      Emitted(crc, frags[0], p) + Bytes(crc, frags[1..], FragEnd(frags[0], p))
  }

  /** The fragments of a list of records. */
  function Layout(records: seq<seq<Byte>>, p: nat): seq<Fragment> {
    if |records| == 0 then [] else
      var frags := Split(records[0], true, p);
      frags + Layout(records[1..], EndOf(frags, p))
  }

  /** The bytes of the rest of a record. */
  ghost function RecordBytes(crc: Crc, data: seq<Byte>, begin: bool, p: nat): seq<Byte> {
    SplitFits(data, begin, p);
    Bytes(crc, Split(data, begin, p), p)
  }

  function NextFragment(left: seq<Byte>, begin: bool, p: nat): Fragment {
    var n := TakeOf(left, p);
    Fragment(TypeOf(begin, n == |left|), left[..n])
  }

  /** The whole log of a list of records. */
  ghost function LogBytes(crc: Crc, records: seq<seq<Byte>>): seq<Byte> {
    LayoutFits(records, 0);
    Bytes(crc, Layout(records, 0), 0)
  }

  // ---- Facts about the layout ----

  lemma {:induction false} SplitFits(data: seq<Byte>, begin: bool, p: nat)
    ensures AllFit(Split(data, begin, p), p) && |Split(data, begin, p)| > 0
    decreases |data|, Avail(p) == 0
  {
    PadFacts(p);
    var n, f := TakeOf(data, p), NextFragment(data, begin, p);
    if n < |data| {
      SplitFits(data[n..], false, FragEnd(f, p));
      assert Split(data, begin, p)[1..] == Split(data[n..], false, FragEnd(f, p));
    }
  }

  lemma {:induction false} FitAppend(a: seq<Fragment>, b: seq<Fragment>, p: nat)
    requires AllFit(a, p) && AllFit(b, EndOf(a, p))
    ensures AllFit(a + b, p)
  {
    if |a| == 0 {
      assert a + b == b;
    } else {
      FitAppend(a[1..], b, FragEnd(a[0], p));
      assert (a + b)[1..] == a[1..] + b;
    }
  }

  lemma {:induction false} LayoutFits(records: seq<seq<Byte>>, p: nat)
    ensures AllFit(Layout(records, p), p)
  {
    if |records| > 0 {
      var frags := Split(records[0], true, p);
      SplitFits(records[0], true, p);
      LayoutFits(records[1..], EndOf(frags, p));
      FitAppend(frags, Layout(records[1..], EndOf(frags, p)), p);
    }
  }

  lemma {:induction false} BytesAppend(crc: Crc, a: seq<Fragment>, b: seq<Fragment>, p: nat)
    requires AllFit(a, p) && AllFit(b, EndOf(a, p)) && AllFit(a + b, p)
    ensures Bytes(crc, a + b, p) == Bytes(crc, a, p) + Bytes(crc, b, EndOf(a, p))
  {
    if |a| == 0 {
      assert a + b == b;
    } else {
      var q := FragEnd(a[0], p);
      assert (a + b)[1..] == a[1..] + b && (a + b)[0] == a[0];
      BytesAppend(crc, a[1..], b, q);
      BytesCons(crc, a + b, p);
      BytesCons(crc, a, p);
      Regroup(Emitted(crc, a[0], p), Bytes(crc, a[1..], q), Bytes(crc, b, EndOf(a[1..], q)));
    }
  }

  lemma {:induction false} BytesCons(crc: Crc, frags: seq<Fragment>, p: nat)
    requires |frags| > 0 && AllFit(frags, p)
    ensures Bytes(crc, frags, p) == Emitted(crc, frags[0], p) + Bytes(crc, frags[1..], FragEnd(frags[0], p))
  {
  }

  lemma {:induction false} BytesLength(crc: Crc, frags: seq<Fragment>, p: nat)
    requires AllFit(frags, p)
    ensures p + |Bytes(crc, frags, p)| == EndOf(frags, p)
  {
    if |frags| > 0 { BytesLength(crc, frags[1..], FragEnd(frags[0], p)); }
  }

  lemma {:induction false} LayoutAppend(records: seq<seq<Byte>>, r: seq<Byte>, p: nat)
    ensures Layout(records + [r], p) == Layout(records, p) + Split(r, true, EndOf(Layout(records, p), p))
  {
    if |records| == 0 {
      assert records + [r] == [r] && [r][1..] == [];
    } else {
      var frags := Split(records[0], true, p);
      var rest := Layout(records[1..], EndOf(frags, p));
      LayoutAppend(records[1..], r, EndOf(frags, p));
      EndAppend(frags, rest, p);
      assert (records + [r])[1..] == records[1..] + [r];
    }
  }

  lemma {:induction false} EndAppend(a: seq<Fragment>, b: seq<Fragment>, p: nat)
    ensures EndOf(a + b, p) == EndOf(b, EndOf(a, p))
  {
    if |a| == 0 {
      assert a + b == b;
    } else {
      EndAppend(a[1..], b, FragEnd(a[0], p));
      assert (a + b)[1..] == a[1..] + b;
    }
  }

  /** One more record appends its fragments. */
  lemma {:induction false} LogAppend(crc: Crc, records: seq<seq<Byte>>, r: seq<Byte>)
    ensures LogBytes(crc, records + [r]) == LogBytes(crc, records) + RecordBytes(crc, r, true, |LogBytes(crc, records)|)
  {
    LayoutFits(records, 0);
    BytesLength(crc, Layout(records, 0), 0);
    var p := EndOf(Layout(records, 0), 0);
    SplitFits(r, true, p);
    LayoutAppend(records, r, 0);
    FitAppend(Layout(records, 0), Split(r, true, p), 0);
    BytesAppend(crc, Layout(records, 0), Split(r, true, p), 0);
  }

  // ---- Writing ----

  class Writer {
    const crc: Crc
    /** Checksums of the one-byte strings that hold a record type. */
    const typeCrc: seq<Word>
    /** The file written to. */
    var dest: seq<Byte>
    var blockOffset: nat
    /** What has been added. */
    ghost var records: seq<seq<Byte>>

    /** The offset in the block agrees with the length of the file. */
    ghost predicate Steady()
      reads this
    {
      |typeCrc| == 5 && (forall k: Byte | k <= LAST :: typeCrc[k] == crc(0, [k])) &&
      blockOffset <= BLOCK && blockOffset % 32768 == |dest| % 32768
    }

    ghost predicate Ok()
      reads this
    {
      Steady() && dest == LogBytes(crc, records)
    }

    /** A writer that goes on with a file that holds some records; an empty file holds none. */
    constructor (crc: Crc, dest: seq<Byte>, ghost records: seq<seq<Byte>>)
      requires dest == LogBytes(crc, records)
      ensures Ok() && this.crc == crc && this.dest == dest && this.records == records
    {
      this.crc := crc;
      this.dest := dest;
      this.records := records;
      typeCrc := [crc(0, [0]), crc(0, [1]), crc(0, [2]), crc(0, [3]), crc(0, [4])];
      blockOffset := |dest| % 32768;
    }

    method EmitPhysicalRecord(kind: Byte, data: seq<Byte>)
      requires |typeCrc| == 5 && kind <= LAST && typeCrc[kind] == crc(0, [kind])
      requires blockOffset + HEADER + |data| <= BLOCK
      modifies this`dest, this`blockOffset
      ensures dest == old(dest) + Physical(crc, Fragment(kind, data))
      ensures blockOffset == old(blockOffset) + HEADER + |data|
    {
      var sum := Mask(crc(typeCrc[kind], data));
      dest := dest + (EncodeFixed32(sum) + [(|data| % 0x100) as Byte, (|data| / 0x100) as Byte] + [kind]);
      dest := dest + data;
      blockOffset := blockOffset + HEADER + |data|;
    }

    /** Switches to a new block if no header fits into the current one. */
    method PadBlock()
      requires blockOffset <= BLOCK && blockOffset % 32768 == |dest| % 32768
      modifies this`dest, this`blockOffset
      ensures dest == old(dest) + Zeros(PadLen(|old(dest)|))
      ensures blockOffset == AfterPad(|old(dest)|) % 32768
    {
      var leftover := BLOCK - blockOffset;
      if leftover < HEADER {
        if leftover > 0 {
          dest := dest + Zeros(leftover);
        }
        blockOffset := 0;
      }
    }

    /** Writes the next fragment of a record, as much as fits into the block. */
    method EmitFragment(left: seq<Byte>, begin: bool) returns (n: nat)
      requires Steady()
      modifies this`dest, this`blockOffset
      ensures Steady() && n == TakeOf(left, |old(dest)|)
      ensures dest == old(dest) + Emitted(crc, NextFragment(left, begin, |old(dest)|), |old(dest)|)
      ensures |dest| == FragEnd(NextFragment(left, begin, |old(dest)|), |old(dest)|)
    {
      PadFacts(|dest|);
      ghost var before, p := dest, |dest|;
      PadBlock();
      var avail := BLOCK - blockOffset - HEADER;
      n := if |left| < avail then |left| else avail;
      EmitPhysicalRecord(TypeOf(begin, n == |left|), left[..n]);
      ghost var f := NextFragment(left, begin, p);
      SameOffset(AfterPad(p) % 32768, AfterPad(p), HEADER + n);
      Regroup(before, Zeros(PadLen(p)), Physical(crc, f));
    }

    /** Cuts the record into fragments; an empty record still takes one. */
    method AddRecord(record: seq<Byte>)
      requires Ok()
      modifies this`dest, this`blockOffset, this`records
      ensures Ok() && records == old(records) + [record]
    {
      LogAppend(crc, records, record);
      ghost var whole := LogBytes(crc, records + [record]);
      var left := record;
      var begin := true;
      while true
        invariant Steady() && records == old(records)
        invariant whole == dest + RecordBytes(crc, left, begin, |dest|)
        decreases |left|, Avail(|dest|) == 0
      {
        SplitStep(crc, left, begin, |dest|, dest);
        var n := EmitFragment(left, begin);
        if n == |left| {
          break;
        }
        left := left[n..];
        begin := false;
      }
      records := records + [record];
    }
  }

  /** Writing the next fragment leaves the rest of the record to be written. */
  lemma {:induction false} SplitStep(crc: Crc, left: seq<Byte>, begin: bool, p: nat, dest: seq<Byte>)
    ensures var n, f := TakeOf(left, p), NextFragment(left, begin, p);
      dest + RecordBytes(crc, left, begin, p) ==
      dest + Emitted(crc, f, p) + if n == |left| then [] else RecordBytes(crc, left[n..], false, FragEnd(f, p))
    ensures var n, f := TakeOf(left, p), NextFragment(left, begin, p);
      n == 0 && |left| > 0 ==> Avail(p) == 0 && Avail(FragEnd(f, p)) > 0
  {
    PadFacts(p);
    SplitFits(left, begin, p);
    var n, f := TakeOf(left, p), NextFragment(left, begin, p);
    var frags := Split(left, begin, p);
    var rest := if n == |left| then [] else Split(left[n..], false, FragEnd(f, p));
    assert frags == [f] + rest && frags[1..] == rest;
    if n < |left| { SplitFits(left[n..], false, FragEnd(f, p)); }
    Regroup(dest, Emitted(crc, f, p), Bytes(crc, rest, FragEnd(f, p)));
  }

  // ---- Reading ----

  /** What is left of the file from p on is the start of the fragments' bytes: a log cut off anywhere. */
  ghost predicate Upcoming(crc: Crc, file: seq<Byte>, frags: seq<Fragment>, p: nat) {
    p <= |file| && AllFit(frags, p) && file[p..] <= Bytes(crc, frags, p)
  }

  lemma {:induction false} AtPad(p: nat, end: nat)
    requires p <= end < p + HEADER && end % 32768 == 0
    ensures AfterPad(p) == end
  {
  }

  lemma {:induction false} NoPad(p: nat, n: nat)
    requires p % 32768 + n <= BLOCK && n >= HEADER
    ensures AfterPad(p) == p
  {
  }

  /** What is left of a buffer stays in its block. */
  lemma {:induction false} StillInBlock(p: nat, n: nat, k: nat)
    requires p % 32768 + n <= BLOCK && k <= n
    ensures (p + k) % 32768 + (n - k) <= BLOCK
  {
  }

  /** A buffer that ends with its block holds every fragment that starts in it. */
  lemma {:induction false} HoldsFragment(p: nat, n: nat, k: nat)
    requires p % 32768 + n <= BLOCK && n > 0 && (p + n) % 32768 == 0 && p % 32768 + k <= BLOCK
    ensures k <= n
  {
  }

  /** Behind the padding the file goes on with the fragment. */
  lemma {:induction false} BehindPad(crc: Crc, file: seq<Byte>, frags: seq<Fragment>, p: nat)
    requires Upcoming(crc, file, frags, p) && |frags| > 0 && AfterPad(p) <= |file|
    ensures Fits(frags[0], p)
    ensures file[AfterPad(p)..] <= Physical(crc, frags[0]) + Bytes(crc, frags[1..], FragEnd(frags[0], p))
  {
    BytesCons(crc, frags, p);
    DropPrefix(file[p..], Zeros(PadLen(p)), Physical(crc, frags[0]), Bytes(crc, frags[1..], FragEnd(frags[0], p)));
    assert file[p..][PadLen(p)..] == file[AfterPad(p)..];
  }

  lemma {:induction false} DropPrefix(tail: seq<Byte>, x: seq<Byte>, y: seq<Byte>, z: seq<Byte>)
    requires tail <= x + y + z && |x| <= |tail|
    ensures tail[|x|..] <= y + z
  {
    assert x + y + z == x + (y + z);
  }

  /** What the start of a fragment says. */
  lemma {:induction false} ParsedHeader(crc: Crc, buffer: seq<Byte>, f: Fragment, rest: seq<Byte>)
    requires |f.data| < 0x1_0000 && HEADER <= |buffer| && buffer <= Physical(crc, f) + rest
    ensures buffer[4] as int + buffer[5] as int * 0x100 == |f.data| && buffer[6] == f.kind
  {
    var w := Physical(crc, f) + rest;
    assert buffer[4] == w[4] && buffer[5] == w[5] && buffer[6] == w[6];
    assert |EncodeFixed32(Mask(crc(crc(0, [f.kind]), f.data)))| == 4;
  }

  lemma {:induction false} FragmentSum(crc: Crc, f: Fragment)
    requires Composes(crc)
    ensures crc(crc(0, [f.kind]), f.data) == crc(0, [f.kind] + f.data)
  {
  }

  lemma {:induction false} ParsedData(crc: Crc, buffer: seq<Byte>, f: Fragment, rest: seq<Byte>)
    requires crc(crc(0, [f.kind]), f.data) == crc(0, [f.kind] + f.data)
    requires |f.data| < 0x1_0000 && HEADER + |f.data| <= |buffer| && buffer <= Physical(crc, f) + rest
    ensures buffer[HEADER..HEADER + |f.data|] == f.data
    ensures Unmask(DecodeFixed32(buffer[..4])) == crc(0, buffer[6..HEADER + |f.data|])
  {
    var sum := crc(crc(0, [f.kind]), f.data);
    var w := Physical(crc, f) + rest;
    DecodeEncodeFixed32(Mask(sum));
    UnmaskMask(sum);
    assert buffer[..4] == w[..4] == EncodeFixed32(Mask(sum));
    assert buffer[6..HEADER + |f.data|] == w[6..HEADER + |f.data|] == [f.kind] + f.data;
    assert buffer[HEADER..HEADER + |f.data|] == w[HEADER..HEADER + |f.data|] == f.data;
  }

  /** Behind the fragment the file goes on with the next ones. */
  lemma {:induction false} BehindFragment(crc: Crc, file: seq<Byte>, frags: seq<Fragment>, p: nat)
    requires Upcoming(crc, file, frags, p) && |frags| > 0 && FragEnd(frags[0], p) <= |file|
    ensures Upcoming(crc, file, frags[1..], FragEnd(frags[0], p))
  {
    var q, x := FragEnd(frags[0], p), Emitted(crc, frags[0], p);
    BytesCons(crc, frags, p);
    DropPrefix(file[p..], x, Bytes(crc, frags[1..], q), []);
    assert file[p..][|x|..] == file[q..];
  }

  /** The first fragment if the file holds all of it, the end of the file otherwise. */
  ghost predicate Delivered(crc: Crc, file: seq<Byte>, frags: seq<Fragment>, p: nat, kind: Byte, data: seq<Byte>,
                            q: nat) {
    if |frags| > 0 && FragEnd(frags[0], p) <= |file| then
      kind == frags[0].kind && data == frags[0].data && q == FragEnd(frags[0], p) && Upcoming(crc, file, frags[1..], q)
    else kind == EOF
  }

  class Reader {
    const crc: Crc
    const checksum: bool
    const file: seq<Byte>
    var filePos: nat
    var buffer: seq<Byte>
    var eof: bool
    /** Sizes of the drops reported. */
    var reports: seq<nat>

    /** The buffer is what has been read and not yet used of one block. */
    ghost predicate Ok()
      reads this
    {
      |buffer| <= filePos <= |file| && buffer == file[Pos()..filePos] && Pos() % 32768 + |buffer| <= BLOCK &&
      if eof then filePos == |file| else filePos % 32768 == 0
    }

    ghost function Pos(): nat
      requires |buffer| <= filePos
      reads this
    {
      filePos - |buffer|
    }

    ghost predicate AtEnd()
      reads this
    {
      eof && buffer == []
    }

    constructor (crc: Crc, checksum: bool, file: seq<Byte>)
      ensures Ok() && Pos() == 0 && reports == []
      ensures this.crc == crc && this.checksum == checksum && this.file == file
    {
      this.crc := crc;
      this.checksum := checksum;
      this.file := file;
      filePos, buffer, eof, reports := 0, [], false, [];
    }

    /** Reads the next block once less than a header is left. False at the end of the file. */
    method Refill() returns (more: bool)
      requires Ok()
      modifies this`filePos, this`buffer, this`eof
      ensures Ok() && (more ==> |buffer| >= HEADER && Pos() == AfterPad(old(Pos())))
      ensures !more ==> AtEnd() && |file| < AfterPad(old(Pos())) + HEADER
    {
      if |buffer| < HEADER && !eof {
        AtPad(Pos(), filePos);
        var end := if filePos + BLOCK <= |file| then filePos + BLOCK else |file|;
        buffer := file[filePos..end];
        filePos := end;
        if |buffer| < BLOCK {
          eof := true;
        }
      } else if |buffer| >= HEADER {
        NoPad(Pos(), |buffer|);
      }
      if |buffer| < HEADER {
        buffer := [];
        return false;
      }
      more := true;
    }

    /** Length of the data, as the header at the start of the buffer has it. */
    ghost function HeaderLength(): nat
      requires |buffer| >= HEADER
      reads this
    {
      buffer[4] as int + buffer[5] as int * 0x100
    }

    /** The checksum in the header is that of the type and the data. */
    ghost predicate SumsUp()
      requires |buffer| >= HEADER && |buffer| >= HEADER + HeaderLength()
      reads this
    {
      checksum ==> crc(0, buffer[6..HEADER + HeaderLength()]) == Unmask(DecodeFixed32(buffer[..4]))
    }

    /** Takes the fragment at the start of the buffer. A truncated one ends the file; a bad one drops the buffer. */
    method TakeFragment() returns (kind: Byte, data: seq<Byte>)
      requires Ok() && |buffer| >= HEADER
      modifies this`buffer, this`reports
      ensures Ok() && (kind != EOF ==> Pos() > old(Pos()))
      ensures HEADER + old(HeaderLength()) > |old(buffer)| ==>
        buffer == [] && kind == (if eof then EOF else BAD) && reports == old(reports) + if eof then []
          else [|old(buffer)|]
      ensures HEADER + old(HeaderLength()) <= |old(buffer)| && old(buffer[6]) != 0 && old(SumsUp()) ==>
        kind == old(buffer[6]) && data == old(buffer)[HEADER..HEADER + old(HeaderLength())] &&
        buffer == old(buffer)[HEADER + old(HeaderLength())..] && reports == old(reports)
      ensures HEADER + old(HeaderLength()) <= |old(buffer)| && !old(SumsUp()) ==>
        kind == BAD && buffer == [] &&
          (reports == old(reports) + [|old(buffer)|] || (reports == old(reports) && old(HeaderLength()) == 0))
    {
      data := [];
      var length: nat := buffer[4] as int + buffer[5] as int * 0x100;
      kind := buffer[6];
      var dropSize := |buffer|;
      if HEADER + length > |buffer| {
        buffer := [];
        if !eof {
          reports := reports + [dropSize];
          return BAD, [];
        }
        return EOF, [];
      }
      if kind == 0 && length == 0 {
        buffer := [];
        return BAD, [];
      }
      if checksum {
        var expectedCrc := Unmask(DecodeFixed32(buffer[..4]));
        var actualCrc := crc(0, buffer[6..HEADER + length]);
        if actualCrc != expectedCrc {
          buffer := [];
          reports := reports + [dropSize];
          return BAD, [];
        }
      }
      data := buffer[HEADER..HEADER + length];
      StillInBlock(Pos(), |buffer|, HEADER + length);
      buffer := buffer[HEADER + length..];
    }

    /** Reads one fragment, or tells that there is none or that some bytes were skipped. */
    method ReadPhysicalRecord(ghost frags: seq<Fragment>) returns (kind: Byte, data: seq<Byte>)
      requires Ok()
      modifies this`filePos, this`buffer, this`eof, this`reports
      ensures Ok() && (kind != EOF ==> Pos() > old(Pos()))
      ensures Composes(crc) && Upcoming(crc, file, frags, old(Pos())) ==>
        reports == old(reports) && Delivered(crc, file, frags, old(Pos()), kind, data, Pos()) &&
          (kind == EOF ==> AtEnd())
    {
      ghost var p := Pos();
      ghost var expected := Composes(crc) && Upcoming(crc, file, frags, p);
      var more := Refill();
      if !more {
        return EOF, [];
      }
      if expected { HeaderAhead(frags, p); }
      kind, data := TakeFragment();
    }

    /** Facts about the fragment at the start of the buffer. */
    lemma {:induction false} HeaderAhead(frags: seq<Fragment>, p: nat)
      requires Ok() && Composes(crc) && Upcoming(crc, file, frags, p) && |buffer| >= HEADER && Pos() == AfterPad(p)
      ensures |frags| > 0 && frags[0].kind == buffer[6] && FULL <= buffer[6] <= LAST &&
        |frags[0].data| == HeaderLength()
      ensures HEADER + HeaderLength() > |buffer| ==> eof && FragEnd(frags[0], p) > |file|
      ensures HEADER + HeaderLength() <= |buffer| ==>
        FragEnd(frags[0], p) <= |file| && Upcoming(crc, file, frags[1..], FragEnd(frags[0], p)) &&
        buffer[HEADER..HEADER + HeaderLength()] == frags[0].data && SumsUp()
    {
      BehindPad(crc, file, frags, p);
      var f, rest := frags[0], Bytes(crc, frags[1..], FragEnd(frags[0], p));
      assert buffer <= file[Pos()..];
      ParsedHeader(crc, buffer, f, rest);
      if HEADER + |f.data| > |buffer| {
        if !eof { HoldsFragment(Pos(), |buffer|, HEADER + |f.data|); }
      } else {
        FragmentSum(crc, f);
        ParsedData(crc, buffer, f, rest);
        BehindFragment(crc, file, frags, p);
      }
    }

    /** Takes in a fragment that does not end a record. What does not belong together is reported and dropped. */
    method Absorb(kind: Byte, fragment: seq<Byte>, inFragmented: bool, scratch: seq<Byte>)
      returns (inFragmented': bool, scratch': seq<Byte>)
      requires kind != FULL && kind != EOF && !(kind == LAST && inFragmented)
      modifies this`reports
      ensures kind == FIRST ==> inFragmented' && scratch' == fragment && (!inFragmented ==> reports == old(reports))
      ensures kind == MIDDLE && inFragmented ==>
        inFragmented' && scratch' == scratch + fragment && reports == old(reports)
      ensures (kind == MIDDLE || kind == LAST) && !inFragmented ==>
        reports == old(reports) + [|fragment|] && !inFragmented' && scratch' == scratch
      ensures kind == BAD || kind == 0 || kind > BAD ==>
        !inFragmented' && (inFragmented ==> |reports| == |old(reports)| + 1)
    {
      inFragmented', scratch' := inFragmented, scratch;
      if kind == FIRST {
        if inFragmented && |scratch| > 0 {
          reports := reports + [|scratch|];
        }
        inFragmented', scratch' := true, fragment;
      } else if kind == MIDDLE {
        if !inFragmented {
          reports := reports + [|fragment|];
        } else {
          scratch' := scratch + fragment;
        }
      } else if kind == LAST {
        reports := reports + [|fragment|];
      } else if kind == BAD {
        if inFragmented {
          reports := reports + [|scratch|];
          inFragmented', scratch' := false, [];
        }
      } else {
        reports := reports + [|fragment| + if inFragmented then |scratch| else 0];
        inFragmented', scratch' := false, [];
      }
    }

    /** Reads one fragment and adds it to the record being put together. The ghost results are what was read. */
    method ReadStep(inFragmented: bool, scratch: seq<Byte>, ghost ahead: seq<Fragment>)
      returns (step: Step, inFragmented': bool, scratch': seq<Byte>, ghost kind: Byte, ghost fragment: seq<Byte>)
      requires Ok()
      modifies this`filePos, this`buffer, this`eof, this`reports
      ensures Ok() && (step != AtEof ==> Pos() > old(Pos()))
      ensures step == StepOf(kind, fragment, inFragmented, scratch)
      ensures Composes(crc) && Upcoming(crc, file, ahead, old(Pos())) ==>
        Delivered(crc, file, ahead, old(Pos()), kind, fragment, Pos()) && (kind == EOF ==> AtEnd()) &&
        (kind == (if inFragmented then MIDDLE else FIRST) ==>
          inFragmented' && scratch' == (if inFragmented then scratch + fragment else fragment)) &&
        (kind == (if inFragmented then MIDDLE else FIRST) || kind == EOF || (kind == LAST && inFragmented) ||
          (kind == FULL && !inFragmented) ==>
          reports == old(reports))
    {
      var k, data := ReadPhysicalRecord(ahead);
      kind, fragment := k, data;
      inFragmented', scratch' := inFragmented, scratch;
      if k == FULL {
        if inFragmented && |scratch| > 0 {
          reports := reports + [|scratch|];
        }
        step := Found(data);
      } else if k == LAST && inFragmented {
        step := Found(scratch + data);
      } else if k == EOF {
        step := AtEof;
      } else {
        step := More;
        inFragmented', scratch' := Absorb(k, data, inFragmented, scratch);
      }
    }

    /** Puts the fragments of the next record together again. */
    method ReadRecord(ghost records: seq<seq<Byte>>) returns (found: bool, record: seq<Byte>)
      requires Ok()
      modifies this`filePos, this`buffer, this`eof, this`reports
      ensures Ok() && (found ==> Pos() > old(Pos()))
      ensures Composes(crc) && Upcoming(crc, file, Layout(records, old(Pos())), old(Pos())) ==>
        reports == old(reports) && ReadNext(crc, file, records, old(Pos()), found, record, Pos()) &&
          (!found ==> AtEnd())
    {
      ghost var p0 := Pos();
      ghost var expected := Composes(crc) && Upcoming(crc, file, Layout(records, p0), p0);
      var inFragmented := false;
      var scratch := [];
      ghost var cur, rest := FirstSplit(records, p0), FirstData(records);
      if expected { MidwayStart(crc, file, records, p0); }
      while true
        invariant Ok() && Pos() >= p0
        invariant expected ==>
          reports == old(reports) && Midway(crc, file, records, p0, Pos(), cur, rest, inFragmented, scratch)
        decreases |file| - Pos()
      {
        ghost var p, was, had := Pos(), inFragmented, scratch;
        if expected { MidwayAhead(crc, file, records, p0, p, cur, rest, inFragmented, scratch); }
        var step;
        ghost var kind, fragment;
        step, inFragmented, scratch, kind, fragment := ReadStep(inFragmented, scratch, cur + LaterLayout(records, p0));
        if expected { FragmentRead(crc, file, records, p0, p, cur, rest, was, had, kind, fragment, Pos()); }
        cur, rest := Tail(cur), Drop(rest, |fragment|);
        match step {
          case More =>
          case Found(r) => return true, r;
          case AtEof => return false, [];
        }
      }
    }
  }

  /** What a fragment means for the record being put together. */
  function StepOf(kind: Byte, fragment: seq<Byte>, inFragmented: bool, scratch: seq<Byte>): Step {
    if kind == FULL then Found(fragment)
    else if kind == LAST && inFragmented then Found(scratch + fragment)
    else if kind == EOF then AtEof
    else More
  }

  datatype Step = More | Found(record: seq<Byte>) | AtEof

  // ---- One record ----

  ghost function FirstSplit(records: seq<seq<Byte>>, p: nat): seq<Fragment> {
    if |records| == 0 then [] else Split(records[0], true, p)
  }

  ghost function FirstData(records: seq<seq<Byte>>): seq<Byte> { if |records| == 0 then [] else records[0] }

  /** The fragments of the records behind the first one. */
  ghost function LaterLayout(records: seq<seq<Byte>>, p: nat): seq<Fragment> {
    if |records| == 0 then [] else Layout(records[1..], RecordEnd(records, p))
  }

  ghost function Tail(frags: seq<Fragment>): seq<Fragment> { if |frags| == 0 then [] else frags[1..] }

  ghost function Drop(data: seq<Byte>, n: nat): seq<Byte> { if n <= |data| then data[n..] else [] }

  lemma {:induction false} MidwayAhead(crc: Crc, file: seq<Byte>, records: seq<seq<Byte>>, p0: nat, p: nat,
                                       cur: seq<Fragment>, rest: seq<Byte>, inFragmented: bool, scratch: seq<Byte>)
    requires Midway(crc, file, records, p0, p, cur, rest, inFragmented, scratch)
    ensures Upcoming(crc, file, cur + LaterLayout(records, p0), p)
  {
  }

  /** The next record if the file holds all of it, the end otherwise. */
  ghost predicate ReadNext(crc: Crc, file: seq<Byte>, records: seq<seq<Byte>>, p0: nat, found: bool, record: seq<Byte>,
                           q: nat) {
    if |records| > 0 && RecordEnd(records, p0) <= |file| then
      found && record == records[0] && q == RecordEnd(records, p0) && Upcoming(crc, file, Layout(records[1..], q), q)
    else !found
  }

  /** In the middle of the first record, at p: cur are its fragments still to come and rest their data. */
  ghost predicate Midway(crc: Crc, file: seq<Byte>, records: seq<seq<Byte>>, p0: nat, p: nat, cur: seq<Fragment>,
                         rest: seq<Byte>, inFragmented: bool, scratch: seq<Byte>) {
    Upcoming(crc, file, cur + LaterLayout(records, p0), p) &&
    if |records| == 0 then cur == []
    else
      EndOf(cur, p) == RecordEnd(records, p0) && Chunked(cur, !inFragmented, rest) &&
      (if inFragmented then scratch + rest == records[0] else rest == records[0])
  }

  lemma {:induction false} MidwayStart(crc: Crc, file: seq<Byte>, records: seq<seq<Byte>>, p0: nat)
    requires Upcoming(crc, file, Layout(records, p0), p0)
    ensures Midway(crc, file, records, p0, p0, FirstSplit(records, p0), FirstData(records), false, [])
  {
    if |records| > 0 {
      SplitChunked(records[0], true, p0);
    } else {
      assert [] + LaterLayout(records, p0) == [];
    }
  }

  lemma {:induction false} EndGrows(frags: seq<Fragment>, p: nat)
    ensures EndOf(frags, p) >= p
  {
    if |frags| > 0 { EndGrows(frags[1..], FragEnd(frags[0], p)); }
  }

  /** What one more fragment means in the middle of a record. */
  lemma {:induction false} FragmentRead(crc: Crc, file: seq<Byte>, records: seq<seq<Byte>>, p0: nat, p: nat,
                                        cur: seq<Fragment>, rest: seq<Byte>, inFragmented: bool, scratch: seq<Byte>,
                                        kind: Byte, fragment: seq<Byte>, q: nat)
    requires Midway(crc, file, records, p0, p, cur, rest, inFragmented, scratch)
    requires Delivered(crc, file, cur + LaterLayout(records, p0), p, kind, fragment, q)
    ensures kind == (if inFragmented then MIDDLE else FIRST) || kind == EOF || (kind == LAST && inFragmented) ||
      (kind == FULL && !inFragmented)
    ensures match StepOf(kind, fragment, inFragmented, scratch)
      case More =>
        Midway(crc, file, records, p0, q, Tail(cur), Drop(rest, |fragment|), true, if inFragmented then
          scratch + fragment else fragment)
      case Found(record) => ReadNext(crc, file, records, p0, true, record, q)
      case AtEof => ReadNext(crc, file, records, p0, false, [], q)
  {
    if |records| > 0 {
      CurrentFirst(cur, LaterLayout(records, p0), p);
      if FragEnd(cur[0], p) <= |file| {
        if |cur| == 1 {
          LastRead(crc, file, records, p0, p, cur, rest, inFragmented, scratch, kind, fragment, q);
        } else {
          MoreToRead(crc, file, records, p0, p, cur, rest, inFragmented, scratch, kind, fragment, q);
        }
      }
    }
  }

  lemma {:induction false} CurrentFirst(cur: seq<Fragment>, later: seq<Fragment>, p: nat)
    requires |cur| > 0
    ensures (cur + later)[0] == cur[0] && (cur + later)[1..] == cur[1..] + later &&
      (|cur| == 1 ==> cur[1..] + later == later)
    ensures EndOf(cur, p) >= FragEnd(cur[0], p) && EndOf(cur, p) == EndOf(cur[1..], FragEnd(cur[0], p))
  {
    EndGrows(cur[1..], FragEnd(cur[0], p));
  }

  lemma {:induction false} LastRead(crc: Crc, file: seq<Byte>, records: seq<seq<Byte>>, p0: nat, p: nat,
                                    cur: seq<Fragment>, rest: seq<Byte>, inFragmented: bool, scratch: seq<Byte>,
                                    kind: Byte, fragment: seq<Byte>, q: nat)
    requires |records| > 0 && |cur| == 1 && EndOf(cur, p) == RecordEnd(records, p0) && Chunked(cur, !inFragmented, rest)
    requires if inFragmented then scratch + rest == records[0] else rest == records[0]
    requires FragEnd(cur[0], p) <= |file| && kind == cur[0].kind && fragment == cur[0].data && q == FragEnd(cur[0], p)
    requires Upcoming(crc, file, LaterLayout(records, p0), q)
    ensures kind == (if inFragmented then LAST else FULL)
    ensures ReadNext(crc, file, records, p0, true, if inFragmented then scratch + fragment else fragment, q)
  {
  }

  lemma {:induction false} MoreToRead(crc: Crc, file: seq<Byte>, records: seq<seq<Byte>>, p0: nat, p: nat,
                                      cur: seq<Fragment>, rest: seq<Byte>, inFragmented: bool, scratch: seq<Byte>,
                                      kind: Byte, fragment: seq<Byte>, q: nat)
    requires |records| > 0 && |cur| > 1 && EndOf(cur, p) == RecordEnd(records, p0) && Chunked(cur, !inFragmented, rest)
    requires if inFragmented then scratch + rest == records[0] else rest == records[0]
    requires kind == cur[0].kind && fragment == cur[0].data && q == FragEnd(cur[0], p)
    requires Upcoming(crc, file, cur[1..] + LaterLayout(records, p0), q)
    ensures kind == (if inFragmented then MIDDLE else FIRST) && fragment <= rest
    ensures Midway(crc, file, records, p0, q, cur[1..], rest[|fragment|..], true, if inFragmented then
      scratch + fragment else fragment)
  {
    Regroup(scratch, fragment, rest[|fragment|..]);
    assert fragment + rest[|fragment|..] == rest;
  }

  /** Where the first record ends. */
  ghost function RecordEnd(records: seq<seq<Byte>>, p: nat): nat
    requires |records| > 0
  {
    EndOf(Split(records[0], true, p), p)
  }

  /** Fragments of the right types that hold the data between them. */
  ghost predicate Chunked(frags: seq<Fragment>, begin: bool, data: seq<Byte>) {
    |frags| > 0 && frags[0].data <= data && frags[0].kind == TypeOf(begin, |frags| == 1) &&
    if |frags| == 1 then frags[0].data == data else Chunked(frags[1..], false, data[|frags[0].data|..])
  }

  lemma {:induction false} SplitChunked(data: seq<Byte>, begin: bool, p: nat)
    ensures Chunked(Split(data, begin, p), begin, data)
    decreases |data|, Avail(p) == 0
  {
    PadFacts(p);
    var n, f := TakeOf(data, p), NextFragment(data, begin, p);
    if n < |data| {
      SplitChunked(data[n..], false, FragEnd(f, p));
      assert Split(data, begin, p)[1..] == Split(data[n..], false, FragEnd(f, p));
    }
  }

  // ---- The whole log ----

  /** Where the first k records end. */
  ghost function EndOfFirst(records: seq<seq<Byte>>, k: nat): nat
    requires k <= |records|
  {
    EndOf(Layout(records[..k], 0), 0)
  }

  lemma {:induction false} EndOfFirstIsLength(crc: Crc, records: seq<seq<Byte>>, k: nat)
    requires k <= |records|
    ensures EndOfFirst(records, k) == |LogBytes(crc, records[..k])|
  {
    LayoutFits(records[..k], 0);
    BytesLength(crc, Layout(records[..k], 0), 0);
  }

  lemma {:induction false} EndOfNext(records: seq<seq<Byte>>, k: nat)
    requires k < |records|
    ensures EndOfFirst(records, k + 1) == RecordEnd(records[k..], EndOfFirst(records, k)) > EndOfFirst(records, k)
  {
    var p, r := EndOfFirst(records, k), records[k];
    assert records[..k + 1] == records[..k] + [r];
    LayoutAppend(records[..k], r, 0);
    EndAppend(Layout(records[..k], 0), Split(r, true, p), 0);
    SplitFits(r, true, p);
    var frags := Split(r, true, p);
    EndGrows(frags[1..], FragEnd(frags[0], p));
  }

  lemma {:induction false} EndsIncrease(records: seq<seq<Byte>>, j: nat, k: nat)
    requires j <= k <= |records|
    ensures EndOfFirst(records, j) <= EndOfFirst(records, k)
  {
    if j < k {
      EndsIncrease(records, j, k - 1);
      EndOfNext(records, k - 1);
    }
  }

  /** k is how many records a file of n bytes holds whole. */
  ghost predicate HoldsWhole(crc: Crc, records: seq<seq<Byte>>, n: nat, k: nat) {
    k <= |records| && |LogBytes(crc, records[..k])| <= n && (k < |records| ==> n < |LogBytes(crc, records[..k + 1])|)
  }

  lemma {:induction false} HoldsAll(crc: Crc, records: seq<seq<Byte>>, k: nat)
    requires HoldsWhole(crc, records, |LogBytes(crc, records)|, k)
    ensures k == |records|
  {
    EndOfFirstIsLength(crc, records, |records|);
    assert records[..|records|] == records;
    if k < |records| {
      EndOfFirstIsLength(crc, records, k + 1);
      EndsIncrease(records, k + 1, |records|);
    }
  }

  /** Reads the record behind those found so far. */
  method ReadAnother(reader: Reader, ghost records: seq<seq<Byte>>, ghost found: seq<seq<Byte>>)
    returns (more: bool, record: seq<Byte>)
    requires reader.Ok()
    modifies reader
    ensures reader.Ok() && (more ==> reader.Pos() > old(reader.Pos()))
    ensures Composes(reader.crc) && ReadSoFar(reader.crc, reader.file, records, found, old(reader.Pos())) ==>
      reader.reports == old(reader.reports) &&
      (if more then
        |found| < |records| && record == records[|found|] &&
        ReadSoFar(reader.crc, reader.file, records, found + [record], reader.Pos())
       else HoldsWhole(reader.crc, records, |reader.file|, |found|) && found == records[..|found|])
  {
    ghost var p := reader.Pos();
    ghost var expected := Composes(reader.crc) && ReadSoFar(reader.crc, reader.file, records, found, p);
    if expected { StillAhead(reader.crc, reader.file, records, found, p); }
    more, record := reader.ReadRecord(Rest(records, |found|));
    if expected { ReadOn(reader.crc, reader.file, records, found, p, more, record, reader.Pos()); }
  }

  /** Reads a log that may be cut off anywhere: the records that are whole come back in order, and nothing is
      reported. */
  method ReadLog(crc: Crc, checksum: bool, file: seq<Byte>, ghost records: seq<seq<Byte>>)
    returns (found: seq<seq<Byte>>, reports: seq<nat>)
    ensures Composes(crc) && file <= LogBytes(crc, records) ==>
      reports == [] && HoldsWhole(crc, records, |file|, |found|) && found == records[..|found|]
    ensures Composes(crc) && file == LogBytes(crc, records) ==> found == records
  {
    var reader := new Reader(crc, checksum, file);
    found := [];
    ghost var expected := Composes(crc) && file <= LogBytes(crc, records);
    if expected { AtStart(crc, file, records); }
    while true
      invariant fresh(reader) && reader.Ok() && reader.crc == crc && reader.file == file
      invariant expected ==> reader.reports == [] && ReadSoFar(crc, file, records, found, reader.Pos())
      decreases |file| - reader.Pos()
    {
      var more, record := ReadAnother(reader, records, found);
      if !more {
        break;
      }
      found := found + [record];
    }
    reports := reader.reports;
    if expected && file == LogBytes(crc, records) { HoldsAll(crc, records, |found|); }
  }

  ghost function Rest(records: seq<seq<Byte>>, k: nat): seq<seq<Byte>> { if k <= |records| then records[k..] else [] }

  /** The reader has found the first records and stands behind them. */
  ghost predicate ReadSoFar(crc: Crc, file: seq<Byte>, records: seq<seq<Byte>>, found: seq<seq<Byte>>, p: nat) {
    found <= records && p == EndOfFirst(records, |found|) && Upcoming(crc, file, Layout(Rest(records, |found|), p), p)
  }

  lemma {:induction false} AtStart(crc: Crc, file: seq<Byte>, records: seq<seq<Byte>>)
    requires file <= LogBytes(crc, records)
    ensures ReadSoFar(crc, file, records, [], 0)
  {
    LayoutFits(records, 0);
    assert records[..0] == [] && records[0..] == records && file[0..] == file;
  }

  lemma {:induction false} StillAhead(crc: Crc, file: seq<Byte>, records: seq<seq<Byte>>, found: seq<seq<Byte>>, p: nat)
    requires ReadSoFar(crc, file, records, found, p)
    ensures Upcoming(crc, file, Layout(Rest(records, |found|), p), p)
  {
  }

  lemma {:induction false} ReadOn(crc: Crc, file: seq<Byte>, records: seq<seq<Byte>>, found: seq<seq<Byte>>, p: nat,
                                  more: bool, record: seq<Byte>, q: nat)
    requires ReadSoFar(crc, file, records, found, p) && ReadNext(crc, file, Rest(records, |found|), p, more, record, q)
    ensures more ==>
      |found| < |records| && record == records[|found|] && ReadSoFar(crc, file, records, found + [record], q)
    ensures !more ==> HoldsWhole(crc, records, |file|, |found|) && found == records[..|found|]
  {
    var k := |found|;
    EndOfFirstIsLength(crc, records, k);
    if k < |records| {
      EndOfNext(records, k);
      EndOfFirstIsLength(crc, records, k + 1);
      assert records[k..][1..] == records[k + 1..];
      assert records[..k + 1] == found + [records[k]];
    }
  }
}
