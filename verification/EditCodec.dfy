/** The record that holds one version edit in the descriptor log. */
module EditCodec {
  import opened Format
  import opened Tree
  import opened Coding
  import opened Versions

  const COMPARATOR: Word := 1
  const LOG_NUMBER: Word := 2
  const NEXT_FILE_NUMBER: Word := 3
  const LAST_SEQUENCE: Word := 4
  const COMPACT_POINTER: Word := 5
  const DELETED_FILE: Word := 6
  const NEW_FILE: Word := 7
  const PREV_LOG_NUMBER: Word := 9

  /** A file as the descriptor knows it; keys are internal keys as bytes. */
  datatype FileMeta = FileMeta(number: Number, size: Number, smallest: seq<Byte>, largest: seq<Byte>)

  datatype WireEdit = WireEdit(
    comparator: Option<seq<Byte>>, logNumber: Option<Number>, prevLogNumber: Option<Number>,
    nextFileNumber: Option<Number>, lastSequence: Option<Number>,
    compactPointers: seq<(nat, seq<Byte>)>, deletedFiles: seq<(nat, nat)>, newFiles: seq<(nat, FileMeta)>)

  const CLEAR := WireEdit(None, None, None, None, None, [], [], [])

  // ---- Items ----

  /** One tagged field of the record. */
  datatype Item =
    | Comparator(name: seq<Byte>) | LogNumber(n: Number) | PrevLogNumber(n: Number) | NextFileNumber(n: Number)
    | LastSequence(n: Number) | CompactPointer(level: nat, key: seq<Byte>) | DeletedFile(level: nat, number: nat)
    | NewFile(level: nat, file: FileMeta)

  ghost predicate KeyFits(key: seq<Byte>) { 0 < |key| < 0x1_0000_0000 }

  ghost predicate ItemOk(item: Item) {
    match item
    case Comparator(name) => |name| < 0x1_0000_0000
    case CompactPointer(level, key) => level < NUM_LEVELS && KeyFits(key)
    case DeletedFile(level, number) => level < NUM_LEVELS && number < 0x1_0000_0000_0000_0000
    case NewFile(level, f) => level < NUM_LEVELS && KeyFits(f.smallest) && KeyFits(f.largest)
    case _ => true
  }

  function TagOf(item: Item): Word {
    match item
    case Comparator(_) => COMPARATOR
    case LogNumber(_) => LOG_NUMBER
    case PrevLogNumber(_) => PREV_LOG_NUMBER
    case NextFileNumber(_) => NEXT_FILE_NUMBER
    case LastSequence(_) => LAST_SEQUENCE
    case CompactPointer(_, _) => COMPACT_POINTER
    case DeletedFile(_, _) => DELETED_FILE
    case NewFile(_, _) => NEW_FILE
  }

  function EncodeFile(f: FileMeta): seq<Byte> {
    Varint(f.number) + (Varint(f.size) + (LengthPrefixed(f.smallest) + LengthPrefixed(f.largest)))
  }

  /** The bytes of a field behind its tag. */
  function Body(item: Item): seq<Byte> {
    match item
    case Comparator(name) => LengthPrefixed(name)
    case LogNumber(n) => Varint(n)
    case PrevLogNumber(n) => Varint(n)
    case NextFileNumber(n) => Varint(n)
    case LastSequence(n) => Varint(n)
    case CompactPointer(level, key) => Varint(level) + LengthPrefixed(key)
    case DeletedFile(level, number) => Varint(level) + Varint(number)
    case NewFile(level, f) => Varint(level) + EncodeFile(f)
  }

  function EncodeItem(item: Item): seq<Byte> { Varint(TagOf(item)) + Body(item) }

  function EncodeItems(items: seq<Item>): seq<Byte> {
    if |items| == 0 then [] else EncodeItem(items[0]) + EncodeItems(items[1..])
  }

  function GetLevel(input: seq<Byte>): Option<(nat, seq<Byte>)> {
    var r := GetVarint32(input);
    if r.Some? && r.value.0 < NUM_LEVELS then Some((r.value.0, r.value.1)) else None
  }

  /** An internal key is never empty. */
  function GetInternalKey(input: seq<Byte>): Option<(seq<Byte>, seq<Byte>)> {
    var r := GetLengthPrefixedSlice(input);
    if r.Some? && |r.value.0| > 0 then r else None
  }

  /** The fields behind the tag of a new file. */
  function GetFile(input: seq<Byte>): Option<(FileMeta, seq<Byte>)> {
    var number := GetVarint64(input);
    if number.None? then None else
      var size := GetVarint64(number.value.1);
      if size.None? then None else
        var smallest := GetInternalKey(size.value.1);
        if smallest.None? then None else
          var largest := GetInternalKey(smallest.value.1);
          if largest.None? then None else
            Some((FileMeta(number.value.0, size.value.0, smallest.value.0, largest.value.0), largest.value.1))
  }

  /** One field behind its tag: the item and what follows, or the error that the reader names. */
  datatype Parsed = Parsed(item: Item, rest: seq<Byte>) | Malformed(what: string)

  function NumberItem(tag: Word, n: Number): Item {
    if tag == LOG_NUMBER then LogNumber(n)
    else if tag == PREV_LOG_NUMBER then PrevLogNumber(n)
    else if tag == NEXT_FILE_NUMBER then NextFileNumber(n)
    else LastSequence(n)
  }

  function NumberName(tag: Word): string {
    if tag == LOG_NUMBER then "log number"
    else if tag == PREV_LOG_NUMBER then "previous log number"
    else if tag == NEXT_FILE_NUMBER then "next file number"
    else "last sequence number"
  }

  function ParseNumber(tag: Word, input: seq<Byte>): Parsed {
    var r := GetVarint64(input);
    if r.None? then Malformed(NumberName(tag)) else Parsed(NumberItem(tag, r.value.0), r.value.1)
  }

  function ParsePointer(input: seq<Byte>): Parsed {
    var level := GetLevel(input);
    if level.None? then Malformed("compaction pointer") else
      var key := GetInternalKey(level.value.1);
      if key.None? then Malformed("compaction pointer")
        else Parsed(CompactPointer(level.value.0, key.value.0), key.value.1)
  }

  function ParseDeleted(input: seq<Byte>): Parsed {
    var level := GetLevel(input);
    if level.None? then Malformed("deleted file") else
      var number := GetVarint64(level.value.1);
      if number.None? then Malformed("deleted file")
        else Parsed(DeletedFile(level.value.0, number.value.0), number.value.1)
  }

  function ParseNewFile(input: seq<Byte>): Parsed {
    var level := GetLevel(input);
    if level.None? then Malformed("new-file entry") else
      var f := GetFile(level.value.1);
      if f.None? then Malformed("new-file entry") else Parsed(NewFile(level.value.0, f.value.0), f.value.1)
  }

  function ParseName(input: seq<Byte>): Parsed {
    var r := GetLengthPrefixedSlice(input);
    if r.None? then Malformed("comparator name") else Parsed(Comparator(r.value.0), r.value.1)
  }

  function ParseItem(tag: Word, input: seq<Byte>): (r: Parsed)
    ensures r.Parsed? ==> |r.rest| < |input|
  {
    if tag == COMPARATOR then ParseName(input)
    else if tag == LOG_NUMBER || tag == PREV_LOG_NUMBER || tag == NEXT_FILE_NUMBER || tag == LAST_SEQUENCE then
      ParseNumber(tag, input)
    else if tag == COMPACT_POINTER then ParsePointer(input)
    else if tag == DELETED_FILE then ParseDeleted(input)
    else if tag == NEW_FILE then ParseNewFile(input)
    else Malformed("unknown tag")
  }

  lemma {:induction false} GetPutKey(key: seq<Byte>, rest: seq<Byte>)
    requires KeyFits(key)
    ensures GetInternalKey(LengthPrefixed(key) + rest) == Some((key, rest))
  {
    GetPutSlice(key, rest);
  }

  lemma {:induction false} GetPutLevel(level: nat, rest: seq<Byte>)
    requires level < NUM_LEVELS
    ensures GetLevel(Varint(level) + rest) == Some((level, rest))
  {
    GetPutVarint(level, rest);
  }

  lemma {:induction false} GetPutFile(f: FileMeta, rest: seq<Byte>)
    requires KeyFits(f.smallest) && KeyFits(f.largest)
    ensures GetFile(EncodeFile(f) + rest) == Some((f, rest))
  {
    var d := LengthPrefixed(f.largest) + rest;
    var c := LengthPrefixed(f.smallest) + d;
    var b := Varint(f.size) + c;
    assert EncodeFile(f) + rest == Varint(f.number) + b;
    GetPutVarint(f.number, b);
    GetPutVarint(f.size, c);
    GetPutKey(f.smallest, d);
    GetPutKey(f.largest, rest);
  }

  lemma {:induction false} ParseLeveled(item: Item, rest: seq<Byte>)
    requires ItemOk(item)
    ensures item.CompactPointer? ==> ParsePointer(Body(item) + rest) == Parsed(item, rest)
    ensures item.DeletedFile? ==> ParseDeleted(Body(item) + rest) == Parsed(item, rest)
    ensures item.NewFile? ==> ParseNewFile(Body(item) + rest) == Parsed(item, rest)
  {
    if item.CompactPointer? {
      LevelFirst(item.level, LengthPrefixed(item.key), rest);
      GetPutKey(item.key, rest);
    }
    if item.DeletedFile? {
      LevelFirst(item.level, Varint(item.number), rest);
      GetPutVarint(item.number, rest);
    }
    if item.NewFile? {
      LevelFirst(item.level, EncodeFile(item.file), rest);
      GetPutFile(item.file, rest);
    }
  }

  lemma {:induction false} LevelFirst(level: nat, x: seq<Byte>, rest: seq<Byte>)
    requires level < NUM_LEVELS
    ensures GetLevel(Varint(level) + x + rest) == Some((level, x + rest))
  {
    GetPutLevel(level, x + rest);
    assert Varint(level) + x + rest == Varint(level) + (x + rest);
  }

  /** A field reads back as it was written. */
  lemma {:induction false} ParseBody(item: Item, rest: seq<Byte>)
    requires ItemOk(item)
    ensures ParseItem(TagOf(item), Body(item) + rest) == Parsed(item, rest)
  {
    match item
    case Comparator(name) => GetPutSlice(name, rest);
    case LogNumber(n) => NumberReads(LOG_NUMBER, n, rest);
    case PrevLogNumber(n) => NumberReads(PREV_LOG_NUMBER, n, rest);
    case NextFileNumber(n) => NumberReads(NEXT_FILE_NUMBER, n, rest);
    case LastSequence(n) => NumberReads(LAST_SEQUENCE, n, rest);
    case _ => ParseLeveled(item, rest);
  }

  lemma {:induction false} NumberReads(tag: Word, n: Number, rest: seq<Byte>)
    ensures ParseNumber(tag, Varint(n) + rest) == Parsed(NumberItem(tag, n), rest)
  {
    GetPutVarint(n, rest);
  }

  // ---- Whole edits ----

  ghost predicate EditFits(edit: WireEdit) {
    (edit.comparator.Some? ==> |edit.comparator.value| < 0x1_0000_0000) &&
    (forall c | c in edit.compactPointers :: c.0 < NUM_LEVELS && KeyFits(c.1)) &&
    PairsInOrder(edit.deletedFiles) &&
    (forall d | d in edit.deletedFiles :: d.0 < NUM_LEVELS && d.1 < 0x1_0000_0000_0000_0000) &&
    forall n | n in edit.newFiles :: n.0 < NUM_LEVELS && KeyFits(n.1.smallest) && KeyFits(n.1.largest)
  }

  /** What a field does to the edit being read. */
  function AddItem(edit: WireEdit, item: Item): WireEdit {
    match item
    case Comparator(name) => edit.(comparator := Some(name))
    case LogNumber(n) => edit.(logNumber := Some(n))
    case PrevLogNumber(n) => edit.(prevLogNumber := Some(n))
    case NextFileNumber(n) => edit.(nextFileNumber := Some(n))
    case LastSequence(n) => edit.(lastSequence := Some(n))
    case CompactPointer(level, key) => edit.(compactPointers := edit.compactPointers + [(level, key)])
    case DeletedFile(level, number) => edit.(deletedFiles := InsertPair(edit.deletedFiles, (level, number)))
    case NewFile(level, f) => edit.(newFiles := edit.newFiles + [(level, f)])
  }

  function AddItems(edit: WireEdit, items: seq<Item>): WireEdit {
    if |items| == 0 then edit else AddItem(AddItems(edit, items[..|items| - 1]), items[|items| - 1])
  }

  function NumberField(tag: Word, n: Option<Number>): seq<Item> {
    if n.Some? then [NumberItem(tag, n.value)] else []
  }

  function PointerItems(pointers: seq<(nat, seq<Byte>)>): seq<Item> {
    seq(|pointers|, i requires 0 <= i < |pointers| => CompactPointer(pointers[i].0, pointers[i].1))
  }

  function DeletedItems(files: seq<(nat, nat)>): seq<Item> {
    seq(|files|, i requires 0 <= i < |files| => DeletedFile(files[i].0, files[i].1))
  }

  function FileItems(files: seq<(nat, FileMeta)>): seq<Item> {
    seq(|files|, i requires 0 <= i < |files| => NewFile(files[i].0, files[i].1))
  }

  function NameItems(name: Option<seq<Byte>>): seq<Item> { if name.Some? then [Comparator(name.value)] else [] }

  function HeadItems(edit: WireEdit): seq<Item> {
    NameItems(edit.comparator) + NumberField(LOG_NUMBER, edit.logNumber) +
      NumberField(PREV_LOG_NUMBER, edit.prevLogNumber) +
    NumberField(NEXT_FILE_NUMBER, edit.nextFileNumber) + NumberField(LAST_SEQUENCE, edit.lastSequence)
  }

  /** The fields of an edit in the order they are written. */
  function Items(edit: WireEdit): seq<Item> {
    HeadItems(edit) + PointerItems(edit.compactPointers) + DeletedItems(edit.deletedFiles) + FileItems(edit.newFiles)
  }

  lemma {:induction false} AddAppend(edit: WireEdit, a: seq<Item>, b: seq<Item>)
    ensures AddItems(edit, a + b) == AddItems(AddItems(edit, a), b)
  {
    if |b| == 0 {
      assert a + b == a;
    } else {
      var n := |b| - 1;
      AddAppend(edit, a, b[..n]);
      assert (a + b)[..|a + b| - 1] == a + b[..n];
    }
  }

  function AddField(edit: WireEdit, items: seq<Item>): WireEdit
    requires |items| <= 1
  {
    if |items| == 0 then edit else AddItem(edit, items[0])
  }

  lemma {:induction false} AddThenField(items: seq<Item>, field: seq<Item>)
    requires |field| <= 1
    ensures AddItems(CLEAR, items + field) == AddField(AddItems(CLEAR, items), field)
  {
    AddAppend(CLEAR, items, field);
    AddOne(AddItems(CLEAR, items), field);
  }

  lemma {:induction false} AddHead(edit: WireEdit)
    ensures AddItems(CLEAR, HeadItems(edit)) == edit.(compactPointers := [], deletedFiles := [], newFiles := [])
  {
    var a, b, c := NameItems(edit.comparator), NumberField(LOG_NUMBER, edit.logNumber),
      NumberField(PREV_LOG_NUMBER, edit.prevLogNumber);
    var d, e := NumberField(NEXT_FILE_NUMBER, edit.nextFileNumber), NumberField(LAST_SEQUENCE, edit.lastSequence);
    AddOne(CLEAR, a);
    AddThenField(a, b);
    AddThenField(a + b, c);
    AddThenField(a + b + c, d);
    AddThenField(a + b + c + d, e);
    HeadFields(edit);
  }

  /** Setting the fields of the head one after another. */
  lemma {:induction false} HeadFields(edit: WireEdit)
    ensures AddField(AddField(AddField(AddField(AddField(CLEAR, NameItems(edit.comparator)),
      NumberField(LOG_NUMBER, edit.logNumber)),
              NumberField(PREV_LOG_NUMBER, edit.prevLogNumber)), NumberField(NEXT_FILE_NUMBER, edit.nextFileNumber)),
              NumberField(LAST_SEQUENCE, edit.lastSequence)) ==
      edit.(compactPointers := [], deletedFiles := [], newFiles := [])
  {
  }

  lemma {:induction false} AddOne(edit: WireEdit, items: seq<Item>)
    requires |items| <= 1
    ensures AddItems(edit, items) == if |items| == 0 then edit else AddItem(edit, items[0])
  {
    if |items| == 1 {
      assert items[..0] == [];
    }
  }

  lemma {:induction false} AddPointers(edit: WireEdit, pointers: seq<(nat, seq<Byte>)>)
    ensures AddItems(edit, PointerItems(pointers)) == edit.(compactPointers := edit.compactPointers + pointers)
  {
    if |pointers| > 0 {
      var n := |pointers| - 1;
      AddPointers(edit, pointers[..n]);
      assert PointerItems(pointers)[..n] == PointerItems(pointers[..n]);
      assert pointers == pointers[..n] + [pointers[n]];
    } else {
      assert edit.compactPointers + pointers == edit.compactPointers;
    }
  }

  lemma {:induction false} AddDeleted(edit: WireEdit, files: seq<(nat, nat)>)
    requires edit.deletedFiles == [] && PairsInOrder(files)
    ensures AddItems(edit, DeletedItems(files)) == edit.(deletedFiles := files)
  {
    if |files| > 0 {
      var n := |files| - 1;
      AddDeleted(edit, files[..n]);
      assert DeletedItems(files)[..n] == DeletedItems(files[..n]);
      InsertLast(files);
    }
  }

  lemma {:induction false} InsertLast(files: seq<(nat, nat)>)
    requires PairsInOrder(files) && |files| > 0
    ensures InsertPair(files[..|files| - 1], files[|files| - 1]) == files
  {
    var n := |files| - 1;
    assert files == files[..n] + [files[n]];
    InsertPairLast(files[..n], files[n]);
  }

  lemma {:induction false} AddNewFiles(edit: WireEdit, files: seq<(nat, FileMeta)>)
    ensures AddItems(edit, FileItems(files)) == edit.(newFiles := edit.newFiles + files)
  {
    if |files| > 0 {
      var n := |files| - 1;
      AddNewFiles(edit, files[..n]);
      assert FileItems(files)[..n] == FileItems(files[..n]);
      assert files == files[..n] + [files[n]];
    } else {
      assert edit.newFiles + files == edit.newFiles;
    }
  }

  /** An edit is the sum of its fields. */
  lemma {:induction false} AddAllItems(edit: WireEdit)
    requires PairsInOrder(edit.deletedFiles)
    ensures AddItems(CLEAR, Items(edit)) == edit
  {
    var a, b, c, d := HeadItems(edit), PointerItems(edit.compactPointers), DeletedItems(edit.deletedFiles),
      FileItems(edit.newFiles);
    AddAppend(CLEAR, a + b + c, d);
    AddAppend(CLEAR, a + b, c);
    AddAppend(CLEAR, a, b);
    AddHead(edit);
    AddPointers(AddItems(CLEAR, a), edit.compactPointers);
    AddDeleted(AddItems(CLEAR, a + b), edit.deletedFiles);
    AddNewFiles(AddItems(CLEAR, a + b + c), edit.newFiles);
  }

  // ---- Decoding ----

  datatype Decoded = Ok(edit: WireEdit) | Corruption(what: string)

  /** Reads fields until none is left. */
  function Decode(input: seq<Byte>, edit: WireEdit): Decoded
    decreases |input|
  {
    var tag := GetVarint32(input);
    if tag.None? then
      if |input| > 0 then Corruption("invalid tag") else Ok(edit)
    else
      var item := ParseItem(tag.value.0, tag.value.1);
      if item.Malformed? then Corruption(item.what) else Decode(item.rest, AddItem(edit, item.item))
  }

  method DecodeFrom(src: seq<Byte>) returns (r: Decoded)
    ensures r == Decode(src, CLEAR)
  {
    var input, edit := src, CLEAR;
    while true
      invariant Decode(input, edit) == Decode(src, CLEAR)
      decreases |input|
    {
      var tag := GetVarint32(input);
      if tag.None? {
        break;
      }
      var item := ParseItem(tag.value.0, tag.value.1);
      if item.Malformed? {
        return Corruption(item.what);
      }
      input, edit := item.rest, AddItem(edit, item.item);
    }
    r := if |input| > 0 then Corruption("invalid tag") else Ok(edit);
  }

  lemma {:induction false} DecodeItems(items: seq<Item>, edit: WireEdit)
    requires forall i | i in items :: ItemOk(i)
    ensures Decode(EncodeItems(items), edit) == Ok(AddItems(edit, items))
    decreases |items|
  {
    if |items| > 0 {
      var item, rest := items[0], EncodeItems(items[1..]);
      assert EncodeItems(items) == Varint(TagOf(item)) + (Body(item) + rest);
      GetPutVarint(TagOf(item), Body(item) + rest);
      ParseBody(item, rest);
      DecodeItems(items[1..], AddItem(edit, item));
      assert items == [item] + items[1..];
      AddAppend(edit, [item], items[1..]);
      AddOne(edit, [item]);
    }
  }

  lemma {:induction false} ItemsOk(edit: WireEdit)
    requires EditFits(edit)
    ensures forall i | i in Items(edit) :: ItemOk(i)
  {
    forall i | i in Items(edit) ensures ItemOk(i) {
      if i in PointerItems(edit.compactPointers) {
        var k :| 0 <= k < |edit.compactPointers| && PointerItems(edit.compactPointers)[k] == i;
        assert edit.compactPointers[k] in edit.compactPointers;
      } else if i in DeletedItems(edit.deletedFiles) {
        var k :| 0 <= k < |edit.deletedFiles| && DeletedItems(edit.deletedFiles)[k] == i;
        assert edit.deletedFiles[k] in edit.deletedFiles;
      } else if i in FileItems(edit.newFiles) {
        var k :| 0 <= k < |edit.newFiles| && FileItems(edit.newFiles)[k] == i;
        assert edit.newFiles[k] in edit.newFiles;
      }
    }
  }

  function Encode(edit: WireEdit): seq<Byte> { EncodeItems(Items(edit)) }

  /** Every edit reads back as it was written. */
  lemma {:induction false} DecodeEncode(edit: WireEdit)
    requires EditFits(edit)
    ensures Decode(Encode(edit), CLEAR) == Ok(edit)
  {
    ItemsOk(edit);
    DecodeItems(Items(edit), CLEAR);
    AddAllItems(edit);
  }

  // ---- Encoding ----

  lemma {:induction false} EncodeFirst(item: Item, rest: seq<Item>)
    ensures EncodeItems([item] + rest) == EncodeItem(item) + EncodeItems(rest)
  {
    assert ([item] + rest)[1..] == rest;
  }

  lemma {:induction false} EncodeAppend(a: seq<Item>, b: seq<Item>)
    ensures EncodeItems(a + b) == EncodeItems(a) + EncodeItems(b)
  {
    if |a| == 0 {
      assert a + b == b;
    } else {
      var item, rest := a[0], a[1..];
      assert a == [item] + rest && a + b == [item] + (rest + b);
      EncodeAppend(rest, b);
      EncodeFirst(item, rest);
      EncodeFirst(item, rest + b);
      Regroup(EncodeItem(item), EncodeItems(rest), EncodeItems(b));
    }
  }

  lemma {:induction false} EncodeOne(item: Item)
    ensures EncodeItems([item]) == EncodeItem(item)
  {
    EncodeFirst(item, []);
    assert [item] + [] == [item];
  }

  lemma {:induction false} EncodeNext(items: seq<Item>, i: nat)
    requires i < |items|
    ensures EncodeItems(items[..i + 1]) == EncodeItems(items[..i]) + EncodeItem(items[i])
  {
    EncodeAppend(items[..i], [items[i]]);
    EncodeOne(items[i]);
    assert items[..i + 1] == items[..i] + [items[i]];
  }

  /** Writes one field. */
  method PutItem(dst: seq<Byte>, item: Item) returns (r: seq<Byte>)
    requires ItemOk(item)
    ensures r == dst + EncodeItem(item)
  {
    Regroup(dst, Varint(TagOf(item)), Body(item));
    r := PutVarint32(dst, TagOf(item));
    var body := PutBody(item);
    r := r + body;
  }

  method PutBody(item: Item) returns (r: seq<Byte>)
    requires ItemOk(item)
    ensures r == Body(item)
  {
    match item {
      case Comparator(name) => r := PutLengthPrefixedSlice([], name);
      case LogNumber(n) => r := PutVarint64([], n);
      case PrevLogNumber(n) => r := PutVarint64([], n);
      case NextFileNumber(n) => r := PutVarint64([], n);
      case LastSequence(n) => r := PutVarint64([], n);
      case CompactPointer(level, key) =>
        r := PutVarint32([], level);
        r := PutLengthPrefixedSlice(r, key);
      case DeletedFile(level, number) =>
        r := PutVarint32([], level);
        r := PutVarint64(r, number);
      case NewFile(level, f) =>
        r := PutVarint32([], level);
        r := PutFile(r, f);
    }
  }

  method PutFile(dst: seq<Byte>, f: FileMeta) returns (r: seq<Byte>)
    requires KeyFits(f.smallest) && KeyFits(f.largest)
    ensures r == dst + EncodeFile(f)
  {
    var a, b, c, d := Varint(f.number), Varint(f.size), LengthPrefixed(f.smallest), LengthPrefixed(f.largest);
    Regroup(dst, a, b + (c + d));
    Regroup(dst + a, b, c + d);
    Regroup(dst + a + b, c, d);
    r := PutVarint64(dst, f.number);
    r := PutVarint64(r, f.size);
    r := PutLengthPrefixedSlice(r, f.smallest);
    r := PutLengthPrefixedSlice(r, f.largest);
  }

  /** Writes the fields that are set, then the pointers, the deleted files and the new files. */
  method EncodeTo(edit: WireEdit) returns (dst: seq<Byte>)
    requires EditFits(edit)
    ensures dst == Encode(edit)
  {
    ItemsOk(edit);
    var items := Items(edit);
    dst := [];
    for i := 0 to |items|
      invariant dst == EncodeItems(items[..i])
    {
      EncodeNext(items, i);
      dst := PutItem(dst, items[i]);
    }
    assert items[..|items|] == items;
  }
}
