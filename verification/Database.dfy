/** The database object: each operation is one or more steps of the state machine. */
module Database {
  import opened Format
  import opened Tree
  import opened Iterators
  import opened DbIter
  import opened Compaction
  import opened Drop
  import opened Cuts
  import opened Versions
  import opened Install
  import opened Work
  import opened Runs
  import opened Edits
  import opened Store

  const L0_STOP_WRITES_TRIGGER: nat := 12
  const MAX_GROUP_BYTES: nat := 0x10_0000
  const SMALL_WRITE_BYTES: nat := 0x2_0000

  /** A thread waiting to write; no batch asks for the memtable to be flushed. */
  datatype Writer = Writer(batch: Option<seq<Op>>, sync: bool)

  datatype Options = Options(
    writeBufferSize: nat, maxFileSize: nat,
    batchSize: seq<Op> -> nat, memoryUsage: seq<Entry> -> nat, tableSize: seq<Entry> -> nat)

  // ---- Groups of writers ----

  function OpsOf(w: Writer): seq<Op> { if w.batch.Some? then w.batch.value else [] }

  /** Everything the writers want written, in queue order. */
  function GroupOps(ws: seq<Writer>): seq<Op> {
    if |ws| == 0 then [] else GroupOps(ws[..|ws| - 1]) + OpsOf(ws[|ws| - 1])
  }

  function GroupBytes(ws: seq<Writer>, batchSize: seq<Op> -> nat): nat {
    if |ws| == 0 then 0 else
      var w := ws[|ws| - 1];
      GroupBytes(ws[..|ws| - 1], batchSize) + if w.batch.Some? then batchSize(w.batch.value) else 0
  }

  /** How large the group of a small leading write may get. */
  function MaxBytes(first: nat): nat {
    if first <= SMALL_WRITE_BYTES then first + SMALL_WRITE_BYTES else MAX_GROUP_BYTES
  }

  /** Writer n may join the writers before it: no synced write behind an unsynced leader, and the group stays within a
      mebibyte, or, behind a leader of at most 128 kibibytes, within as much again over its size. */
  ghost predicate Joins(ws: seq<Writer>, n: nat, batchSize: seq<Op> -> nat)
    requires 0 < n < |ws|
  {
    !(ws[n].sync && !ws[0].sync) &&
    (ws[n].batch.Some? ==>
      var first := GroupBytes(ws[..1], batchSize);
      GroupBytes(ws[..n + 1], batchSize) <= if first <= 131072 then first + 131072 else 1048576)
  }

  /** The first n writers are the longest prefix in which each joins those before it. */
  ghost predicate IsGroup(ws: seq<Writer>, n: nat, batchSize: seq<Op> -> nat) {
    0 < n <= |ws| && (forall k | 0 < k < n :: Joins(ws, k, batchSize)) && (n < |ws| ==> !Joins(ws, n, batchSize))
  }

  lemma {:induction false} OneMore(ws: seq<Writer>, n: nat, batchSize: seq<Op> -> nat)
    requires n < |ws|
    ensures GroupOps(ws[..n + 1]) == GroupOps(ws[..n]) + OpsOf(ws[n])
    ensures GroupBytes(ws[..n + 1], batchSize) ==
      GroupBytes(ws[..n], batchSize) + if ws[n].batch.Some? then batchSize(ws[n].batch.value) else 0
  {
    assert ws[..n + 1][..n] == ws[..n];
  }

  /** Collects the batches of the writers behind the first one, as far as they may join. */
  method BuildBatchGroup(ws: seq<Writer>, batchSize: seq<Op> -> nat) returns (ops: seq<Op>, n: nat)
    requires |ws| > 0 && ws[0].batch.Some?
    ensures IsGroup(ws, n, batchSize) && ops == GroupOps(ws[..n])
  {
    var first := ws[0];
    ops := first.batch.value;
    var size := batchSize(first.batch.value);
    var maxSize := MaxBytes(size);
    OneMore(ws, 0, batchSize);
    n := 1;
    while n < |ws|
      invariant 0 < n <= |ws| && forall k | 0 < k < n :: Joins(ws, k, batchSize)
      invariant size == GroupBytes(ws[..n], batchSize) && ops == GroupOps(ws[..n])
    {
      var w := ws[n];
      OneMore(ws, n, batchSize);
      if w.sync && !first.sync {
        break;
      }
      if w.batch.Some? {
        size := size + batchSize(w.batch.value);
        if size > maxSize {
          break;
        }
        ops := ops + w.batch.value;
      }
      n := n + 1;
    }
  }

  lemma {:induction false} GroupOpsSplit(ws: seq<Writer>, n: nat)
    requires n <= |ws|
    ensures GroupOps(ws) == GroupOps(ws[..n]) + GroupOps(ws[n..])
  {
    if n == |ws| {
      assert ws[..n] == ws;
    } else {
      var m := |ws| - 1;
      GroupOpsSplit(ws[..m], n);
      assert ws[..m][..n] == ws[..n] && ws[..m][n..] == ws[n..][..m - n];
    }
  }

  // ---- Writing to the memtable ----

  lemma {:induction false} BatchSplit(ops: seq<Op>, n: nat)
    requires n <= |ops| <= MAX_SEQUENCE
    ensures BatchEntries(ops, 0) == BatchEntries(ops[..n], 0) + BatchEntries(ops[n..], n)
  {
  }

  /** Writing the first of the waiting operations. */
  lemma {:induction false} TakeOps(submitted: seq<Op>, last: nat, ops: seq<Op>, rest: seq<Op>)
    requires last <= |submitted| < MAX_SEQUENCE && submitted[last..] == ops + rest
    ensures last + |ops| <= |submitted| && submitted[last + |ops|..] == rest
    ensures BatchEntries(submitted[..last + |ops|], 0) == BatchEntries(submitted[..last], 0) + BatchEntries(ops, last)
  {
    assert submitted[last..][..|ops|] == ops && submitted[last..][|ops|..] == rest;
    BatchSplit(submitted[..last + |ops|], last);
    assert submitted[..last + |ops|][..last] == submitted[..last];
    assert submitted[..last + |ops|][last..] == ops;
  }

  /** Adds the operations one by one under consecutive sequence numbers. */
  method InsertInto(mem: seq<Entry>, ops: seq<Op>, last: Sequence) returns (mem': seq<Entry>)
    requires Sorted(mem) && last + |ops| <= MAX_SEQUENCE && forall e | e in EntrySet(mem) :: e.key.sn <= last
    ensures Sorted(mem') && EntrySet(mem') == EntrySet(mem) + EntrySet(BatchEntries(ops, last))
  {
    mem' := mem;
    for i := 0 to |ops|
      invariant Sorted(mem') && EntrySet(mem') == EntrySet(mem) + EntrySet(BatchEntries(ops[..i], last))
    {
      var e := EntryOf(ops[i], last + i + 1);
      assert BatchEntries(ops[..i + 1], last) == BatchEntries(ops[..i], last) + [e];
      InsertSorted(mem', e);
      mem' := Insert(mem', e);
    }
    assert ops[..|ops|] == ops;
  }

  /** The memtable with a group of operations added. */
  method WrittenMem(ghost s: State, mem: seq<Entry>, ops: seq<Op>, last: Sequence) returns (mem': seq<Entry>)
    requires Reachable(s) && s.mem == mem && s.last == last && last + |ops| < MAX_SEQUENCE
    ensures Next(s, Action.Write(ops),
      s.(mem := mem', last := last + |ops|, history := s.history + BatchEntries(ops, last)))
  {
    ReachableOk(s);
    mem' := InsertInto(mem, ops, last);
  }

  // ---- Runs of the state machine ----

  lemma {:induction false} RunExtends(states: seq<State>, actions: seq<Action>, a: Action, s: State)
    requires Run(states, actions) && Next(states[|actions|], a, s)
    ensures Run(states + [s], actions + [a])
  {
    var states', actions' := states + [s], actions + [a];
    forall i | 0 <= i < |actions'| ensures Next(states'[i], actions'[i], states'[i + 1]) {
      if i < |actions| { assert Next(states[i], actions[i], states[i + 1]); }
    }
  }

  /** Memtables before the tree: the first that holds a visible entry answers. */
  lemma {:induction false} ReadPath(s: State, user: int, snapshot: Sequence, m: SaverState, i: SaverState,
                                    t: SaverState, r: SaverState)
    requires WellFormed(s)
    requires Resolves(EntrySet(s.mem), user, snapshot, m)
    requires m.NotFound? ==> Resolves(ImmData(s), user, snapshot, i)
    requires m.NotFound? && i.NotFound? ==> Resolves(TreeData(s.levels), user, snapshot, t)
    requires r == if !m.NotFound? then m else if !i.NotFound? then i else t
    ensures Resolves(Data(s), user, snapshot, r)
  {
    var mem, imm, tree := EntrySet(s.mem), ImmData(s), TreeData(s.levels);
    assert Data(s) == mem + (imm + tree);
    NewerUnion(imm, tree, mem);
    if !m.NotFound? {
      ResolvesFirst(mem, imm + tree, user, snapshot, r);
    } else {
      if !i.NotFound? {
        ResolvesFirst(imm, tree, user, snapshot, r);
      } else {
        ResolvesSecond(imm, tree, user, snapshot, r);
      }
      ResolvesSecond(mem, imm + tree, user, snapshot, r);
    }
  }

  function ReplyOf(r: SaverState): Option<string> { if r.Found? then Some(r.value) else None }

  /** What a search that resolves the data answers is what a read of the data means. */
  lemma {:induction false} ResolvesIsRead(data: set<Entry>, user: int, snapshot: nat, r: SaverState)
    requires Distinct(data) && Resolves(data, user, snapshot, r)
    ensures ReplyOf(r) == Read(data, user, snapshot)
  {
    if r.NotFound? {
      ReadAbsent(data, user, snapshot);
    } else {
      var e :| IsNewest(data, user, snapshot, e) && StateOf(e) == r;
      ReadNewest(data, user, snapshot, e);
    }
  }

  /** The view lists exactly the keys that have a value in the plain history, in increasing order. */
  ghost predicate Shows(view: seq<(int, string)>, history: seq<Entry>, snapshot: nat) {
    (forall i, j | 0 <= i < j < |view| :: view[i].0 < view[j].0) &&
    forall user: int, value: string :: (user, value) in view <==> HistoryRead(history, user, snapshot) == Some(value)
  }

  lemma {:induction false} ViewShows(s: State, merged: seq<Entry>, snapshot: nat)
    requires WellFormed(s) && Faithful(s) && snapshot >= Oldest(s) && Sorted(merged) && EntrySet(merged) == Data(s)
    ensures Shows(View(merged, snapshot), s.history, snapshot)
  {
    DataDistinct(s);
    ViewSorted(merged, snapshot, |merged|);
    forall user: int, value: string
      ensures (user, value) in View(merged, snapshot) <==> HistoryRead(s.history, user, snapshot) == Some(value)
    {
      ViewIsRead(merged, snapshot, user, value);
    }
  }

  lemma {:induction false} DataOfReachable(s: State)
    requires Reachable(s)
    ensures Distinct(Data(s))
  {
    ReachableOk(s);
    DataDistinct(s);
  }

  /** The sorted runs of a version and its memtables. */
  method InternalRuns(ghost s: State, mem: seq<Entry>, imm: Option<seq<Entry>>, levels: Levels)
    returns (runs: seq<seq<Entry>>)
    requires Reachable(s) && s.mem == mem && s.imm == imm && s.levels == levels
    ensures RunsOf(runs, Data(s))
  {
    ReachableOk(s);
    UpperApart(s);
    runs := [];
    AddSide(runs, {}, mem);
    runs := runs + [mem];
    assert {} + EntrySet(mem) == EntrySet(mem);
    if imm.Some? {
      AddSide(runs, EntrySet(mem), imm.value);
      runs := runs + [imm.value];
    }
    assert imm.None? ==> EntrySet(mem) + ImmData(s) == EntrySet(mem);
    runs := AddIterators(levels, runs, Upper(s));
  }

  /** The memtables share nothing with each other or with the tree. */
  lemma {:induction false} UpperApart(s: State)
    requires MemOk(s)
    ensures EntrySet(s.mem) !! ImmData(s) && Upper(s) !! TreeData(s.levels)
  {
  }

  datatype Request = SizeCompaction(level: nat) | SeekCompaction(level: nat, index: nat)
    | ManualCompaction(level: nat, begin: Option<int>, end: Option<int>)

  /** What a background thread may be asked for in a version. */
  ghost predicate CanServe(levels: Levels, request: Request) {
    |levels| == NUM_LEVELS && request.level + 1 < NUM_LEVELS &&
    match request
    case SizeCompaction(level) => |levels[level]| > 0
    case SeekCompaction(level, index) => index < |levels[level]|
    case ManualCompaction(_, _, _) => true
  }

  /** What a request starts from: the file after the pointer, the file that was read in vain too often, or a range. */
  ghost predicate PickedBy(levels: Levels, request: Request, pointer: Option<Key>, maxFileSize: nat,
                           picked: seq<File>) {
    CanServe(levels, request) &&
    match request
    case SizeCompaction(level) =>
      exists k: nat :: NextFile(levels[level], pointer, k) && FilePicked(levels, level, k, picked)
    case SeekCompaction(level, index) => FilePicked(levels, level, index, picked)
    case ManualCompaction(level, begin, end) => RangePicked(levels[level], level, begin, end, maxFileSize, picked)
  }

  /** Inputs for the request, closed; none only if a manual compaction's range is empty. */
  ghost predicate Chose(levels: Levels, request: Request, pointer: Option<Key>, maxFileSize: nat, c: Option<Inputs>,
                        i: nat, j: nat) {
    |levels| == NUM_LEVELS && request.level + 1 < NUM_LEVELS &&
    if c.None? then
      request.ManualCompaction? && forall f | f in levels[request.level] :: !Overlaps(f, request.begin, request.end)
    else ChoseInputs(levels, request, pointer, maxFileSize, c.value, i, j)
  }

  ghost predicate ChoseInputs(levels: Levels, request: Request, pointer: Option<Key>, maxFileSize: nat, c: Inputs,
                              i: nat, j: nat) {
    |levels| == NUM_LEVELS && request.level + 1 < NUM_LEVELS && c.level == request.level &&
    Chosen(levels, request.level, c.in0, c.in1, i, j) &&
    GrandparentsOf(levels, request.level, c.in0 + c.in1, c.grandparents) &&
    exists picked :: PickedBy(levels, request, pointer, maxFileSize, picked) &&
      SetUp(levels, request.level, picked, 25 * maxFileSize, c.in0, c.in1)
  }

  /** A single file that nothing below has to be merged with, and that overlaps little two levels down, need not be
      rewritten. A manual request never only moves a file. */
  predicate TrivialMove(request: Request, c: Inputs, maxFileSize: nat) {
    !request.ManualCompaction? && |c.in0| == 1 && |c.in1| == 0 && TotalFileSize(c.grandparents) <= 10 * maxFileSize
  }

  /** The outputs of a compaction of these inputs. */
  ghost predicate Compacts(levels: Levels, c: Inputs, smallestSnapshot: nat, nextFile: nat, options: Options,
                           input: seq<Entry>, outs: seq<File>) {
    Sorted(input) && EntrySet(input) == InputData(c.in0, c.in1) &&
    Thinned(outs, Cutting(c.grandparents, 10 * options.maxFileSize, options.maxFileSize, options.tableSize, input),
      smallestSnapshot, levels, c.level, nextFile)
  }

  /** The compaction of these inputs. */
  ghost predicate CompactedBy(levels: Levels, c: Inputs, smallestSnapshot: nat, nextFile: nat, options: Options,
                              a: Action) {
    exists input, outs :: a == Compact(c.level, c.in0, c.in1, input, outs) &&
      Compacts(levels, c, smallestSnapshot, nextFile, options, input, outs)
  }

  ghost predicate DoneWith(s: State, request: Request, options: Options, c: Inputs, a: Action) {
    if TrivialMove(request, c, options.maxFileSize) then a == Move(c.level, c.in0[0])
    else CompactedBy(s.levels, c, Oldest(s), s.nextFile, options, a)
  }

  /** What is left of a manual compaction's range begins where the files taken end. */
  function RestOf(request: Request, c: Inputs): Option<Request>
    requires |c.in0| > 0
  {
    if request.ManualCompaction? then Some(request.(begin := Some(c.in0[|c.in0| - 1].largest.user))) else None
  }

  /** How a request is answered: with a step that takes the files asked for, and moves the level's pointer behind them;
      with nothing exactly if a manual compaction's range is empty. */
  ghost predicate Served(s: State, request: Request, pointers: seq<Option<Key>>, options: Options, a: Option<Action>,
                         pointers': seq<Option<Key>>, rest: Option<Request>) {
    |pointers| == NUM_LEVELS && request.level < NUM_LEVELS &&
    exists c: Option<Inputs>, i: nat, j: nat ::
      Chose(s.levels, request, pointers[request.level], options.maxFileSize, c, i, j) &&
      (c.None? ==> a.None? && pointers' == pointers && rest.None?) &&
      (c.Some? ==> a.Some? && DoneWith(s, request, options, c.value, a.value)) &&
      (c.Some? ==> Asked(s.levels, request, pointers, options.maxFileSize, c.value, pointers')) &&
      (c.Some? ==> |c.value.in0| > 0 && rest == RestOf(request, c.value))
  }

  ghost predicate Asked(levels: Levels, request: Request, pointers: seq<Option<Key>>, maxFileSize: nat, c: Inputs,
                        pointers': seq<Option<Key>>) {
    |pointers| == NUM_LEVELS && request.level < NUM_LEVELS &&
    TakesAsked(levels, request, pointers[request.level], maxFileSize, c.in0) &&
    MovedBehind(pointers, pointers', request.level, c.in0)
  }

  /** The level's pointer has moved to the largest key of the files; the others have stayed. */
  ghost predicate MovedBehind(pointers: seq<Option<Key>>, pointers': seq<Option<Key>>, level: nat, files: seq<File>) {
    level < |pointers| && exists key :: IsLargest(files, key) && pointers' == pointers[level := Some(key)]
  }

  /** The files that were asked for are among those taken. */
  ghost predicate TakesAsked(levels: Levels, request: Request, pointer: Option<Key>, maxFileSize: nat,
                             taken: seq<File>) {
    CanServe(levels, request) &&
    match request
    case SizeCompaction(level) => exists k: nat :: NextFile(levels[level], pointer, k) && levels[level][k] in taken
    case SeekCompaction(level, index) => levels[level][index] in taken
    case ManualCompaction(level, begin, end) =>
      if level == 0 then forall f | f in levels[0] && Overlaps(f, begin, end) :: f in taken
      else exists first ::
        UpTo(Overlapping(levels[level], begin, end), maxFileSize, first) && forall f | f in first :: f in taken
  }

  lemma {:induction false} FilePickedHolds(levels: Levels, level: nat, k: nat, picked: seq<File>)
    requires ShapeOk(levels) && level < NUM_LEVELS && k < |levels[level]| && FilePicked(levels, level, k, picked)
    ensures levels[level][k] in picked && forall f | f in picked :: f in levels[level]
  {
    FilesSpan(levels[level]);
    var f := levels[level][k];
    assert SpanOk(f);
    if level == 0 {
      ScannedHolds(levels[0], 0, Some(f.smallest.user), Some(f.largest.user), picked);
      ScannedFiles(levels[0], 0, Some(f.smallest.user), Some(f.largest.user), picked);
    }
  }

  lemma {:induction false} ScannedFiles(files: seq<File>, level: nat, lo: Option<int>, hi: Option<int>, r: seq<File>)
    requires Scanned(files, level, lo, hi, r)
    ensures forall f | f in r :: f in files
  {
    if level > 0 {
      OverlappingMembers(files, lo, hi);
    } else {
      var ub, ue :| Forced(files, ub, ue, lo, hi) && ZeroRange(files, r, ub, ue);
      OverlappingMembers(files, ub, ue);
    }
  }

  lemma {:induction false} RangePickedHolds(levels: Levels, level: nat, begin: Option<int>, end: Option<int>,
                                            limit: nat, picked: seq<File>)
    requires ShapeOk(levels) && level < NUM_LEVELS && RangePicked(levels[level], level, begin, end, limit, picked)
    ensures |picked| > 0 && forall f | f in picked :: f in levels[level]
    ensures level == 0 ==> forall f | f in levels[0] && Overlaps(f, begin, end) :: f in picked
  {
    FilesSpan(levels[level]);
    if level == 0 {
      ScannedHolds(levels[0], 0, begin, end, picked);
      ScannedFiles(levels[0], 0, begin, end, picked);
    } else {
      OverlappingMembers(levels[level], begin, end);
    }
  }

  lemma {:induction false} AskedTaken(levels: Levels, request: Request, pointer: Option<Key>, maxFileSize: nat,
                                      c: Inputs, i: nat, j: nat)
    requires ShapeOk(levels) && ChoseInputs(levels, request, pointer, maxFileSize, c, i, j)
    ensures TakesAsked(levels, request, pointer, maxFileSize, c.in0)
  {
    var level := request.level;
    var picked :| PickedBy(levels, request, pointer, maxFileSize, picked) &&
      SetUp(levels, level, picked, 25 * maxFileSize, c.in0, c.in1);
    match request {
      case SizeCompaction(_) =>
        var k: nat :| NextFile(levels[level], pointer, k) && FilePicked(levels, level, k, picked);
        FilePickedHolds(levels, level, k, picked);
      case SeekCompaction(_, index) => FilePickedHolds(levels, level, index, picked);
      case ManualCompaction(_, begin, end) => RangePickedHolds(levels, level, begin, end, maxFileSize, picked);
    }
    SetUpHolds(levels, level, picked, 25 * maxFileSize, c.in0, c.in1);
  }

  /** The inputs for a request. */
  method ChooseFor(levels: Levels, request: Request, pointer: Option<Key>, maxFileSize: nat)
    returns (c: Option<Inputs>, ghost i: nat, ghost j: nat)
    requires ShapeOk(levels) && CanServe(levels, request)
    ensures Chose(levels, request, pointer, maxFileSize, c, i, j)
  {
    var level := request.level;
    ghost var picked;
    if request.ManualCompaction? {
      c, i, j, picked := CompactRange(levels, level, request.begin, request.end, maxFileSize);
    } else {
      var k;
      if request.SizeCompaction? {
        k := FileAfterPointer(levels[level], pointer);
      } else {
        k := request.index;
      }
      var inputs;
      inputs, i, j, picked := PickCompaction(levels, level, k, maxFileSize);
      c := Some(inputs);
    }
    assert c.Some? ==> PickedBy(levels, request, pointer, maxFileSize, picked);
  }

  /** The inputs for a request, and the pointers moved behind them. */
  method InputsFor(ghost s: State, levels: Levels, request: Request, pointers: seq<Option<Key>>, maxFileSize: nat)
    returns (c: Option<Inputs>, pointers': seq<Option<Key>>, ghost i: nat, ghost j: nat)
    requires Reachable(s) && s.levels == levels && CanServe(levels, request) && |pointers| == NUM_LEVELS
    ensures Chose(levels, request, pointers[request.level], maxFileSize, c, i, j) && |pointers'| == NUM_LEVELS
    ensures c.None? ==> pointers' == pointers
    ensures c.Some? ==> Asked(levels, request, pointers, maxFileSize, c.value, pointers') && |c.value.in0| > 0
  {
    ReachableTree(s);
    pointers' := pointers;
    c, i, j := ChooseFor(levels, request, pointers[request.level], maxFileSize);
    if c.Some? {
      AskedTaken(levels, request, pointers[request.level], maxFileSize, c.value, i, j);
      pointers' := PointBehind(pointers, request.level, c.value.in0);
    }
  }

  method PointBehind(pointers: seq<Option<Key>>, level: nat, files: seq<File>) returns (pointers': seq<Option<Key>>)
    requires level < |pointers| && |files| > 0
    ensures MovedBehind(pointers, pointers', level, files) && |pointers'| == |pointers|
  {
    var smallest, largest := GetRange(files);
    assert IsLargest(files, largest);
    pointers' := pointers[level := Some(largest)];
  }

  /** The tree with one file moved down a level. */
  method MovedTree(ghost s: State, levels: Levels, level: nat, file: File, ghost i: nat, ghost j: nat)
    returns (v: Levels)
    requires Reachable(s) && s.levels == levels && |levels| == NUM_LEVELS
    requires level + 1 < NUM_LEVELS && Chosen(levels, level, [file], [], i, j)
    ensures Next(s, Move(level, file), s.(levels := v)) && |v| == NUM_LEVELS
  {
    ReachableTree(s);
    ChosenClosed(levels, level, [file], [], i, j);
    MovedNumber(levels, s.nextFile, level, file);
    v := InstallCompactionResults(levels, level, [file], [], [file]);
  }

  /** The tree with the inputs of a compaction merged, thinned out and cut into new files. */
  method CompactedTree(ghost s: State, levels: Levels, c: Inputs, smallestSnapshot: Sequence, nextFile: nat,
                       options: Options, ghost i: nat, ghost j: nat)
    returns (outs: seq<File>, v: Levels, ghost merged: seq<Entry>)
    requires Reachable(s) && s.levels == levels && |levels| == NUM_LEVELS && s.nextFile == nextFile
    requires smallestSnapshot == Oldest(s)
    requires c.level + 1 < NUM_LEVELS && Chosen(levels, c.level, c.in0, c.in1, i, j)
    ensures Next(s, Compact(c.level, c.in0, c.in1, merged, outs), s.(levels := v, nextFile := nextFile + |outs|)) &&
      |v| == NUM_LEVELS
    ensures Compacts(levels, c, smallestSnapshot, nextFile, options, merged, outs)
  {
    CompactionReady(s, c, i, j);
    outs, merged := CompactionOutputs(levels, c, smallestSnapshot, nextFile, options);
    NewFileNumbers(levels, nextFile, c.level, outs);
    v := InstallCompactionResults(levels, c.level, c.in0, c.in1, outs);
  }

  /** The same as a step of a run. */
  method CompactStepTaken(ghost states: seq<State>, ghost actions: seq<Action>, levels: Levels, c: Inputs,
                          smallestSnapshot: Sequence, nextFile: nat, options: Options, ghost i: nat, ghost j: nat)
    returns (v: Levels, nextFile': nat, ghost a: Action, ghost s': State)
    requires Run(states, actions) && states[|actions|].levels == levels && |levels| == NUM_LEVELS
    requires states[|actions|].nextFile == nextFile && smallestSnapshot == Oldest(states[|actions|])
    requires c.level + 1 < NUM_LEVELS && Chosen(levels, c.level, c.in0, c.in1, i, j)
    ensures Run(states + [s'], actions + [a])
    ensures s' == states[|actions|].(levels := v, nextFile := nextFile')
    ensures |v| == NUM_LEVELS && CompactedBy(levels, c, smallestSnapshot, nextFile, options, a)
    ensures a.Compact? && nextFile' == nextFile + |a.outs|
  {
    ghost var s, merged := states[|actions|], [];
    assert Reachable(s);
    var outs;
    outs, v, merged := CompactedTree(s, levels, c, smallestSnapshot, nextFile, options, i, j);
    nextFile' := nextFile + |outs|;
    a := Compact(c.level, c.in0, c.in1, merged, outs);
    s' := s.(levels := v, nextFile := nextFile');
    RunExtends(states, actions, a, s');
    assert Compacts(levels, c, smallestSnapshot, nextFile, options, merged, outs);
  }

  /** What a compaction of chosen inputs relies on. */
  lemma {:induction false} CompactionReady(s: State, c: Inputs, i: nat, j: nat)
    requires Reachable(s) && |s.levels| == NUM_LEVELS && c.level + 1 < NUM_LEVELS &&
      Chosen(s.levels, c.level, c.in0, c.in1, i, j)
    ensures ShapeOk(s.levels) && LevelsInOrder(s.levels) && Numbers(s.levels, s.nextFile)
    ensures forall l | 0 <= l < NUM_LEVELS :: UniqueNumbers(s.levels[l])
    ensures Closed(s.levels, c.level, c.in0, c.in1)
    ensures RunsOf(SideRuns(c.level, c.in0) + SideRuns(c.level + 1, c.in1), InputData(c.in0, c.in1))
    ensures Distinct(InputData(c.in0, c.in1)) && Oldest(s) < MAX_SEQUENCE
  {
    ReachableTree(s);
    ChosenClosed(s.levels, c.level, c.in0, c.in1, i, j);
    ChosenRuns(s.levels, c.level, c.in0, c.in1, i, j);
  }

  /** The output files of a compaction. */
  method CompactionOutputs(levels: Levels, c: Inputs, smallestSnapshot: Sequence, nextFile: nat, options: Options)
    returns (outs: seq<File>, ghost merged: seq<Entry>)
    requires ShapeOk(levels) && c.level + 1 < NUM_LEVELS && smallestSnapshot < MAX_SEQUENCE
    requires RunsOf(SideRuns(c.level, c.in0) + SideRuns(c.level + 1, c.in1), InputData(c.in0, c.in1))
    requires Distinct(InputData(c.in0, c.in1))
    ensures Sorted(merged) && EntrySet(merged) == InputData(c.in0, c.in1)
    ensures Concat(outs) == Kept(merged, |merged|, smallestSnapshot, levels, c.level) && Finished(outs, nextFile)
    ensures Compacts(levels, c, smallestSnapshot, nextFile, options, merged, outs)
  {
    var input := MakeInputIterator(c.level, c.in0, c.in1);
    merged := input.merged;
    outs := Compacted(levels, c.level, c.grandparents, options.maxFileSize, input, smallestSnapshot, nextFile,
      options.tableSize);
  }

  /** The table of a memtable, at the deepest level that it can reach. */
  ghost predicate FlushedRight(levels: Levels, entries: seq<Entry>, options: Options, level: nat, f: File) {
    |entries| > 0 && f.entries == entries && f.size == options.tableSize(entries) &&
    f.smallest == entries[0].key && f.largest == entries[|entries| - 1].key &&
    Deepest(levels, level, f.smallest.user, f.largest.user, 10 * options.maxFileSize)
  }

  class DBImpl {
    const options: Options
    var mem: seq<Entry>
    var imm: Option<seq<Entry>>
    var current: Levels
    var lastSequence: Sequence
    var snapshots: seq<Sequence>
    var nextFile: nat
    var writers: seq<Writer>
    var compactPointers: seq<Option<Key>>
    /** Every operation handed to the database, in order. */
    ghost var submitted: seq<Op>
    ghost var states: seq<State>
    ghost var actions: seq<Action>

    /** The state; its history is the operations written so far, numbered from 1. */
    ghost function Now(): State
      requires lastSequence <= |submitted|
      reads this
    {
      State(mem, imm, current, lastSequence, snapshots, nextFile, BatchEntries(submitted[..lastSequence], 0))
    }

    /** What the database did is a run of the state machine, and what was handed over is either written or queued. */
    ghost predicate Ok()
      reads this
    {
      lastSequence <= |submitted| < MAX_SEQUENCE && submitted[lastSequence..] == GroupOps(writers) &&
      |current| == |compactPointers| == NUM_LEVELS && Run(states, actions) && states[|actions|] == Now()
    }

    /** Every compaction so far uncovered nothing. */
    ghost predicate Safe()
      requires Ok()
      reads this
    {
      HarmlessBefore(states, actions, |actions|)
    }

    constructor (options: Options, firstFile: nat)
      ensures Ok() && Safe() && actions == [] && writers == [] && submitted == []
      ensures this.options == options
    {
      this.options := options;
      mem, imm, current := [], None, [[], [], [], [], [], [], []];
      lastSequence, snapshots, nextFile, writers := 0, [], firstFile, [];
      compactPointers := seq(NUM_LEVELS, _ => None);
      submitted, actions := [], [];
      states := [State([], None, [[], [], [], [], [], [], []], 0, [], firstFile, [])];
    }

    lemma {:induction false} Invariants()
      requires Ok()
      ensures WellFormed(Now()) && Distinct(TreeData(current))
      ensures Safe() ==> Faithful(Now())
    {
      RunWellFormed(states, actions, |actions|);
      RunFaithful(states, actions, |actions|);
      DataDistinct(Now());
    }

    /** Notes the step just taken. */
    ghost method Record(a: Action)
      requires lastSequence <= |submitted| < MAX_SEQUENCE && Run(states, actions) && Next(states[|actions|], a, Now())
      modifies this`states, this`actions
      ensures Run(states, actions) && states[|actions|] == Now()
      ensures states == old(states) + [Now()] && actions == old(actions) + [a]
    {
      RunExtends(states, actions, a, Now());
      states, actions := states + [Now()], actions + [a];
    }

    // ---- Snapshots ----

    method GetSnapshot() returns (snapshot: Sequence)
      requires Ok()
      modifies this`snapshots, this`states, this`actions
      ensures Ok() && actions == old(actions) + [TakeSnapshot]
      ensures snapshot == lastSequence && snapshots == old(snapshots) + [snapshot]
    {
      snapshot := lastSequence;
      snapshots := snapshots + [snapshot];
      Record(TakeSnapshot);
    }

    method ReleaseSnapshot(index: nat)
      requires Ok() && index < |snapshots|
      modifies this`snapshots, this`states, this`actions
      ensures Ok() && actions == old(actions) + [Action.ReleaseSnapshot(index)]
      ensures snapshots == old(snapshots)[..index] + old(snapshots)[index + 1..]
    {
      snapshots := snapshots[..index] + snapshots[index + 1..];
      Record(Action.ReleaseSnapshot(index));
    }

    // ---- Reading ----

    /** Looks in the memtable, the immutable memtable and the tree, newest first. */
    method Get(user: int, snapshot: Option<Sequence>) returns (r: Option<string>)
      requires Ok()
      ensures var at := if snapshot.Some? then snapshot.value else lastSequence;
        r == Read(Data(Now()), user, at) &&
        (Safe() && (at in snapshots || at >= lastSequence || at >= Oldest(Now())) ==>
          r == HistoryRead(BatchEntries(submitted[..lastSequence], 0), user, at))
    {
      Invariants();
      OldestLive(Now());
      var at := if snapshot.Some? then snapshot.value else lastSequence;
      var m, i, t := TableGet(mem, user, at), NotFound, NotFound;
      TableGetResolves(mem, user, at);
      if m.NotFound? {
        if imm.Some? {
          i := TableGet(imm.value, user, at);
          TableGetResolves(imm.value, user, at);
        }
        if i.NotFound? {
          t := VersionGet(current, user, at);
        }
      }
      var found := if !m.NotFound? then m else if !i.NotFound? then i else t;
      ReadPath(Now(), user, at, m, i, t, found);
      DataDistinct(Now());
      ResolvesIsRead(Data(Now()), user, at, found);
      r := ReplyOf(found);
    }

    /** An iterator over everything visible at a snapshot. */
    method NewIterator(snapshot: Option<Sequence>) returns (it: DBIter)
      requires Ok()
      ensures fresh(it) && fresh(it.iter) && fresh(it.iter.children) && it.Ok() && !it.valid
      ensures it.sequence == (if snapshot.Some? then snapshot.value else lastSequence)
      ensures EntrySet(it.iter.merged) == Data(Now())
      ensures Safe() && (it.sequence in snapshots || it.sequence >= lastSequence || it.sequence >= Oldest(Now())) ==>
        Shows(View(it.iter.merged, it.sequence), BatchEntries(submitted[..lastSequence], 0), it.sequence)
    {
      var runs := InternalRuns(Now(), mem, imm, current);
      DataOfReachable(Now());
      var merging := NewMergingIterator(runs);
      it := new DBIter(merging, if snapshot.Some? then snapshot.value else lastSequence);
      if Safe() {
        Invariants();
        OldestLive(Now());
      }
      if Safe() && it.sequence >= Oldest(Now()) {
        ViewShows(Now(), it.iter.merged, it.sequence);
      }
    }

    // ---- Writing ----

    /** A writer joins the queue. */
    method Enqueue(w: Writer)
      requires Ok() && |submitted| + |OpsOf(w)| < MAX_SEQUENCE
      modifies this`writers, this`submitted
      ensures Ok() && writers == old(writers) + [w] && submitted == old(submitted) + OpsOf(w)
    {
      assert (submitted + OpsOf(w))[..lastSequence] == submitted[..lastSequence];
      assert (submitted + OpsOf(w))[lastSequence..] == submitted[lastSequence..] + OpsOf(w);
      assert (writers + [w])[..|writers|] == writers;
      writers := writers + [w];
      submitted := submitted + OpsOf(w);
    }

    /** Switches to a new memtable if the current one is full or a flush is forced. False if the writer has to wait. */
    method MakeRoomForWrite(force0: bool) returns (room: bool)
      requires Ok()
      modifies this`mem, this`imm, this`nextFile, this`states, this`actions
      ensures Ok() && (actions == old(actions) || actions == old(actions) + [SwitchMemTable])
      ensures room ==> options.memoryUsage(mem) <= options.writeBufferSize
      ensures var full := force0 || options.memoryUsage(old(mem)) > options.writeBufferSize;
        var stuck := old(imm).Some? || |current[0]| >= 12;
        (actions == old(actions) <==> !full || stuck) &&
        (room <==> !full || (!stuck && options.memoryUsage([]) <= options.writeBufferSize))
      ensures nextFile == old(nextFile) + |actions| - |old(actions)|
    {
      var force := force0;
      while force || options.memoryUsage(mem) > options.writeBufferSize
        invariant Ok()
        invariant actions == old(actions) ==> force == force0 && mem == old(mem) && imm == old(imm)
        invariant nextFile == old(nextFile) + |actions| - |old(actions)|
        invariant actions != old(actions) ==>
          actions == old(actions) + [SwitchMemTable] && imm.Some? && mem == [] && !force && old(imm).None? &&
          |current[0]| < 12 && (force0 || options.memoryUsage(old(mem)) > options.writeBufferSize)
        decreases imm.None?
      {
        if imm.Some? {
          return false;
        }
        if |current[0]| >= L0_STOP_WRITES_TRIGGER {
          return false;
        }
        nextFile := nextFile + 1;
        imm := Some(mem);
        mem := [];
        Record(SwitchMemTable);
        force := false;
      }
      room := true;
    }

    /** Gives the operations the next sequence numbers and adds them to the memtable. */
    method ApplyGroup(ops: seq<Op>, done: nat)
      requires Ok() && done <= |writers| && ops == GroupOps(writers[..done])
      modifies this`mem, this`lastSequence, this`writers, this`states, this`actions
      ensures Ok() && writers == old(writers)[done..] && lastSequence == old(lastSequence) + |ops|
      ensures actions == old(actions) + [Action.Write(ops)]
    {
      GroupOpsSplit(writers, done);
      TakeOps(submitted, lastSequence, ops, GroupOps(writers[done..]));
      mem := WrittenMem(Now(), mem, ops, lastSequence);
      lastSequence := lastSequence + |ops|;
      writers := writers[done..];
      Record(Action.Write(ops));
    }

    /** The writer at the head of the queue writes its group, or only waits for the memtable to be switched. */
    method Write() returns (done: nat)
      requires Ok() && |writers| > 0
      modifies this`mem, this`imm, this`nextFile, this`lastSequence, this`writers, this`states, this`actions
      ensures Ok() && done <= |old(writers)| && writers == old(writers)[done..]
      ensures done == 0 ==> lastSequence == old(lastSequence)
      ensures var full := old(writers)[0].batch.None? || options.memoryUsage(old(mem)) > options.writeBufferSize;
        var stuck := old(imm).Some? || |current[0]| >= 12;
        done == 0 <==> full && (stuck || options.memoryUsage([]) > options.writeBufferSize)
      ensures done > 0 && old(writers)[0].batch.None? ==> done == 1 && lastSequence == old(lastSequence)
      ensures done > 0 && old(writers)[0].batch.Some? ==> IsGroup(old(writers), done, options.batchSize)
      ensures lastSequence == old(lastSequence) + |GroupOps(old(writers)[..done])|
    {
      var room := MakeRoomForWrite(writers[0].batch.None?);
      assert writers[..0] == [];
      if !room {
        return 0;
      }
      if writers[0].batch.None? {
        GroupOpsSplit(writers, 1);
        assert writers[..1][..0] == [];
        writers := writers[1..];
        return 1;
      }
      var ops;
      ops, done := BuildBatchGroup(writers, options.batchSize);
      ApplyGroup(ops, done);
    }

    // ---- Background work ----

    /** Writes the immutable memtable as a table and picks a level for it; an empty one leaves no file. */
    method WriteLevel0Table() returns (edit: VersionEdit, ghost level: nat, ghost file: Option<File>)
      requires Ok() && imm.Some?
      ensures EditOk(edit) && edit.deletedFiles == []
      ensures file.None? ==> imm.value == [] && edit.newFiles == []
      ensures file.Some? ==>
        level < NUM_LEVELS && edit.newFiles == Additions(level, [file.value]) && file.value.entries == imm.value &&
        file.value.number == nextFile && Flushable(current, level, file.value, nextFile)
      ensures file.Some? <==> imm.value != []
      ensures file.Some? ==> FlushedRight(current, imm.value, options, level, file.value)
    {
      Invariants();
      edit, level, file := EMPTY_EDIT, 0, None;
      var entries := imm.value;
      if |entries| > 0 {
        var f := File(nextFile, options.tableSize(entries), entries[0].key, entries[|entries| - 1].key, entries);
        var target :=
          PickLevelForMemTableOutput(current, f.smallest.user, f.largest.user,
          MAX_GRANDPARENT_FACTOR * options.maxFileSize);
        PickedFlushable(current, target, f, nextFile);
        edit := edit.(newFiles := Additions(target, [f]));
        level, file := target, Some(f);
      }
    }

    method CompactMemTable() returns (ghost a: Action)
      requires Ok() && imm.Some?
      modifies this`imm, this`current, this`nextFile, this`states, this`actions
      ensures Ok() && imm.None? && actions == old(actions) + [a] && a.Flush? && nextFile == old(nextFile) + 1
      ensures a.file.Some? <==> old(imm).value != []
      ensures a.file.Some? ==>
        a.file.value.number == old(nextFile) &&
        FlushedRight(old(current), old(imm).value, options, a.flushLevel, a.file.value)
    {
      Invariants();
      ghost var level, file;
      var edit;
      edit, level, file := WriteLevel0Table();
      FlushEdit(current, edit, level, file, nextFile);
      var v := LogAndApply(current, edit);
      FlushResult(current, v, edit, level, file);
      current := v;
      nextFile := nextFile + 1;
      imm := None;
      a := Flush(level, file);
      Record(a);
    }

    /** Moves the only input to the next level. */
    method MoveFile(level: nat, file: File, ghost i: nat, ghost j: nat)
      requires Ok() && level + 1 < NUM_LEVELS && Chosen(current, level, [file], [], i, j)
      modifies this`current, this`states, this`actions
      ensures Ok() && actions == old(actions) + [Move(level, file)]
    {
      current := MovedTree(Now(), current, level, file, i, j);
      Record(Move(level, file));
    }

    /** Merges the inputs and installs what is left of them. */
    method CompactFiles(c: Inputs, ghost i: nat, ghost j: nat) returns (ghost a: Action)
      requires Ok() && c.level + 1 < NUM_LEVELS && Chosen(current, c.level, c.in0, c.in1, i, j)
      modifies this`current, this`nextFile, this`states, this`actions
      ensures Ok() && actions == old(actions) + [a]
      ensures var smallestSnapshot := if |snapshots| > 0 then snapshots[0] else lastSequence;
        CompactedBy(old(current), c, smallestSnapshot, old(nextFile), options, a)
      ensures a.Compact? && nextFile == old(nextFile) + |a.outs|
    {
      var smallestSnapshot := if |snapshots| > 0 then snapshots[0] else lastSequence;
      ghost var s';
      current, nextFile, a, s' :=
        CompactStepTaken(states, actions, current, c, smallestSnapshot, nextFile, options, i, j);
      states, actions := states + [s'], actions + [a];
      assert states[|actions|] == s' == Now();
    }

    /** One round of background work: the memtable first, then a move or a compaction. At most one step. */
    method BackgroundCompaction(request: Option<Request>) returns (ghost a: Option<Action>, rest: Option<Request>)
      requires Ok() && (request.Some? ==> CanServe(current, request.value))
      modifies this`imm, this`current, this`nextFile, this`compactPointers, this`states, this`actions
      ensures Ok() && actions == old(actions) + if a.Some? then [a.value] else []
      ensures old(imm).Some? ==> imm.None? && a.Some? && a.value.Flush? && rest.None?
      ensures old(imm).None? && request.None? ==> a.None? && rest.None?
      ensures old(imm).None? && request.Some? ==>
        Served(old(Now()), request.value, old(compactPointers), options, a, compactPointers, rest)
    {
      a, rest := None, None;
      if imm.Some? {
        ghost var flush := CompactMemTable();
        a := Some(flush);
      } else if request.Some? {
        a, rest := ServeRequest(request.value);
      }
    }

    method ServeRequest(request: Request) returns (ghost a: Option<Action>, rest: Option<Request>)
      requires Ok() && CanServe(current, request)
      modifies this`current, this`nextFile, this`compactPointers, this`states, this`actions
      ensures Ok() && actions == old(actions) + if a.Some? then [a.value] else []
      ensures Served(old(Now()), request, old(compactPointers), options, a, compactPointers, rest)
    {
      ghost var s, pointers := Now(), compactPointers;
      a, rest := None, None;
      var c;
      ghost var i, j;
      c, compactPointers, i, j := InputsFor(s, current, request, compactPointers, options.maxFileSize);
      if c.Some? {
        ghost var done := TakeInputs(request, c.value, i, j);
        a := Some(done);
        if request.ManualCompaction? {
          var last := c.value.in0[|c.value.in0| - 1];
          rest := Some(request.(begin := Some(last.largest.user)));
        }
        assert rest == RestOf(request, c.value);
      }
      assert Chose(s.levels, request, pointers[request.level], options.maxFileSize, c, i, j);
    }

    /** Moves the only input down a level, or merges the inputs. */
    method TakeInputs(request: Request, inputs: Inputs, ghost i: nat, ghost j: nat) returns (ghost a: Action)
      requires Ok() && inputs.level + 1 < NUM_LEVELS && Chosen(current, inputs.level, inputs.in0, inputs.in1, i, j)
      modifies this`current, this`nextFile, this`states, this`actions
      ensures Ok() && actions == old(actions) + [a] && DoneWith(old(Now()), request, options, inputs, a)
    {
      if !request.ManualCompaction? && |inputs.in0| == 1 && |inputs.in1| == 0 &&
         TotalFileSize(inputs.grandparents) <= MAX_GRANDPARENT_FACTOR * options.maxFileSize {
        assert inputs.in0 == [inputs.in0[0]];
        MoveFile(inputs.level, inputs.in0[0], i, j);
        a := Move(inputs.level, inputs.in0[0]);
      } else {
        a := CompactFiles(inputs, i, j);
      }
    }
  }

  lemma {:induction false} MovedNumber(levels: Levels, nextFile: nat, level: nat, file: File)
    requires Numbers(levels, nextFile) && level + 1 < |levels| && file in levels[level]
    ensures OwnNumbers([file]) && NewNumbers(levels[level + 1], [file])
  {
  }

  /** The level picked for a table with the newest data. */
  lemma {:induction false} PickedFlushable(levels: Levels, level: nat, f: File, nextFile: nat)
    requires FileOk(f) && f.number >= nextFile && NewerThan(EntrySet(f.entries), TreeData(levels)) && level < |levels|
    requires level > 0 ==> forall l | 0 <= l <= level :: !SomeOverlap(levels, l, f.smallest.user, f.largest.user)
    ensures Flushable(levels, level, f, nextFile)
  {
    if level > 0 {
      forall l, g | 0 <= l <= level && g in levels[l]
        ensures !Overlaps(g, Some(f.smallest.user), Some(f.largest.user)) {
        assert !SomeOverlap(levels, l, f.smallest.user, f.largest.user);
      }
    }
  }

  ghost predicate FlushEditOk(edit: VersionEdit, level: nat, file: Option<File>, nextFile: nat) {
    EditOk(edit) && edit.deletedFiles == [] &&
    if file.None? then edit.newFiles == []
    else level < NUM_LEVELS && edit.newFiles == Additions(level, [file.value]) && file.value.number == nextFile
  }

  lemma {:induction false} FlushEdit(current: Levels, edit: VersionEdit, level: nat, file: Option<File>, nextFile: nat)
    requires |current| == NUM_LEVELS && Numbers(current, nextFile) && LevelsInOrder(current) &&
      FlushEditOk(edit, level, file, nextFile)
    ensures forall l | 0 <= l < NUM_LEVELS :: Compatible(current[l], ApplyLevel(NoChange, edit, l))
  {
    forall l | 0 <= l < NUM_LEVELS ensures Compatible(current[l], ApplyLevel(NoChange, edit, l)) {
      if file.Some? { CompatibleEdit(current[l], edit, level, [file.value], l); }
    }
  }

  lemma {:induction false} FlushResult(current: Levels, v: Levels, edit: VersionEdit, level: nat, file: Option<File>)
    requires |current| == NUM_LEVELS && LevelsInOrder(current) && SavedAll(current, edit, v) && edit.deletedFiles == []
    requires if file.None? then edit.newFiles == []
      else level < NUM_LEVELS && edit.newFiles == Additions(level, [file.value])
    ensures if file.None? then v == current else Added(current, v, level, file.value)
  {
    if file.Some? {
      FlushInstalls(current, v, level, file.value, edit);
    } else {
      forall l | 0 <= l < NUM_LEVELS ensures v[l] == current[l] {
        assert Saved(current[l], ApplyLevel(NoChange, edit, l), v[l]);
        OrderedUnique(v[l], current[l]);
      }
    }
  }
}
