/** The database as a state machine: what each step does, and what every run keeps. */
module Store {
  import opened Format
  import opened Tree
  import opened Compaction
  import opened Drop
  import opened Versions
  import opened Install
  import opened Work
  import opened Edits

  datatype Op = Put(user: int, value: string) | Delete(user: int)

  datatype State = State(
    mem: seq<Entry>, imm: Option<seq<Entry>>, levels: Levels,
    last: Sequence, snapshots: seq<Sequence>, nextFile: nat,
    history: seq<Entry>)

  // ---- Writes ----

  function EntryOf(op: Op, sn: Sequence): Entry {
    match op
    case Put(user, value) => Entry(Key(user, sn, Value), value)
    case Delete(user) => Entry(Key(user, sn, Deletion), "")
  }

  /** The entries a batch writes: consecutive sequence numbers after the last one. */
  function BatchEntries(ops: seq<Op>, last: Sequence): (es: seq<Entry>)
    requires last + |ops| <= MAX_SEQUENCE
  {
    seq(|ops|, i requires 0 <= i < |ops| => EntryOf(ops[i], last + i + 1))
  }

  // ---- Data ----

  ghost function ImmData(s: State): set<Entry> { if s.imm.Some? then EntrySet(s.imm.value) else {} }

  /** What the memtables hold. */
  ghost function Upper(s: State): set<Entry> { EntrySet(s.mem) + ImmData(s) }

  ghost function Data(s: State): set<Entry> { Upper(s) + TreeData(s.levels) }

  /** The oldest snapshot a reader may still ask for. */
  function Oldest(s: State): Sequence {
    if |s.snapshots| > 0 then s.snapshots[0] else s.last
  }

  /** The oldest snapshot is live, and no live one is older. */
  lemma {:induction false} OldestLive(s: State)
    requires SnapshotsOk(s)
    ensures Oldest(s) <= s.last && (Oldest(s) in s.snapshots || (s.snapshots == [] && Oldest(s) == s.last))
    ensures forall x | x in s.snapshots :: Oldest(s) <= x
  {
  }

  // ---- Invariants ----

  ghost predicate MemOk(s: State) {
    Sorted(s.mem) && (s.imm.Some? ==> Sorted(s.imm.value)) &&
    NewerThan(EntrySet(s.mem), ImmData(s)) && NewerThan(EntrySet(s.mem), TreeData(s.levels)) &&
    NewerThan(ImmData(s), TreeData(s.levels))
  }

  ghost predicate Logged(s: State) {
    Numbered(s.history) && |s.history| == s.last < MAX_SEQUENCE && Data(s) <= EntrySet(s.history)
  }

  ghost predicate SnapshotsOk(s: State) {
    (forall i, j | 0 <= i < j < |s.snapshots| :: s.snapshots[i] <= s.snapshots[j]) &&
    forall i | 0 <= i < |s.snapshots| :: s.snapshots[i] <= s.last
  }

  /** Levels sorted and disjoint, newer data above older data, every entry written once. */
  ghost predicate WellFormed(s: State) {
    TreeOk(s.levels) && Numbers(s.levels, s.nextFile) && LevelsInOrder(s.levels) && MemOk(s) && Logged(s) &&
      SnapshotsOk(s)
  }

  /** Every snapshot a reader may ask for reads as the plain history does. */
  ghost predicate Faithful(s: State) {
    forall user: int, snapshot: nat | snapshot >= Oldest(s) ::
      Read(Data(s), user, snapshot) == HistoryRead(s.history, user, snapshot)
  }

  // ---- Steps ----

  datatype Action =
    | Write(ops: seq<Op>)
    | SwitchMemTable
    | Flush(flushLevel: nat, file: Option<File>)
    | Move(moveLevel: nat, moved: File)
    | Compact(level: nat, in0: seq<File>, in1: seq<File>, input: seq<Entry>, outs: seq<File>)
    | TakeSnapshot
    | ReleaseSnapshot(index: nat)

  ghost predicate WriteStep(s: State, s': State, ops: seq<Op>) {
    s.last + |ops| < MAX_SEQUENCE &&
    Sorted(s'.mem) && EntrySet(s'.mem) == EntrySet(s.mem) + EntrySet(BatchEntries(ops, s.last)) &&
    s' == s.(mem := s'.mem, last := s.last + |ops|, history := s.history + BatchEntries(ops, s.last))
  }

  /** The immutable memtable becomes one file, or none if it is empty. */
  ghost predicate FlushStep(s: State, s': State, level: nat, file: Option<File>) {
    s.imm.Some? && s.nextFile <= s'.nextFile &&
    s' == s.(imm := None, levels := s'.levels, nextFile := s'.nextFile) &&
    if file.None? then s.imm.value == [] && s'.levels == s.levels
    else
      file.value.entries == s.imm.value && s.nextFile <= file.value.number < s'.nextFile &&
      Flushable(s.levels, level, file.value, s.nextFile) && Added(s.levels, s'.levels, level, file.value)
  }

  ghost predicate MoveStep(s: State, s': State, level: nat, file: File) {
    level + 1 < NUM_LEVELS && Closed(s.levels, level, [file], []) &&
    Replaced(s.levels, s'.levels, level, [file], [], [file]) &&
    s' == s.(levels := s'.levels)
  }

  ghost predicate CompactStep(s: State, s': State, level: nat, in0: seq<File>, in1: seq<File>, input: seq<Entry>,
                              outs: seq<File>) {
    level + 1 < NUM_LEVELS && Closed(s.levels, level, in0, in1) &&
    Sorted(input) && EntrySet(input) == InputData(in0, in1) &&
    Concat(outs) == Kept(input, |input|, Oldest(s), s.levels, level) &&
    Finished(outs, s.nextFile) && s.nextFile + |outs| <= s'.nextFile &&
    Replaced(s.levels, s'.levels, level, in0, in1, outs) &&
    s' == s.(levels := s'.levels, nextFile := s'.nextFile)
  }

  ghost predicate Next(s: State, a: Action, s': State) {
    match a
    case Write(ops) => WriteStep(s, s', ops)
    case SwitchMemTable => s.imm.None? && s.nextFile <= s'.nextFile &&
      s' == s.(imm := Some(s.mem), mem := [], nextFile := s'.nextFile)
    case Flush(level, file) => FlushStep(s, s', level, file)
    case Move(level, file) => MoveStep(s, s', level, file)
    case Compact(level, in0, in1, input, outs) => CompactStep(s, s', level, in0, in1, input, outs)
    case TakeSnapshot => s' == s.(snapshots := s.snapshots + [s.last])
    case ReleaseSnapshot(i) => i < |s.snapshots| && s' == s.(snapshots := s.snapshots[..i] + s.snapshots[i + 1..])
  }

  /** A compaction that uncovers nothing; every other step is harmless. */
  ghost predicate Harmless(s: State, a: Action) {
    a.Compact? ==> a.level + 1 < |s.levels| && NothingUncovered(Upper(s), s.levels, a.level, a.in0, a.in1, Oldest(s))
  }

  ghost predicate Init(s: State) {
    s == State([], None, [[], [], [], [], [], [], []], 0, [], s.nextFile, [])
  }

  ghost predicate Run(states: seq<State>, actions: seq<Action>) {
    |states| == |actions| + 1 && Init(states[0]) &&
    forall i | 0 <= i < |actions| :: Next(states[i], actions[i], states[i + 1])
  }

  // ---- Each step keeps the invariants ----

  lemma {:induction false} DataDistinct(s: State)
    requires Logged(s)
    ensures Distinct(Data(s))
  {
    NumberedDistinct(s.history);
  }

  lemma {:induction false} InitOk(s: State)
    requires Init(s)
    ensures WellFormed(s) && Faithful(s)
  {
    assert forall l | 0 <= l < 7 :: s.levels[l] == [] && LevelData(s.levels[l]) == {};
    assert TreeData(s.levels) == {};
    assert Data(s) == {};
  }

  lemma {:induction false} BatchFacts(ops: seq<Op>, last: Sequence, history: seq<Entry>)
    requires last + |ops| < MAX_SEQUENCE && Numbered(history) && |history| == last
    ensures Numbered(history + BatchEntries(ops, last))
    ensures forall e | e in EntrySet(BatchEntries(ops, last)) :: e.key.sn > last
    ensures forall e | e in EntrySet(history) :: e.key.sn <= last
    ensures EntrySet(history + BatchEntries(ops, last)) == EntrySet(history) + EntrySet(BatchEntries(ops, last))
  {
  }

  /** New entries above the last sequence number affect both sides of the agreement alike. */
  lemma {:induction false} ReadGrows(data: set<Entry>, log: set<Entry>, new_: set<Entry>, last: nat, user: int,
                                     snapshot: nat)
    requires Distinct(log + new_) && data <= log
    requires (forall e | e in log :: e.key.sn <= last) && (forall e | e in new_ :: e.key.sn > last)
    requires Read(data, user, snapshot) == Read(log, user, snapshot)
    ensures Read(data + new_, user, snapshot) == Read(log + new_, user, snapshot)
  {
    if exists e :: e in new_ && Candidate(e, user, snapshot) {
      NewestExists(new_, user, snapshot);
      var n :| IsNewest(new_, user, snapshot, n);
      assert Candidate(n, user, snapshot);
      assert IsNewest(data + new_, user, snapshot, n) && IsNewest(log + new_, user, snapshot, n);
      ReadNewest(data + new_, user, snapshot, n);
      ReadNewest(log + new_, user, snapshot, n);
    } else {
      SameCandidates(data + new_, data, user, snapshot);
      SameCandidates(log + new_, log, user, snapshot);
    }
  }

  lemma {:induction false} WriteKeeps(s: State, s': State, ops: seq<Op>)
    requires WellFormed(s) && WriteStep(s, s', ops)
    ensures WellFormed(s') && (Faithful(s) ==> Faithful(s'))
  {
    var es := EntrySet(BatchEntries(ops, s.last));
    BatchFacts(ops, s.last, s.history);
    assert Data(s') == Data(s) + es;
    assert MemOk(s');
    assert Logged(s');
    if Faithful(s) {
      NumberedDistinct(s'.history);
      forall user: int, snapshot: nat | snapshot >= Oldest(s')
        ensures Read(Data(s'), user, snapshot) == HistoryRead(s'.history, user, snapshot)
      {
        HistoryReadIsRead(s.history, user, snapshot);
        HistoryReadIsRead(s'.history, user, snapshot);
        ReadGrows(Data(s), EntrySet(s.history), es, s.last, user, snapshot);
      }
    }
  }

  lemma {:induction false} SwitchKeeps(s: State, s': State)
    requires WellFormed(s) && Next(s, SwitchMemTable, s')
    ensures WellFormed(s') && (Faithful(s) ==> Faithful(s'))
  {
    NumbersGrow(s.levels, s.nextFile, s'.nextFile);
    assert EntrySet(s'.mem) == {} && ImmData(s) == {} && ImmData(s') == EntrySet(s.mem);
    assert Data(s') == Data(s);
  }

  /** Moving data around changes no read. */
  lemma {:induction false} SameData(s: State, s': State)
    requires Faithful(s) && Data(s') == Data(s) && s'.history == s.history && Oldest(s') == Oldest(s)
    ensures Faithful(s')
  {
  }

  lemma {:induction false} FlushData(s: State, s': State, level: nat, file: Option<File>)
    requires MemOk(s) && FlushStep(s, s', level, file)
    ensures Data(s') == Data(s) && MemOk(s')
  {
    if file.Some? {
      AddedData(s.levels, s'.levels, level, file.value);
      NewerUnion(TreeData(s.levels), ImmData(s), EntrySet(s.mem));
    } else {
      assert ImmData(s) == {};
    }
  }

  lemma {:induction false} FlushKeeps(s: State, s': State, level: nat, file: Option<File>)
    requires WellFormed(s) && FlushStep(s, s', level, file)
    ensures WellFormed(s') && (Faithful(s) ==> Faithful(s'))
  {
    FlushData(s, s', level, file);
    if file.Some? {
      AddedTreeOk(s.levels, s'.levels, level, file.value, s.nextFile, s'.nextFile);
    } else {
      NumbersGrow(s.levels, s.nextFile, s'.nextFile);
    }
    if Faithful(s) { SameData(s, s'); }
  }

  lemma {:induction false} NumbersGrow(levels: Levels, n: nat, n': nat)
    requires Numbers(levels, n) && n <= n'
    ensures Numbers(levels, n')
  {
  }

  lemma {:induction false} SnapshotKeeps(s: State, s': State, a: Action)
    requires WellFormed(s) && (a.TakeSnapshot? || a.ReleaseSnapshot?) && Next(s, a, s')
    ensures WellFormed(s') && (Faithful(s) ==> Faithful(s'))
  {
    assert Data(s') == Data(s);
    assert Oldest(s') >= Oldest(s);
  }

  // ---- Moves and compactions ----

  lemma {:induction false} MoveOutputs(s: State, level: nat, file: File)
    requires TreeOk(s.levels) && Numbers(s.levels, s.nextFile) && level + 1 < NUM_LEVELS &&
      Closed(s.levels, level, [file], [])
    ensures OutputsOk(s.levels, level, [file], [], [file]) && InputData([file], []) == LevelData([file])
    ensures file.number < s.nextFile
  {
    assert file in [file] && file in s.levels[level];
  }

  lemma {:induction false} MoveKeeps(s: State, s': State, level: nat, file: File)
    requires WellFormed(s) && MoveStep(s, s', level, file)
    ensures WellFormed(s') && (Faithful(s) ==> Faithful(s'))
  {
    MoveOutputs(s, level, file);
    ReplacedTreeOk(s.levels, s'.levels, level, [file], [], [file], s.nextFile, s.nextFile);
    ReplacedTreeData(s.levels, s'.levels, level, [file], [], [file]);
    InputsInTree(s.levels, level, [file], []);
    assert TreeData(s'.levels) == TreeData(s.levels);
    assert Data(s') == Data(s);
    if Faithful(s) { SameData(s, s'); }
  }

  lemma {:induction false} InputsInTree(levels: Levels, level: nat, in0: seq<File>, in1: seq<File>)
    requires Closed(levels, level, in0, in1)
    ensures InputData(in0, in1) <= TreeData(levels)
  {
    forall e | e in InputData(in0, in1) ensures e in TreeData(levels) { InputInLevel(levels, level, in0, in1, e); }
  }

  /** Finished outputs of a sorted run are well-formed files in disjoint ranges that hold exactly the run. */
  lemma {:induction false} OutputsOfRun(outs: seq<File>, firstNumber: nat)
    requires Finished(outs, firstNumber) && Sorted(Concat(outs))
    ensures FilesOk(outs) && LevelSorted(outs) && LevelData(outs) == EntrySet(Concat(outs))
    ensures forall f, e | f in outs && e in f.entries :: e in Concat(outs)
  {
    if |outs| > 0 {
      var n := |outs| - 1;
      var init, f := outs[..n], outs[n];
      var a, b := Concat(init), f.entries;
      assert Finished(init, firstNumber);
      SortedParts(a, b);
      OutputsOfRun(init, firstNumber);
      assert outs == init + [f];
      assert FileFinished(f, firstNumber + n);
      forall i | 0 <= i < n ensures Less(outs[i].largest, f.smallest) {
        assert init[i] in init && FileFinished(outs[i], firstNumber + i);
        assert outs[i].entries[|outs[i].entries| - 1] in a;
      }
      LevelDataAppend(init, f);
      assert EntrySet(a + b) == EntrySet(a) + EntrySet(b);
    }
  }

  lemma {:induction false} LevelDataAppend(files: seq<File>, f: File)
    ensures LevelData(files + [f]) == LevelData(files) + EntrySet(f.entries)
  {
    assert f in files + [f];
    assert forall g | g in files :: g in files + [f];
  }

  lemma {:induction false} CompactOutputs(s: State, level: nat, in0: seq<File>, in1: seq<File>, input: seq<Entry>,
                                          outs: seq<File>, smallest: nat)
    requires Numbers(s.levels, s.nextFile) && level + 1 < |s.levels| && Sorted(input) &&
      EntrySet(input) == InputData(in0, in1)
    requires Concat(outs) == Kept(input, |input|, smallest, s.levels, level) && Finished(outs, s.nextFile)
    ensures OutputsOk(s.levels, level, in0, in1, outs)
    ensures LevelData(outs) == EntrySet(Kept(input, |input|, smallest, s.levels, level))
    ensures forall f | f in outs :: f.number < s.nextFile + |outs|
  {
    KeptSorted(input, |input|, smallest, s.levels, level);
    KeptData(input, smallest, s.levels, level);
    OutputsOfRun(outs, s.nextFile);
    PairsFromSorted(outs);
    FinishedNumbers(outs, s.nextFile);
  }

  lemma {:induction false} FinishedNumbers(outs: seq<File>, firstNumber: nat)
    requires Finished(outs, firstNumber)
    ensures forall f | f in outs :: firstNumber <= f.number < firstNumber + |outs|
    ensures forall f, g | f in outs && g in outs && f.number == g.number :: f == g
  {
    forall f | f in outs ensures firstNumber <= f.number < firstNumber + |outs| && outs[f.number - firstNumber] == f {
      var i :| 0 <= i < |outs| && outs[i] == f;
      assert FileFinished(outs[i], firstNumber + i);
    }
  }

  lemma {:induction false} NewFileNumbers(levels: Levels, nextFile: nat, level: nat, outs: seq<File>)
    requires Numbers(levels, nextFile) && level + 1 < |levels| && Finished(outs, nextFile)
    ensures OwnNumbers(outs) && NewNumbers(levels[level + 1], outs)
  {
    FinishedNumbers(outs, nextFile);
    forall i, j | 0 <= i < j < |outs| ensures outs[i].number != outs[j].number {
      assert FileFinished(outs[i], nextFile + i) && FileFinished(outs[j], nextFile + j);
    }
  }

  lemma {:induction false} CompactSetup(s: State, level: nat, in0: seq<File>, in1: seq<File>, input: seq<Entry>)
    requires WellFormed(s) && level + 1 < NUM_LEVELS && Closed(s.levels, level, in0, in1)
    requires Sorted(input) && EntrySet(input) == InputData(in0, in1)
    ensures Setup(Upper(s), s.levels, level, in0, in1, input)
  {
    DataDistinct(s);
    NewerUnion(EntrySet(s.mem), ImmData(s), TreeData(s.levels));
  }

  /** After a compaction the visible data is what the drop rules leave. */
  lemma {:induction false} CompactData(s: State, s': State, level: nat, in0: seq<File>, in1: seq<File>,
                                       input: seq<Entry>, outs: seq<File>)
    requires WellFormed(s) && CompactStep(s, s', level, in0, in1, input, outs)
    ensures Setup(Upper(s), s.levels, level, in0, in1, input)
    ensures Data(s') == After(Upper(s), s.levels, level, input, Oldest(s))
    ensures Data(s') <= Data(s) && TreeData(s'.levels) <= TreeData(s.levels)
  {
    CompactSetup(s, level, in0, in1, input);
    CompactOutputs(s, level, in0, in1, input, outs, Oldest(s));
    CompactedData(Upper(s), s.levels, s'.levels, level, in0, in1, input, outs, Oldest(s));
    ReplacedTreeData(s.levels, s'.levels, level, in0, in1, outs);
    InputsInTree(s.levels, level, in0, in1);
    KeptData(input, Oldest(s), s.levels, level);
  }

  lemma {:induction false} CompactShape(s: State, s': State, level: nat, in0: seq<File>, in1: seq<File>,
                                        input: seq<Entry>, outs: seq<File>)
    requires WellFormed(s) && CompactStep(s, s', level, in0, in1, input, outs)
    ensures TreeOk(s'.levels) && Numbers(s'.levels, s'.nextFile)
  {
    CompactOutputs(s, level, in0, in1, input, outs, Oldest(s));
    ReplacedTreeOk(s.levels, s'.levels, level, in0, in1, outs, s.nextFile, s'.nextFile);
  }

  lemma {:induction false} CompactWellFormed(s: State, s': State, level: nat, in0: seq<File>, in1: seq<File>,
                                             input: seq<Entry>, outs: seq<File>)
    requires WellFormed(s) && CompactStep(s, s', level, in0, in1, input, outs)
    ensures WellFormed(s')
  {
    CompactShape(s, s', level, in0, in1, input, outs);
    CompactData(s, s', level, in0, in1, input, outs);
    NewerMono(EntrySet(s.mem), TreeData(s.levels), EntrySet(s.mem), TreeData(s'.levels));
    NewerMono(ImmData(s), TreeData(s.levels), ImmData(s), TreeData(s'.levels));
  }

  /** A compaction keeps all readable snapshots faithful exactly when it uncovers nothing. */
  lemma {:induction false} CompactFaithful(s: State, s': State, level: nat, in0: seq<File>, in1: seq<File>,
                                           input: seq<Entry>, outs: seq<File>)
    requires WellFormed(s) && Faithful(s) && CompactStep(s, s', level, in0, in1, input, outs)
    ensures NothingUncovered(Upper(s), s.levels, level, in0, in1, Oldest(s)) <==> Faithful(s')
  {
    CompactData(s, s', level, in0, in1, input, outs);
    CompactionPreservesReads(Upper(s), s.levels, level, in0, in1, input, Oldest(s));
    var after := After(Upper(s), s.levels, level, input, Oldest(s));
    forall user: int, snapshot: nat | snapshot >= Oldest(s)
      ensures Read(Data(s'), user, snapshot) == HistoryRead(s'.history, user, snapshot) <==>
              Read(after, user, snapshot) == Read(Upper(s) + TreeData(s.levels), user, snapshot)
    {
    }
  }

  lemma {:induction false} CompactKeeps(s: State, s': State, level: nat, in0: seq<File>, in1: seq<File>,
                                        input: seq<Entry>, outs: seq<File>)
    requires WellFormed(s) && CompactStep(s, s', level, in0, in1, input, outs)
    ensures WellFormed(s')
    ensures Faithful(s) ==> (NothingUncovered(Upper(s), s.levels, level, in0, in1, Oldest(s)) <==> Faithful(s'))
  {
    CompactWellFormed(s, s', level, in0, in1, input, outs);
    if Faithful(s) { CompactFaithful(s, s', level, in0, in1, input, outs); }
  }

  lemma {:induction false} StepKeeps(s: State, a: Action, s': State)
    requires WellFormed(s) && Next(s, a, s')
    ensures WellFormed(s')
    ensures Faithful(s) ==> (Harmless(s, a) <==> Faithful(s'))
  {
    match a
    case Write(ops) => WriteKeeps(s, s', ops);
    case SwitchMemTable => SwitchKeeps(s, s');
    case Flush(level, file) => FlushKeeps(s, s', level, file);
    case Move(level, file) => MoveKeeps(s, s', level, file);
    case Compact(level, in0, in1, input, outs) => CompactKeeps(s, s', level, in0, in1, input, outs);
    case TakeSnapshot => SnapshotKeeps(s, s', a);
    case ReleaseSnapshot(i) => SnapshotKeeps(s, s', a);
  }

  // ---- Every run ----

  /** Over every run the tree, the memtables and the log stay well-formed, whatever the compactions choose. */
  lemma {:induction false} RunWellFormed(states: seq<State>, actions: seq<Action>, n: nat)
    requires Run(states, actions) && n <= |actions|
    ensures WellFormed(states[n])
  {
    if n == 0 {
      InitOk(states[0]);
    } else {
      RunWellFormed(states, actions, n - 1);
      StepKeeps(states[n - 1], actions[n - 1], states[n]);
    }
  }

  ghost predicate Reachable(s: State) {
    exists states, actions :: Run(states, actions) && states[|actions|] == s
  }

  lemma {:induction false} ReachableOk(s: State)
    requires Reachable(s)
    ensures WellFormed(s) && Distinct(TreeData(s.levels))
  {
    var states, actions :| Run(states, actions) && states[|actions|] == s;
    RunWellFormed(states, actions, |actions|);
    DataDistinct(s);
  }

  lemma {:induction false} ReachableDistinct(s: State)
    requires Reachable(s)
    ensures ShapeOk(s.levels) && Distinct(TreeData(s.levels)) && Distinct(Upper(s) + TreeData(s.levels))
  {
    ReachableOk(s);
    DataDistinct(s);
  }

  lemma {:induction false} ReachableTree(s: State)
    requires Reachable(s)
    ensures TreeOk(s.levels) && Numbers(s.levels, s.nextFile) && LevelsInOrder(s.levels) && Distinct(TreeData(s.levels))
    ensures Oldest(s) < MAX_SEQUENCE
  {
    ReachableOk(s);
  }

  ghost predicate HarmlessBefore(states: seq<State>, actions: seq<Action>, n: nat)
    requires n <= |actions| < |states|
  {
    forall i | 0 <= i < n :: Harmless(states[i], actions[i])
  }

  ghost predicate FaithfulUpTo(states: seq<State>, n: nat)
    requires n < |states|
  {
    forall i | 0 <= i <= n :: Faithful(states[i])
  }

  /** Over every run, every readable snapshot reads as the plain history does up to any point exactly when all
      steps so far were harmless: the first harmful compaction breaks a read. */
  lemma {:induction false} RunFaithful(states: seq<State>, actions: seq<Action>, n: nat)
    requires Run(states, actions) && n <= |actions|
    ensures HarmlessBefore(states, actions, n) <==> FaithfulUpTo(states, n)
  {
    if n == 0 {
      InitOk(states[0]);
    } else {
      RunFaithful(states, actions, n - 1);
      RunWellFormed(states, actions, n - 1);
      StepKeeps(states[n - 1], actions[n - 1], states[n]);
      assert HarmlessBefore(states, actions, n) <==>
        HarmlessBefore(states, actions, n - 1) && Harmless(states[n - 1], actions[n - 1]);
      assert FaithfulUpTo(states, n) <==> FaithfulUpTo(states, n - 1) && Faithful(states[n]);
      assert FaithfulUpTo(states, n - 1) ==> Faithful(states[n - 1]);
    }
  }

  /** The guard a caller can check before a compaction of chosen inputs: with no file of the next level continuing
      the largest key of the inputs taken from it, the step is harmless. */
  lemma {:induction false} GuardedCompaction(s: State, level: nat, in0: seq<File>, in1: seq<File>, i: nat, j: nat)
    requires Reachable(s) && level + 1 < NUM_LEVELS == |s.levels| && Chosen(s.levels, level, in0, in1, i, j)
    requires NoContinuation(s.levels[level + 1], in1)
    ensures NothingUncovered(Upper(s), s.levels, level, in0, in1, Oldest(s))
  {
    ReachableDistinct(s);
    GuardUncoversNothing(Upper(s), s.levels, level, in0, in1, Oldest(s), i, j);
  }
}
