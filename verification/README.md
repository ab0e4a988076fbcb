# Verified model of the storage engine, the libuv helpers and the protocol buffer codec

The application is a thin shell around vendored libraries. This project models the parts of three of them whose
correctness is hardest to see and proves it.

**LevelDB.** A log-structured merge tree: writes get sequence numbers and enter a memtable; full memtables become
tables in a tree of seven levels; compactions merge tables downwards and forget entries that no live snapshot needs.

- `Format`, `Tree`: internal keys, what a read at a snapshot means, tables in levels, and the searches over them.
- `Iterators`, `DbIter`: the bidirectional merge of sorted runs, and the user's view of it.
- `Compaction`, `Drop`, `Cuts`, `Work`, `Runs`: which files a compaction takes, which entries it drops, where it cuts its
  outputs, the merging loop.
- `Versions`, `Edits`, `Install`: version edits, the builder that applies them, and what installing one does to the tree.
- `Store`: the database as a state machine, and what every run of it keeps.
- `Resurrection`: a run of that machine, step by step, in which a deleted value comes back.
- `Database`: the object whose methods are steps of that machine.
- `Coding`, `Log`: the block-framed log. `EditCodec`, `Replay`, `Manifest`, `VersionSet`, `Journal`: the descriptor log
  and recovery from it. `Recovery`: what a crash leaves of a run of the database.
- `Blocks`, `BlockIter`: the prefix-compressed blocks of a table, and the iterator that searches one by its restart points.

**libuv.** `Punycode`: the encoder of one host-name label against the decoder of RFC 3492. `Heap`: the linked binary heap.
`ThreadPool`: the worker pool with its two queues, cancellation, and the loop that calls back. `PoolOrder`: in which order
it serves and calls back.

**nanopb.** `PbCommon`: descriptors and the field iterator. `PbWire`: what a message is on the wire and what its receiver
is to make of it. `PbSpliced`: the same among fields that the receiver does not know. `PbVersions`: a receiver with an
older descriptor. `PbEncode`, `PbStream`, `PbValue`, `PbDecode`: encoder and decoder. `PbRoundTrip`: the one after the
other.

`KnownBytes`, `PbKnown` and `PunycodeKnown` write the formats out byte by byte, with every tag and constant as a number.

## What is proved

- A point lookup, a merged iterator and the user's iterator agree with the plain history of writes, in every state that
  any run of writes, memtable switches, flushes, moves, compactions and snapshots can reach, up to the condition of the
  next item (`Database.DBImpl.Get`, `Database.DBImpl.NewIterator`, `Store.RunWellFormed`, `Store.RunFaithful`).
- A compaction may not preserve reads. The code closes the inputs of the input level under continuation of their
  largest user key, but not those of the output level, so dropping an obsolete tombstone can uncover an older value in a
  file left there (`Resurrection.DeletedValueReturns`, a run from the empty database). `Drop.CompactionPreservesReads`
  gives the exact condition, `Drop.NextClosedUncoversNothing` the guard that makes it hold. The comment at
  `ios/Pods/leveldb-library/db/db_impl.cc:957-963` gives as reason (3) that older entries in the layers being compacted
  will be dropped; it is silent on files of the output level that are left out. The model follows the code.
- A compaction keeps exactly the entries that are still needed (`Drop.KeptNeeded`, `Work.DoCompactionWork`), cuts its
  outputs exactly where the target size is reached or too much further down would be overlapped
  (`Cuts.LittleOverlap`), and takes exactly the files that its request leads to
  (`Database.DBImpl.BackgroundCompaction`).
- A log, and a descriptor log, cut off at any byte recovers exactly what was whole (`Log.ReadLog`, `Manifest.Recover`,
  `VersionSet.RecoverFrom`); after any run of the database, the descriptor log cut off at any byte recovers the tree after
  exactly the logged steps that are whole (`Journal.RunJournal`, `Recovery.RecoverRun`).
- What a block is built from reads back, in both directions, and a search finds the first entry at or above its target
  (`BlockIter.BuildAndRead`, `BlockIter.Iter.Seek`). On other bytes an entry is accepted inside the block if and only if
  the 32-bit sum of its lengths does not wrap (`Blocks.AcceptedInside`; `Blocks.WrappedLengths` is an input where it does).
- What the Punycode encoder writes decodes to the label, and an overflow is reported exactly for the labels with a delta of
  more than 32 bits (`Punycode.ToAsciiLabel`).
- The heap finds its slots from the bits of the element count and keeps its links and its order
  (`Heap.Heap.Insert`, `Heap.Heap.Remove`).
- Over every interleaving the worker pool runs and calls back a request at most once, tells a callback the truth about
  cancellation, keeps slow work to half of the threads, and loses no wake-up (`ThreadPool.RunKeeps`,
  `ThreadPool.CalledOnce`, `ThreadPool.SlowShare`, `ThreadPool.NoneForgotten`, `ThreadPool.AllCalled`). Requests of one
  kind are served in the order of submission, callbacks run in the order of completion (`PoolOrder.ServedInOrder`,
  `PoolOrder.CallbacksInOrder`).
- A message that nanopb encodes decodes to the same message, exactly when every string leaves room for its NUL and no zero
  is left out whose default is something else (`PbRoundTrip.EncodeThenDecode`); `PbRoundTrip.UnterminatedString` and
  `PbRoundTrip.FalseBecomesTrue` are the two ways to lose one, and descriptors without such defaults lose none
  (`PbRoundTrip.ZeroDefaultsKeep`). A receiver with an older descriptor reads what it knows of the message, under the same
  condition (`PbRoundTrip.EncodeThenDecodeOlder`).

## How the model stands for the code

User keys are integers: only their order matters, and any finite set of keys under a strict total order is ordered like
integers. A file carries the entries of its table. Sequence numbers have 56 bits. The comparison of the heap is any
strict weak order. A checksum is any function that composes as `ios/Pods/leveldb-library/util/crc32c.h:14-17` says. Keys
on disk are any encoding that reads back. Sizes of batches, memtables and tables are parameters. Each background action
is one step, and mutexes are left out: a writer that would wait returns, and is called again after another step.

`Store.Faithful` says that every snapshot from the oldest live one on reads as the plain history; `Store.Harmless` says
of a step that, if it is a compaction, it uncovers nothing (`Drop.NothingUncovered`). `Drop.Kept` is what the two drop
rules leave; `DbIter.View` is the list of visible user keys; `Versions.Saved` is what a builder must produce.

`Drop.Needed` says which entries a compaction has to keep; `Cuts.Cutting.Stop` where an output has to end because of what
it overlaps; `Compaction.SetUp` which inputs a set of picked files leads to; `Database.Served` how a request is answered.

`Punycode.Wide` says, of the code points alone, that the first occurrence of some value lies more than 2^32 - 1 decoder
steps behind the code point handled before it.

A block has fewer than 2^32 bytes, as its offsets are 32-bit words. The iterator notes in `outside` that it has accepted
an entry that goes on behind the block.

In the pool each critical section is one step; steps of workers, submitters, a canceller and one loop interleave freely. A
signal wakes any waiting thread, and a waiting thread may wake up for no signal. `ThreadPool.Inv` is the invariant.

In nanopb an integer field has the width that its descriptor says; sizes and counts have the widest configuration, 32 bits;
a string is its content up to the NUL or the end of its buffer; a union whose tag is 0 has no value; the items of an
array behind its count do not exist; a word of the bitmap of required fields is the set of its bits. `PbWire.Settled` is
what a receiver is to make of a message, and `PbWire.SameMessage` compares flags, counts, union tags and values.
`PbSpliced.Spliced` says that bytes are a message in the order of its descriptor with unknown fields anywhere among its
own; `PbVersions.Restricts` that one message holds of another what an older descriptor knows.

The last fallback in `ios/Pods/Libuv-gRPC/src/heap-inl.h:179-181` clears `min` when the removed node is the root; by then
unlinking the slot has cleared it, and the model proves that the branch is never taken.

## Model

| member | source | states |
|---|---|---|
| Format.HistoryReadIsRead | ios/Pods/leveldb-library/db/db_impl.cc:1110-1155 | A read (the newest entry at or below the snapshot, tombstones hide) of the set of all logged writes is the backward scan of the plain history. |
| Tree.FindFile | ios/Pods/leveldb-library/db/version_set.cc:87-105 | The index found splits the level: every file before it ends below the key, and no file from it on does. |
| Tree.SomeFileOverlapsRange | ios/Pods/leveldb-library/db/version_set.cc:121-156 | True exactly when some file of the level meets the user-key range, both for the full scan and for the binary search. |
| Tree.GetOverlappingInputs | ios/Pods/leveldb-library/db/version_set.cc:498-538 | Terminates although it restarts; above level 0 it returns the files meeting the range in order; at level 0 all files meeting a grown range that every closed set has to cover, and they lie inside it. |
| Tree.OverlappingInputsLeast | ios/Pods/leveldb-library/db/version_set.cc:498-538 | The level-0 result is the least set of files that holds those meeting the range and is closed under user-key overlap. |
| Tree.PickLevelForMemTableOutput | ios/Pods/leveldb-library/db/version_set.cc:470-495 | The level is the deepest to which the table can descend: no file from level 0 down to it meets the range, nothing blocks a step before it, and short of level 2 the next step is blocked, by a file of the next level in the range or by too many bytes of the one after it; it is 0 if a file of level 0 meets the range. |
| Tree.TableGetResolves | ios/Pods/leveldb-library/db/memtable.cc:101-135 | The first entry at or above the lookup key settles a point lookup in a sorted run: the newest visible entry of the user key, or none. |
| Tree.LevelGetResolves | ios/Pods/leveldb-library/db/version_set.cc:304-321 | In a sorted level the one file found by binary search settles the lookup, even if the user key straddles two files. |
| Tree.SearchLevelZero | ios/Pods/leveldb-library/db/version_set.cc:281-302 | Searching the level-0 files that hold the key by descending file number and stopping at the first match finds the newest visible entry of the level. |
| Tree.SearchLevel | ios/Pods/leveldb-library/db/version_set.cc:304-321 | One binary search and at most one table find the newest visible entry of a deeper level. |
| Tree.VersionGet | ios/Pods/leveldb-library/db/version_set.cc:324-400 | Searching shallow to deep and stopping at the first match finds the newest visible entry over the whole tree. |
| Compaction.FindLargestKey | ios/Pods/leveldb-library/db/version_set.cc:1303-1317 | The key found is the largest of the files, and there is one unless there are no files. |
| Compaction.FindSmallestBoundaryFile | ios/Pods/leveldb-library/db/version_set.cc:1321-1339 | The file found continues the key with the same user key and starts first among those that do; None means no file does. |
| Compaction.AddBoundaryInputs | ios/Pods/leveldb-library/db/version_set.cc:1355-1378 | Terminates; the result is the inputs and then, one after another, the first file that continues the largest user key so far, until none does; a run of neighbouring files stays one. |
| Compaction.GetRange | ios/Pods/leveldb-library/db/version_set.cc:1182-1201 | The two keys are the least range that covers the inputs. |
| Compaction.CloseInputs | ios/Pods/leveldb-library/db/version_set.cc:1384-1388 | The inputs of the level are the picked files and those that continue them; the inputs of the next level are exactly its files in the user-key range of these. |
| Compaction.GrowInputs | ios/Pods/leveldb-library/db/version_set.cc:1390-1424 | The expansion is a closed set with all files of the level that meet the range of the inputs; it replaces the inputs exactly if it has more files of the level, no more of the next one, and stays under the size limit; no input is lost. |
| Compaction.SetupOtherInputs | ios/Pods/leveldb-library/db/version_set.cc:1380-1439 | The final inputs are the picked files closed, or, exactly if that is worthwhile and the next level has files in their range, the closed set of all files of the level in the range of both; the grandparents are exactly the files of the level after next that meet the range of all inputs. |
| Compaction.FileAfterPointer | ios/Pods/leveldb-library/db/version_set.cc:1263-1274 | The file is the first that ends behind the compaction pointer; the first of all exactly if none does. |
| Compaction.PickCompaction | ios/Pods/leveldb-library/db/version_set.cc:1247-1299 | The inputs are those that the picked file leads to, at level 0 with all files that it overlaps, near or far; the grandparents are exactly the files two levels down that meet their range. |
| Compaction.RangeInputs | ios/Pods/leveldb-library/db/version_set.cc:1441-1463 | A manual compaction picks, at level 0, the least closed set that holds the files in the range; deeper down the files in the range up to the first at which their total size reaches the limit; nothing exactly when no file meets the range. |
| Compaction.CompactRange | ios/Pods/leveldb-library/db/version_set.cc:1441-1472 | None exactly when no file of the level meets the range; otherwise the inputs are those that the files of the range lead to, and the grandparents exactly the files two levels down that meet their range. |
| Drop.CompactionPreservesReads | ios/Pods/leveldb-library/db/db_impl.cc:939-973 | For every well-formed tree and closed inputs: dropping by the two rules keeps every read at every snapshot from the smallest live one on if and only if no dropped tombstone uncovers a value in a file left in the output level. |
| Drop.CompactionReadAt | ios/Pods/leveldb-library/db/db_impl.cc:951-969 | One user key at one snapshot keeps its answer unless a value is uncovered for that key. |
| Drop.UncoveredRead | ios/Pods/leveldb-library/db/db_impl.cc:954-969 | An uncovered value is read at the smallest live snapshot, where the answer was absent. |
| Drop.KeptSorted | ios/Pods/leveldb-library/db/db_impl.cc:939-999 | What is left of the merged inputs is sorted. |
| Drop.KeptNeeded | ios/Pods/leveldb-library/db/db_impl.cc:939-973 | The two rules, which look only at the entry before, keep exactly this of sorted inputs: each entry that no earlier one of its user key at or below the smallest snapshot hides, except deletions at or below it whose user key no file below the output level holds in its range. |
| Drop.ChosenClosed | ios/Pods/leveldb-library/db/version_set.cc:1380-1425 | Inputs as the code chooses them leave nothing older of an input user key in the input level and everything in range in the next level; this holds at level 0 and deeper down. |
| Drop.NextClosedUncoversNothing | ios/Pods/leveldb-library/db/version_set.cc:1380-1388 | A guard that can be checked before the compaction: if no file of the next level continues the largest key of the inputs taken from it, nothing is uncovered. |
| Resurrection.DeletedValueReturns | ios/Pods/leveldb-library/db/version_set.cc:1380-1388 | A concrete run from the empty database, both compactions with inputs as the code chooses them, after which the history says that a key is absent and a read returns the value that was deleted; so some run is not faithful. |
| Iterators.SeekCuts | ios/Pods/leveldb-library/table/merger.cc:47-53 | A seek cuts every child at the same place of the merged order. |
| Iterators.MergingIterator.SmallestIs | ios/Pods/leveldb-library/table/merger.cc:148-161 | With every child cut at m, the child with the least key shows entry m of the sorted union. |
| Iterators.MergingIterator.LargestIs | ios/Pods/leveldb-library/table/merger.cc:163-176 | With every child cut before m, the child with the greatest key shows entry m - 1. |
| Iterators.MergingIterator.FindSmallest | ios/Pods/leveldb-library/table/merger.cc:148-161 | Selects the entry of the sorted union at which all children are cut. |
| Iterators.MergingIterator.FindLargest | ios/Pods/leveldb-library/table/merger.cc:163-176 | The same backwards. |
| Iterators.MergingIterator.Seek | ios/Pods/leveldb-library/table/merger.cc:47-53 | The iterator is a cursor over the sorted union: it goes to the first entry at or above the target, or becomes invalid. |
| Iterators.MergingIterator.SeekToFirst | ios/Pods/leveldb-library/table/merger.cc:31-37 | Goes to the first entry of the sorted union. |
| Iterators.MergingIterator.SeekToLast | ios/Pods/leveldb-library/table/merger.cc:39-45 | Goes to the last entry of the sorted union. |
| Iterators.MergingIterator.Next | ios/Pods/leveldb-library/table/merger.cc:55-79 | One entry forward from whatever direction it was moving; every other child ends up strictly behind the current key. |
| Iterators.MergingIterator.Prev | ios/Pods/leveldb-library/table/merger.cc:81-108 | One entry back from whatever direction; every other child ends up strictly before the current key. |
| DbIter.DBIter.Seek | ios/Pods/leveldb-library/db/db_iter.cc:278-290 | Goes to the first visible user key at or above the target. |
| DbIter.DBIter.SeekToFirst | ios/Pods/leveldb-library/db/db_iter.cc:292-301 | Goes to the first visible user key. |
| DbIter.DBIter.SeekToLast | ios/Pods/leveldb-library/db/db_iter.cc:303-308 | Goes to the last visible user key. |
| DbIter.DBIter.Next | ios/Pods/leveldb-library/db/db_iter.cc:141-175 | One visible user key forward, also right after moving backwards. |
| DbIter.DBIter.Prev | ios/Pods/leveldb-library/db/db_iter.cc:209-234 | One visible user key back, also right after moving forwards. |
| DbIter.DBIter.FindNextUserEntry | ios/Pods/leveldb-library/db/db_iter.cc:177-207 | The forward scan stops at the first entry that its user key shows at the sequence number. |
| DbIter.DBIter.FindPrevUserEntry | ios/Pods/leveldb-library/db/db_iter.cc:236-276 | The backward scan stops with the last such entry saved. |
| DbIter.ViewSorted | ios/Pods/leveldb-library/db/db_iter.cc:177-207 | The list of visible user keys is strictly increasing. |
| DbIter.ViewIsRead | ios/Pods/leveldb-library/db/db_iter.cc:177-207 | A key and value are in the list exactly when a point read of the same data returns that value. |
| DbIter.DBIter.ShowsListed | ios/Pods/leveldb-library/db/db_iter.cc:61-72 | What the iterator shows as key and value is the entry of the list at its place. |
| Versions.InsertFileMembers | ios/Pods/leveldb-library/db/version_set.cc:569-588 | Insertion into the ordered set of added files keeps the order and the old members and adds the file if its number is new. |
| Versions.Builder.Apply | ios/Pods/leveldb-library/db/version_set.cc:625-668 | Deletions, then additions, level by level; an added file is no longer deleted. |
| Versions.Builder.SaveLevel | ios/Pods/leveldb-library/db/version_set.cc:675-693 | The merge of base and added files is ordered and holds exactly the live ones. |
| Versions.Builder.SaveTo | ios/Pods/leveldb-library/db/version_set.cc:670-711 | The same for every level. |
| Versions.MergeIsSaved | ios/Pods/leveldb-library/db/version_set.cc:675-693 | Merging two ordered lists without shared numbers and skipping deleted numbers gives the ordered list of live files. |
| Versions.AddAllMembers | ios/Pods/leveldb-library/db/version_set.cc:638-667 | Additions with new numbers take in every file of the level and undelete its number. |
| Edits.RemovalsAt | ios/Pods/leveldb-library/db/version_set.cc:1502-1508 | Recording the removal of files adds exactly their numbers to the deletions at their level and leaves every other level alone; the set stays ordered. |
| Edits.ReplacingEditOk | ios/Pods/leveldb-library/db/db_impl.cc:869-885 | The edit deletes exactly the numbers of the inputs at their two levels and nothing elsewhere, in order, and adds the outputs one level down. |
| Edits.LogAndApply | ios/Pods/leveldb-library/db/version_set.cc:777-806 | The new version holds, in order, exactly the live files of every level. |
| Edits.InstallCompactionResults | ios/Pods/leveldb-library/db/db_impl.cc:869-885 | The new tree is the old one with the inputs removed and the outputs added to the next level. |
| Edits.FlushInstalls | ios/Pods/leveldb-library/db/db_impl.cc:544-575 | The new tree is the old one with one file added. |
| Install.ReplacedTreeOk | ios/Pods/leveldb-library/db/db_impl.cc:869-885 | Replacing closed inputs by outputs made of their entries keeps every level sorted and disjoint and newer data above older data. |
| Install.ReplacedTreeData | ios/Pods/leveldb-library/db/db_impl.cc:869-885 | Afterwards the tree holds its old entries without the inputs, and the outputs. |
| Install.AddedTreeOk | ios/Pods/leveldb-library/db/db_impl.cc:500-542 | Adding the newest table at the level picked for it keeps the tree well-formed. |
| Work.CompactionState.IsBaseLevelForKey | ios/Pods/leveldb-library/db/version_set.cc:1510-1529 | For user keys that do not decrease the moving level pointers answer the same as a full scan of all deeper levels. |
| Work.CompactionState.ShouldStopBefore | ios/Pods/leveldb-library/db/version_set.cc:1531-1553 | Answers stop exactly if the grandparents passed since the current output began hold more bytes than the limit; the position passes exactly those that end before the key. |
| Work.ShouldDrop | ios/Pods/leveldb-library/db/db_impl.cc:939-973 | The decision is that of the two rules, of which Drop.KeptNeeded says exactly what they keep. |
| Work.FinishCompactionOutputFile | ios/Pods/leveldb-library/db/db_impl.cc:820-867 | Closes the current output without losing an entry. |
| Work.CompactEntry | ios/Pods/leveldb-library/db/db_impl.cc:932-999 | One round of the loop keeps: the outputs so far hold exactly what the rules leave of the entries so far, and have been cut exactly where they should. |
| Work.DoCompactionWork | ios/Pods/leveldb-library/db/db_impl.cc:887-1014 | The outputs hold, in order, exactly the entries that are still needed: those that no newer one which every snapshot sees hides, except deletions which every snapshot sees with no file further down that holds their key; they have consecutive new numbers, their true sizes, and none is empty; none goes on after reaching the target size or across a stop, and each cut has one of these two reasons. |
| Cuts.CountOn | ios/Pods/leveldb-library/db/version_set.cc:1531-1553 | The running counters answer as the definition of a stop: more than the limit of bytes of grandparents have been passed since the last one. |
| Cuts.LittleOverlap | ios/Pods/leveldb-library/db/version_set.cc:1531-1553 | The files two levels down that end between the first and the last key of an output hold at most ten times the target size. |
| Cuts.CloseAtStop | ios/Pods/leveldb-library/db/db_impl.cc:932-937 | A stop closes the open output, for that reason, and leaves every other cut right. |
| Cuts.JoinEntry | ios/Pods/leveldb-library/db/db_impl.cc:975-999 | An entry joins the open output without crossing a stop. |
| Runs.InsertSorted | ios/Pods/leveldb-library/db/skiplist.h:336-368 | Inserting an entry with a new key into a sorted run keeps it sorted and adds just that entry. |
| Runs.MergeExists | ios/Pods/leveldb-library/table/merger.cc:14-27 | Sorted runs that share nothing have a sorted union. |
| Runs.ConcatSorted | ios/Pods/leveldb-library/db/version_set.cc:222-227 | The files of a sorted level one after another are one sorted run of the level's entries. |
| Runs.ChosenRuns | ios/Pods/leveldb-library/db/version_set.cc:1214-1245 | The inputs of a compaction are sorted runs that share no entry and hold exactly the input data: one per level-0 file, one per deeper level. |
| Runs.MakeInputIterator | ios/Pods/leveldb-library/db/version_set.cc:1214-1245 | The input iterator runs over the sorted union of the inputs. |
| Runs.AddIterators | ios/Pods/leveldb-library/db/version_set.cc:229-245 | With the version's iterators added, the runs hold all entries of the tree, each once. |
| Store.WriteKeeps | ios/Pods/leveldb-library/db/db_impl.cc:1218-1249 | A grouped write keeps the tree well-formed and every readable snapshot faithful. |
| Store.FlushKeeps | ios/Pods/leveldb-library/db/db_impl.cc:544-575 | So does a flush to the level picked for it. |
| Store.MoveKeeps | ios/Pods/leveldb-library/db/db_impl.cc:727-742 | So does a trivial move. |
| Store.CompactKeeps | ios/Pods/leveldb-library/db/db_impl.cc:887-1046 | A compaction keeps the tree well-formed, and keeps readable snapshots faithful exactly when it uncovers nothing. |
| Store.SnapshotKeeps | ios/Pods/leveldb-library/db/db_impl.cc:1176-1184 | Taking and releasing snapshots keeps both. |
| Store.StepKeeps | ios/Pods/leveldb-library/db/db_impl.cc:1195-1266 | Every step keeps the tree well-formed; it keeps faithfulness exactly when it is harmless. |
| Store.RunWellFormed | ios/Pods/leveldb-library/db/db_impl.cc:697-776 | Over every run: levels 1 to 6 sorted and disjoint, newer data above older data, every entry written once. |
| Store.RunFaithful | ios/Pods/leveldb-library/db/db_impl.cc:1110-1155 | Over every run: all readable snapshots have read as the plain history at every point so far if and only if every compaction so far uncovered nothing. |
| Store.OldestLive | ios/Pods/leveldb-library/db/db_impl.cc:899-903 | The oldest snapshot is live, or the last sequence number if none is, and no live one is older. |
| Store.GuardedCompaction | ios/Pods/leveldb-library/db/version_set.cc:1380-1388 | In every reachable state a compaction of chosen inputs that passes the guard uncovers nothing. |
| Database.BuildBatchGroup | ios/Pods/leveldb-library/db/db_impl.cc:1270-1316 | The group is the longest prefix of the queue in which each writer may join those before it: no synced write behind an unsynced leader, bytes within 1 MiB or, behind a leader of at most 128 KiB, within 128 KiB more than it has; its operations are theirs in order. |
| Database.InsertInto | ios/Pods/leveldb-library/db/write_batch.cc:132-137 | The operations get consecutive sequence numbers and all of them enter the memtable. |
| Database.DBImpl.constructor | ios/Pods/leveldb-library/db/db_impl.cc:124-150 | An empty database is the initial state. |
| Database.DBImpl.Enqueue | ios/Pods/leveldb-library/db/db_impl.cc:1201-1202 | What is handed over is either written or queued, in order. |
| Database.DBImpl.MakeRoomForWrite | ios/Pods/leveldb-library/db/db_impl.cc:1320-1380 | If the memtable is within its limit and no flush is forced, there is room and nothing changes; otherwise the writer waits exactly if a memtable is still to be flushed or level 0 has 12 files, and else the memtable is switched, once. |
| Database.DBImpl.Write | ios/Pods/leveldb-library/db/db_impl.cc:1195-1266 | The head of the queue writes its group: exactly those writers leave the queue and their operations take the next sequence numbers; it waits exactly in those two cases. |
| Database.DBImpl.Get | ios/Pods/leveldb-library/db/db_impl.cc:1110-1155 | Memtable, immutable memtable, tree: the answer is the read of all data, and, while every compaction uncovered nothing, what the plain history of operations says at every live snapshot and now. |
| Database.DBImpl.NewIterator | ios/Pods/leveldb-library/db/db_impl.cc:1072-1097 | A new iterator lists, in order, exactly the user keys and values of the plain history at its snapshot, under the same condition. |
| Database.DBImpl.GetSnapshot | ios/Pods/leveldb-library/db/db_impl.cc:1176-1179 | The snapshot is the last sequence number. |
| Database.DBImpl.ReleaseSnapshot | ios/Pods/leveldb-library/db/db_impl.cc:1181-1184 | Only that snapshot goes. |
| Database.DBImpl.CompactMemTable | ios/Pods/leveldb-library/db/db_impl.cc:544-575 | The immutable memtable is gone, as one step; a file is added exactly if it was not empty, with its entries, its size and the next number, at the deepest level, down to 2, that it can reach. |
| Database.DBImpl.MoveFile | ios/Pods/leveldb-library/db/db_impl.cc:727-742 | A trivial move is a step of the state machine. |
| Database.DBImpl.CompactFiles | ios/Pods/leveldb-library/db/db_impl.cc:887-1046 | A compaction is a step of the state machine with just these inputs, whose outputs hold exactly what is needed at the oldest live snapshot, cut where they should be. |
| Database.DBImpl.BackgroundCompaction | ios/Pods/leveldb-library/db/db_impl.cc:697-776 | At most one step: the flush if there is something to flush; else, for a request, a step whose inputs are exactly those that the request leads to: the file after the level's pointer, the file asked for, or the files of the range; a mere move exactly if it is not manual, there is a single file, nothing in the next level meets it and the grandparents hold at most the limit. The pointer moves to the largest key taken; what is left of a manual range begins where the files taken end. |
| Database.AskedTaken | ios/Pods/leveldb-library/db/version_set.cc:1247-1299 | Of inputs that a request leads to: the file it asks for is among them; of a manual range, all files that meet it at level 0 and the first of them deeper down. |
| Coding.DecodeEncodeFixed32 | ios/Pods/leveldb-library/util/coding.h:54-92 | Fixed-width words read back. |
| Coding.UnmaskMask | ios/Pods/leveldb-library/util/crc32c.h:29-38 | Unmasking undoes masking for every 32-bit checksum. |
| Coding.PutVarint32 | ios/Pods/leveldb-library/util/coding.cc:21-53 | The unrolled encoder writes the same bytes as the general definition. |
| Coding.PutVarint64 | ios/Pods/leveldb-library/util/coding.cc:55-70 | So does the loop. |
| Coding.GetVarintPtr | ios/Pods/leveldb-library/util/coding.cc:86-102 | The shifting scan reads what the definition says, within its limit of groups. |
| Coding.GetPutVarint | ios/Pods/leveldb-library/util/coding.cc:104-153 | Variable-length integers of both widths read back, whatever follows. |
| Coding.GetPutSlice | ios/Pods/leveldb-library/util/coding.cc:155-164 | Length-prefixed strings read back, whatever follows. |
| Log.Writer.EmitPhysicalRecord | ios/Pods/leveldb-library/db/log_writer.cc:82-108 | Appends header and data of one fragment. |
| Log.Writer.AddRecord | ios/Pods/leveldb-library/db/log_writer.cc:34-80 | The file stays the log of the records added so far, for every record length and every position in the block. |
| Log.LogAppend | ios/Pods/leveldb-library/db/log_writer.cc:34-80 | One more record appends exactly its fragments. |
| Log.Reader.Refill | ios/Pods/leveldb-library/db/log_reader.cc:189-216 | After a refill the buffer starts behind the padding and stays in one block; otherwise the file has no further header. |
| Log.Reader.TakeFragment | ios/Pods/leveldb-library/db/log_reader.cc:218-270 | What each kind of header does: a truncated fragment ends the file, a bad one drops the buffer and is reported, a good one is taken off. |
| Log.Reader.ReadPhysicalRecord | ios/Pods/leveldb-library/db/log_reader.cc:189-271 | On a log cut off anywhere: the next fragment if all of it is there, the end otherwise, and nothing is reported. |
| Log.Reader.ReadRecord | ios/Pods/leveldb-library/db/log_reader.cc:56-174 | On a log cut off anywhere: the next record if all of it is there, the end otherwise, and nothing is reported. |
| Log.ReadLog | ios/Pods/leveldb-library/db/log_reader.cc:56-174 | A whole log reads back exactly; a log cut off at any byte reads back as exactly the records that are whole, with nothing reported. |
| EditCodec.ParseBody | ios/Pods/leveldb-library/db/version_edit.cc:106-190 | Every field of an edit reads back as it was written. |
| EditCodec.EncodeTo | ios/Pods/leveldb-library/db/version_edit.cc:41-84 | Writes the fields in order. |
| EditCodec.DecodeFrom | ios/Pods/leveldb-library/db/version_edit.cc:106-203 | The loop reads what the definition says, errors included. |
| EditCodec.DecodeEncode | ios/Pods/leveldb-library/db/version_edit.cc:41-203 | Every edit reads back as it was written. |
| Replay.ReplayIsVersion | ios/Pods/leveldb-library/db/version_set.cc:625-711 | If a file number enters a level at most once, the files live in one builder after all the edits are those of the version made edit by edit. |
| Replay.ReplaySaves | ios/Pods/leveldb-library/db/version_set.cc:862-960 | What that builder saves is the last version, file for file. |
| Manifest.RecordReads | ios/Pods/leveldb-library/db/version_set.cc:828-833 | The record of an edit is read back as the edit. |
| Manifest.ApplyRecord | ios/Pods/leveldb-library/db/version_set.cc:899-915 | A record is applied exactly when it decodes and names no other comparator. |
| Manifest.Finish | ios/Pods/leveldb-library/db/version_set.cc:941-974 | Recovery fails exactly when a number is missing. |
| Manifest.Recover | ios/Pods/leveldb-library/db/version_set.cc:862-987 | A descriptor log cut off at any byte recovers the version after exactly the edits that are whole, with the numbers of the last of them; fewer than two whole records are an error. |
| VersionSet.SnapshotSaves | ios/Pods/leveldb-library/db/version_set.cc:1064-1092 | The snapshot edit makes the version out of nothing. |
| VersionSet.VersionSet.WriteSnapshot | ios/Pods/leveldb-library/db/version_set.cc:1064-1092 | Starts a log that holds the snapshot. |
| VersionSet.VersionSet.LogAndApply | ios/Pods/leveldb-library/db/version_set.cc:777-860 | The version is the one the edit makes, and the log holds the snapshot and all edits so far; the last one has the files of the edit, the next file number, the last sequence number, and log numbers, its own if it names any. |
| VersionSet.RecoverFrom | ios/Pods/leveldb-library/db/version_set.cc:862-987 | After any run of edits, the log cut off at any byte recovers the version after some prefix of them; the whole log recovers the current version. |
| Journal.RunJournal | ios/Pods/leveldb-library/db/version_set.cc:777-860 | Over every run of the database the logged edits make its trees one after another, and a file number enters a level at most once. |
| Recovery.RunWritten | ios/Pods/leveldb-library/db/version_set.cc:777-860 | What a run of the database logs behind a snapshot of the empty tree is a log that recovery can read. |
| Recovery.RecoverRun | ios/Pods/leveldb-library/db/version_set.cc:862-987 | After any run of the database, its descriptor log cut off at any byte recovers the tree after exactly the logged steps whose records are whole; the whole log recovers the tree the run ended with. |
| Blocks.BuiltLaid | ios/Pods/leveldb-library/table/block_builder.cc:71-105 | Every entry lies behind the one before and continues its key by just what the two share; every restart point is the start of an entry whose key is stored whole. |
| Blocks.BlockBuilder.Add | ios/Pods/leveldb-library/table/block_builder.cc:71-105 | The buffer, restart points, counter and last key stay those of the entries added so far. |
| Blocks.BlockBuilder.Finish | ios/Pods/leveldb-library/table/block_builder.cc:61-69 | The block is the entries and the restart points in 32-bit words. |
| Blocks.DecodeEntry | ios/Pods/leveldb-library/table/block.cc:55-75 | The fast path for three one-byte lengths agrees with the general one; both add the lengths as 32-bit words. |
| Blocks.DecodedOf | ios/Pods/leveldb-library/table/block.cc:55-75 | An entry that was written decodes to its lengths, whatever follows. |
| Blocks.AcceptedInside | ios/Pods/leveldb-library/table/block.cc:71-73 | An accepted entry lies inside the block if and only if the sum of its two lengths does not wrap. |
| Blocks.WrappedLengths | ios/Pods/leveldb-library/table/block.cc:71-73 | Eight bytes that are accepted although the entry they announce is longer than four billion bytes. |
| BlockIter.TableOf | ios/Pods/leveldb-library/table/block.cc:92-113 | The bytes of a built block decode, at every offset and restart point, to its entries. |
| BlockIter.Iter.ParseNextKey | ios/Pods/leveldb-library/table/block.cc:225-252 | On a built block: goes from entry to entry with the whole key rebuilt, and ends behind the last one. On any block: goes forward, and stays inside unless an accepted entry has lengths that wrap. |
| BlockIter.Iter.Next | ios/Pods/leveldb-library/table/block.cc:138-141 | From entry i to entry i + 1 of a built block. |
| BlockIter.Iter.Prev | ios/Pods/leveldb-library/table/block.cc:143-162 | From entry i to entry i - 1, by the last restart point before it; invalid before the first. |
| BlockIter.Iter.Seek | ios/Pods/leveldb-library/table/block.cc:164-202 | On a built block with increasing keys: goes to the first entry at or above the target, or becomes invalid if there is none. |
| BlockIter.Iter.SeekToLast | ios/Pods/leveldb-library/table/block.cc:209-214 | Goes to the last entry. |
| BlockIter.NewIterator | ios/Pods/leveldb-library/table/block.cc:25-40 | Bad exactly if the restart points announced at the end cannot all be there, empty exactly if there are none; on the bytes of a built block the iterator runs over the entries that were added. |
| BlockIter.BuildAndRead | ios/Pods/leveldb-library/table/block.cc:138-162 | For every list of pairs and every restart interval: what is built reads back as exactly these pairs, forwards by Next and backwards by Prev. |
| Punycode.DecodeEncodeInteger | ios/Pods/Libuv-gRPC/src/idna.c:185-212 | A variable-length integer reads back under the same bias, whatever follows. |
| Punycode.PutInteger | ios/Pods/Libuv-gRPC/src/idna.c:185-215 | The digit loop writes that integer. |
| Punycode.NextBias | ios/Pods/Libuv-gRPC/src/idna.c:217-236 | The bias loop computes the adaptation of RFC 3492, section 6.1. |
| Punycode.InsertInStep | ios/Pods/Libuv-gRPC/src/idna.c:180-240 | Writing delta at a code point makes the decoder insert that code point in its place among those handled. |
| Punycode.Round | ios/Pods/Libuv-gRPC/src/idna.c:176-238 | One pass over the label keeps encoder and decoder in step. |
| Punycode.PutDeltas | ios/Pods/Libuv-gRPC/src/idna.c:156-243 | All deltas together decode to the label; an overflow is reported exactly for the labels in which the delta of some value's first occurrence needs more than 32 bits. |
| Punycode.ToAsciiLabel | ios/Pods/Libuv-gRPC/src/idna.c:102-246 | The text behind "xn--" decodes, by the procedure of RFC 3492, section 6.2, to exactly the label; an ASCII label is copied; a label is malformed exactly if its text was, and then nothing is written; it is too big exactly if some delta needs more than 32 bits; the buffer gets as much as fits, and is unchanged before and behind. |
| Heap.PathTo | ios/Pods/Libuv-gRPC/src/heap-inl.h:113-117 | Following the collected bits from the root leads to position n. |
| Heap.Heap.Descend | ios/Pods/Libuv-gRPC/src/heap-inl.h:119-129 | The slot reached is that of position n. |
| Heap.Heap.Swap | ios/Pods/Libuv-gRPC/src/heap-inl.h:67-100 | Node and child exchange positions and every link of the tree is right again. |
| Heap.Heap.Insert | ios/Pods/Libuv-gRPC/src/heap-inl.h:102-142 | The tree stays complete, linked and ordered, and holds exactly one more node. |
| Heap.Heap.Remove | ios/Pods/Libuv-gRPC/src/heap-inl.h:144-233 | The tree stays complete, linked and ordered, and holds exactly one node less, wherever the node was. |
| Heap.Heap.Dequeue | ios/Pods/Libuv-gRPC/src/heap-inl.h:235-237 | Removes a node that no other one comes before. |
| Heap.RootIsLeast | ios/Pods/Libuv-gRPC/src/heap-inl.h:53-55 | The root comes first. |
| Heap.UpStep | ios/Pods/Libuv-gRPC/src/heap-inl.h:140-142 | Moving a node up past its parent leaves at most one violation, one level higher. |
| Heap.DownStep | ios/Pods/Libuv-gRPC/src/heap-inl.h:213-223 | Moving a node down to its first child leaves at most one violation, one level lower. |
| Punycode.WideIsLong | ios/Pods/Libuv-gRPC/src/idna.c:180-199 | Only labels with thousands of code points have a delta of more than 32 bits. |
| Punycode.WideLabel | ios/Pods/Libuv-gRPC/src/idna.c:180-199 | Such labels exist: 4000 ASCII code points and the last code point of all. |
| ThreadPool.StepKeeps | ios/Pods/Libuv-gRPC/src/threadpool.c:57-160 | Every critical section keeps the invariant: each request is in exactly one place, slow work stays within its share, no wake-up is lost. |
| ThreadPool.RunKeeps | ios/Pods/Libuv-gRPC/src/threadpool.c:57-160 | So it holds over every run of any number of threads, and the pool keeps its size. |
| ThreadPool.CalledOnce | ios/Pods/Libuv-gRPC/src/threadpool.c:269-315 | Over every run no request is called back or run twice, and a callback is told of a cancellation exactly if no worker ran the request. |
| ThreadPool.CancelAnswer | ios/Pods/Libuv-gRPC/src/threadpool.c:275-277 | A request can be cancelled exactly as long as no worker has taken it. |
| ThreadPool.SlowShare | ios/Pods/Libuv-gRPC/src/threadpool.c:90-117 | Over every run at most half of the threads, rounded up, run slow work, and while some is pending the message to run it is queued. |
| ThreadPool.NoneForgotten | ios/Pods/Libuv-gRPC/src/threadpool.c:69-78 | When every thread sleeps both queues are empty. |
| ThreadPool.AllCalled | ios/Pods/Libuv-gRPC/src/threadpool.c:295-315 | When moreover the loop has nothing left, every request has been called back. |
| PoolOrder.ServedInOrder | ios/Pods/Libuv-gRPC/src/threadpool.c:142-160 | Over every run, for fast and for slow work: the requests submitted, without those cancelled, are the ones that workers took, in the order in which they took them, and then the ones pending. |
| PoolOrder.EarlierFirst | ios/Pods/Libuv-gRPC/src/threadpool.c:142-160 | Of two requests of one kind, if a worker has taken the later one, one has taken the earlier one before it, or that was cancelled. |
| PoolOrder.LookServes | ios/Pods/Libuv-gRPC/src/threadpool.c:71-117 | A worker takes the first slow request if the message for it is at the head and its share allows it, otherwise the first fast one, and sleeps only if there is neither. |
| PoolOrder.CallbacksInOrder | ios/Pods/Libuv-gRPC/src/threadpool.c:295-315 | Over every run callbacks run in the order in which the loop was handed the requests. |
| ThreadPool.Pool.Submit | ios/Pods/Libuv-gRPC/src/threadpool.c:142-160 | Posting a request is the step of the state machine, and keeps the invariant. |
| ThreadPool.Pool.Worker | ios/Pods/Libuv-gRPC/src/threadpool.c:65-119 | A worker's section from taking the mutex until it sleeps or runs a request, loops included, is one step of the state machine. |
| ThreadPool.Pool.CancelTake | ios/Pods/Libuv-gRPC/src/threadpool.c:269-283 | Cancelling succeeds exactly if no worker has taken the request, and unlinks it. |
| ThreadPool.Pool.CallDone | ios/Pods/Libuv-gRPC/src/threadpool.c:307-314 | The callback is told of a cancellation exactly if the request was not run. |
| PbCommon.FieldIter.Next | ios/Pods/nanopb/pb_common.c:29-85 | Goes to the next field, or around to the first; the place in the structure and the count of required fields follow. |
| PbCommon.FieldIter.Find | ios/Pods/nanopb/pb_common.c:87-104 | Finds a field with the tag, wherever it stands; fails exactly if there is none. |
| PbWire.SettledSame | ios/Pods/nanopb/pb_decode.c:1084-1096 | What a receiver makes of a message is the message if and only if no zero that was left out has another default. |
| PbEncode.EncodeVarint | ios/Pods/nanopb/pb_encode.c:608-628 | Writes the variable-length bytes of the number, or reports that they do not fit. |
| PbEncode.EncodeSubmessage | ios/Pods/nanopb/pb_encode.c:717-765 | Writes the size and then exactly the bytes of the submessage; fails only if a count is out of range or the room is too small, so the size counted in the first pass is always that of the second. |
| PbEncode.EncodeArray | ios/Pods/nanopb/pb_encode.c:147-236 | Writes a packed array behind its size, or its items each with the tag; fails exactly if the count is out of range, an item cannot be written or the room is too small. |
| PbEncode.CheckProto3Default | ios/Pods/nanopb/pb_encode.c:240-337 | A field counts as absent exactly if its value is zero throughout. |
| PbEncode.Encode | ios/Pods/nanopb/pb_encode.c:528-550 | Writes exactly the bytes of the message; succeeds if and only if all counts are in range and the bytes fit. |
| PbStream.DecodeVarint32 | ios/Pods/nanopb/pb_decode.c:187-247 | Any 32-bit number reads back, whatever follows; the end of the stream is told from an error. |
| PbStream.DecodeVarint | ios/Pods/nanopb/pb_decode.c:255-275 | Any 64-bit number reads back, whatever follows. |
| PbStream.DecodeTag | ios/Pods/nanopb/pb_decode.c:298-319 | Tag and wire type read back. |
| PbStream.MakeStringSubstream | ios/Pods/nanopb/pb_decode.c:372-385 | The substream is exactly the announced part, and the stream goes on behind it. |
| PbStream.SkipField | ios/Pods/nanopb/pb_decode.c:321-331 | Skipping by wire type leaves the stream exactly behind the field, whatever it holds. |
| PbVersions.ValuePayload | ios/Pods/nanopb/pb_encode.c:769-910 | What any type writes behind its tag is what skipping by its wire type takes. |
| PbVersions.WireRestricted | ios/Pods/nanopb/pb_encode.c:528-550 | What a sender writes is, for a reader with an older descriptor, what it knows of the message among fields that it does not know, here and in submessages. |
| PbVersions.WireSpliced | ios/Pods/nanopb/pb_encode.c:528-550 | What a sender writes is the message itself for a reader with the same descriptor. |
| PbValue.SignedWord | ios/Pods/nanopb/pb_decode.c:1345-1380 | A negative number that was written as a 64-bit word reads back, at 64 bits and from its low 32. |
| PbValue.DecodeVarintField | ios/Pods/nanopb/pb_decode.c:1345-1380 | A number of any field width reads back. |
| PbValue.DecodeBytes | ios/Pods/nanopb/pb_decode.c:1447-1523 | Bytes and strings read back; a string that was written is refused exactly if it leaves no room for its NUL. |
| PbCommon.DefaultsAt | ios/Pods/nanopb/pb_decode.c:845-928 | In a structure set to its defaults the slot of every field, from first to last and unions included, is at the default of that field: a union without a value, an array empty, a flag off, a submessage at its own defaults. |
| PbDecode.DecodePacked | ios/Pods/nanopb/pb_decode.c:430-465 | A packed array reads back item by item. |
| PbDecode.DecodeStaticField | ios/Pods/nanopb/pb_decode.c:406-483 | The next item of an array, or the value of any other field, goes to its place, also if it is a submessage with unknown fields; it fails exactly if a string in it has no room for its NUL. |
| PbDecode.DecodeField | ios/Pods/nanopb/pb_decode.c:740-766 | One known field off the wire leads from one stage of the message to the next, or shows that it cannot be read. |
| PbDecode.CheckRequired | ios/Pods/nanopb/pb_decode.c:1032-1076 | The comparison of bitmap words holds exactly if every required field, up to the limit, was seen. |
| PbDecode.DecodeNoInit | ios/Pods/nanopb/pb_decode.c:934-1082 | From the defaults, any stream that holds the fields of a message in the order of the descriptor, with unknown fields anywhere among them and in submessages, gives what its receiver is to get; it fails exactly if some string has no room for its NUL. |
| PbDecode.Decode | ios/Pods/nanopb/pb_decode.c:1084-1096 | The same, whatever the structure held before. |
| PbRoundTrip.EncodeThenDecode | ios/Pods/nanopb/pb_decode.c:1084-1096 | For every descriptor and message: encoding succeeds exactly if counts are in range and the buffer is large enough; decoding what was written succeeds exactly if every string left room for its NUL; and the result is the message exactly if no zero was left out whose default is something else. |
| PbRoundTrip.EncodeThenDecodeOlder | ios/Pods/nanopb/pb_decode.c:966-994 | For every two descriptors of which the reader's has some of the sender's fields: what was encoded decodes exactly if every string the reader knows left room for its NUL, and then to the message restricted to the known fields. |
| PbRoundTrip.ReadPastUnknown | ios/Pods/nanopb/pb_decode.c:321-331 | Eleven bytes that hold an unknown number of eight bytes and a required bool decode to the bool. |
| PbRoundTrip.ZeroDefaultsKeep | ios/Pods/nanopb/pb_encode.c:240-337 | Descriptors in which no field without a flag has a non-zero default give every message back. |
| PbRoundTrip.UnterminatedString | ios/Pods/nanopb/pb_encode.c:873-897 | A string that fills its buffer is written but cannot be read back. |
| PbRoundTrip.FalseBecomesTrue | ios/Pods/nanopb/pb_encode.c:240-337 | A false whose default is true comes back as true. |
| KnownBytes.VarintIs | ios/Pods/leveldb-library/util/coding.cc:21-70 | Groups of seven bits with the lowest first, and the top bit set on all bytes but the last. |
| KnownBytes.MaskIs | ios/Pods/leveldb-library/util/crc32c.h:29-38 | The stored form of a checksum, for five checksums. |
| KnownBytes.RecordIs | ios/Pods/leveldb-library/db/log_writer.cc:34-80 | A record at any place in the file is one fragment of kind 1, or one of kind 2, any of kind 3 and one of kind 4, whose data join to it; all but the last fill their block of 32768 bytes. |
| KnownBytes.FragmentIs | ios/Pods/leveldb-library/db/log_writer.cc:82-108 | A fragment is the masked checksum of kind and data in four bytes, the length in two with the lower first, the kind, and the data. |
| KnownBytes.PaddingIs | ios/Pods/leveldb-library/db/log_writer.cc:43-54 | Fewer than 7 bytes at the end of a block are zeros. |
| KnownBytes.FieldsAre | ios/Pods/leveldb-library/db/version_edit.cc:12-24 | The tags of the fields of a version edit and what is behind them. |
| KnownBytes.OrderIs | ios/Pods/leveldb-library/db/version_edit.cc:41-84 | The order in which the fields of an edit are written. |
| KnownBytes.RestartsAre | ios/Pods/leveldb-library/table/block_builder.cc:71-105 | Restart points are exactly the entries whose number is a multiple of the interval; every other key shares with the one before it all that it can. |
| KnownBytes.BlockIs | ios/Pods/leveldb-library/table/block_builder.cc:61-105 | The twenty bytes of a block of two entries. |
| PbKnown.WireTypesAre | ios/Pods/nanopb/pb_encode.c:675-707 | The wire type of every field type. |
| PbKnown.NumbersAre | ios/Pods/nanopb/pb_encode.c:769-844 | 150 and -1, as variable-length and as zigzag numbers. |
| PbKnown.NumberIs | ios/Pods/nanopb/pb_encode.c:528-550 | A message with 150 as field 1 is 08 96 01. |
| PbKnown.NestedIs | ios/Pods/nanopb/pb_encode.c:717-765 | As a submessage in field 3 it is 1A 03 08 96 01. |
| PbKnown.PackedIs | ios/Pods/nanopb/pb_encode.c:147-236 | The eight bytes of a packed array of 3, 270 and 86942. |
| PbKnown.LimitsAre | ios/Pods/nanopb/pb_encode.c:147-160 | An array and a byte array may be full; a string must leave room for its NUL. |
| PbKnown.ZeroLeftOut | ios/Pods/nanopb/pb_encode.c:240-337 | A zero is left out if it has no flag, and only then. |
| PunycodeKnown.JapaneseIs | ios/Pods/Libuv-gRPC/src/idna.c:159-243 | "d9juau41awczczp" is the label of seven Japanese code points from RFC 3492, section 7.1. |
| PunycodeKnown.GermanIs | ios/Pods/Libuv-gRPC/src/idna.c:133-243 | "bcher-kva" is the label with u umlaut as its second code point. |

## Left out

- Threads, mutexes and condition variables of the database; the memtable flush that runs inside a running compaction; I/O errors, background errors, shutdown and repair; write delays.
- Read sampling, seek counts and the compaction score: which level a background compaction takes is a parameter.
- Sequence numbers beyond 56 bits: the code would overwrite the type bits; the model stops one write before.
- How a table is made of blocks (index and filter blocks, compression, checksums of blocks), the table cache and the block cache: a table is its sorted entries. The two-level iterator over the files of a level is the run of their concatenated entries.
- BlockIter.Iter.ParseNextKey: does not say what the iterator shows after it has accepted an entry that goes on behind the block.
- The skip list: a memtable is a sorted sequence. A memtable iterator here does not see later writes; in the code it does, and their sequence numbers hide them.
- Replaying write-ahead logs at start, and obsolete files: no file is ever deleted from disk here.
- Compaction pointers after recovery, and reusing a descriptor log.
- Log reading from an offset other than 0; file system operations: a file is its bytes.
- Compaction.GrowInputs: computes the grown range of the next level before comparing sizes, where the code does it after; the result is the same.
- Punycode.ToAsciiLabel: takes the code points of a label, as UTF-8 decoding is not modelled, and requires fewer than 2^32 - 1 of them, so that the unsigned counters cannot wrap.
- Splitting a host name at its dots, `uv__idna_toascii`.
- The worker pool's start, its exit message and cleanup, forks, and requests of more than one loop; timers, the LRU cache and filters.
- nanopb's callbacks, extensions, pointer fields and streams other than buffers; delimited and null-terminated messages.
- PbDecode.Decode: on bytes that are not such a message, in the order of the descriptor and each field once, only that it stays inside the stream, ends, and leaves a structure of the right shape.
- PbVersions.Restricts: a field without a flag is present for both or absent for both; a submessage without a flag that holds nothing but unknown fields is not covered.
- PbEncode.Encode: requires that the message takes fewer than 2^64 bytes, so that the counter cannot wrap.
