# LevelDB and nanopb, modelled in Dafny

The repository vendors two libraries with hard logic: LevelDB, a log-structured key-value store, under
`ios/Pods 2/leveldb-library`, and nanopb, a descriptor-driven Protocol Buffers codec, under `ios/Pods 2/nanopb`.
This project models both and proves what they promise.

The model has five layers.

- **The engine as a state machine** (`Keys`, `Files`, `Reads`, `DropRule`, `Versions`, `VersionSteps`,
  `CompactionSteps`, `Engine`, `EngineEdits`, `Boundary`, `BoundaryRun`).  A state holds the memtables, seven levels of table files,
  the live snapshots, a running compaction, and, for the specification, every write in order.  The main theorem is
  `Engine.EveryRunReadsTheHistory`: at any time, a read at a live snapshot is answered as the history would answer it.
- **The operations** (`Selection`, `Planning`, `Picking`, `CompactionLoop`, `Compacting`, `VersionBuilder`, `Database`, `Merger`,
  `DbIter`, `InternalIter`, `GroupCommit`).  The loops and cursors of the source as methods, each proved to be a
  step of the machine or a cursor over a plain sequence.  `Database.Db` takes the engine's steps; its iterator is a
  `DBIter` over a `MergingIterator` over the memtables and tables.
- **Concurrency and crashes** (`GroupCommit`, `WritePath`, `SkipListLinks`, `Recovery`, `Torn`, `PowerLoss`).  The commit queue, readers of
  the skip list, and the files on disk are state machines over single steps.  `WritePath` puts the queue, the engine
  and its logs together: what a reader sees and what opening the database after a crash gives back are whole groups in
  queue order, and `PowerLoss` cuts the bytes of the current log.
- **The formats** (`Coding`, `WriteBatch`, `LogFormat`, `LogRecords`, `LogDamage`, `LogKinds`, `LogIO`, `BlockFormat`,
  `BlockBuilder`, `BlockIter`, `TableFormat`, `TableBuilder`, `TableReader`, `Table`, `Bloom`, `FilterBlock`,
  `Separators`, `VersionEdit`, `Manifest`, `ManifestFile`, `Vectors`).  Writers and readers over bytes, with round trips, cut and
  damaged files.  `ManifestFile` goes from the manifest's bytes to the reopened engine.
- **Heap structures and nanopb** (`HandleTable`, `CacheLists`, `LruCache`, `SkipList`, `Snapshots`; `PbCommon`,
  `PbEncode`, `PbDecode`, `PbBits`, `PbStream`, `PbRoundTrip`, `PbForward`, `PbSound`, `PbVarint`).  Intrusive lists and hash chains are maps from handles to
  links; messages are descriptors and slots.

User keys are compared only through a comparator, a total order on byte strings; byte strings are countable, so the
engine takes a user key to be a real number.  `Keys.RankIsBytewise` proves this for the bytewise comparator, and the
byte-level modules take the order as a function to the reals.

## Findings

- **A compaction can bring a deleted value back** (`ios/Pods 2/leveldb-library/db/version_set.cc:1380-1390`).
  `AddBoundaryInputs` is called for the input level only.  If two neighbouring files of the output level share a user
  key and only the first is an input, a tombstone in it may be dropped while the older value stays in the second.
  `BoundaryRun.BoundaryCanResurrect` is a sequence of the engine's own steps from the empty database that ends in such
  a compaction: an old snapshot keeps two entries of a key apart, a manual compaction of that file (an automatic one
  would move it) reaches the size limit between them and cuts there, as `BoundaryRun.CutsBetween` derives from the
  merge loop, and after the snapshot's release the next compaction takes the first file.  `Boundary.SafeIsExact` gives the exact condition, as a
  test on one pair of neighbouring files and one read; `Boundary.NoSharedBoundaryIsSafe` is a simpler sufficient one on
  file bounds alone.  The engine theorem is about runs in which no compaction is of this kind.
- **`VersionEdit::Clear` keeps the compaction pointers** (`ios/Pods 2/leveldb-library/db/version_edit.cc:26-39`).
  Decoding into a used object puts the new pointers behind the old ones; `VersionEdit.FreshReadIsExact` says that it
  undoes encoding exactly for an object without any.  The library decodes into fresh objects.
- **One builder for many edits** (`ios/Pods 2/leveldb-library/db/version_set.cc:629-730`).  Recovery collects all edits
  in one builder; `LogAndApply` builds version after version.  The two differ if a deleted number is added again for
  another file (`Manifest.ReusedNumberDisagrees`), or if a file equal by number and smallest key to a live one is added
  (`Manifest.TiedFileDisagrees`); `Manifest.StepIsExact` says that they differ only then.  No run of the engine is of
  this kind: `EngineEdits.EveryRunIsDescribed`.
- **A string without its terminator encodes but does not decode** (`ios/Pods 2/nanopb/pb_encode.c:873-897`,
  `ios/Pods 2/nanopb/pb_decode.c:1487-1523`).  A string that fills its array is encoded whole, and the decoder, which needs
  room for the terminator, refuses it (`PbRoundTrip.FullStringIsLost`).  `PbRoundTrip.MessageRoundTrip` states the round trip with this as its exact
  condition.
- **Kinds 5 and 6 in a log** (`ios/Pods 2/leveldb-library/db/log_reader.cc:144-171`).  The reader uses the two values above
  the largest record kind for the end of the file and for a bad record, and does not tell them from a kind byte on
  disk.  A checksummed record of any other unknown kind is reported as dropped and passed over; one of kind 5 ends the
  reading without a report, and one of kind 6 is passed over without one.  `LogKinds.DropIsExact` is the exact
  condition, `LogKinds.SignalHidesRecord` a file in which a written record is lost.
- **Large numbers taken for 32-bit ones** (`ios/Pods 2/nanopb/pb_decode.c:214-241`).  The reader of 32-bit varints accepts
  continuation bytes of zeros or ones behind the first five, byte by byte, so that negative numbers may come with 64
  bits.  It does not ask for all of them to be ones: 2^63 + 2^31 is taken for 2^31 (`PbVarint.LargeIsTaken`).
  `PbVarint.Varint32IsExact` says exactly which 64-bit numbers are accepted.
- **Field number 0 in a message type without fields** (`ios/Pods 2/nanopb/pb_common.c:87-104`,
  `ios/Pods 2/nanopb/pb_decode.c:934-1035`).  The iterator then stands at the all-zero end of the descriptor, which is
  found for field number 0 and taken for a required boolean: a varint is read whatever the wire type is, and a byte is
  stored.  `PbDecode.EmptyTypeTakesZeroTag` shows it on the bytes 5, 0; `PbDecode.TagZeroIsExact` says that field
  number 0 is skipped as unknown exactly if the type has some field.

## Model

| member | source | states |
|---|---|---|
| `Keys.RankIsBytewise` | ios/Pods 2/leveldb-library/util/comparator.cc:27-29 | the bytewise comparison of two keys agrees with the order of their ranks, and ranks are equal exactly for equal strings; this is what lets the engine modules take user keys as reals |
| `Files.FindFile` | ios/Pods 2/leveldb-library/db/version_set.cc:87-105 | the binary search gives the first file whose largest key is at or after the target: every file before it ends before the target |
| `Files.SomeFileOverlapsRange` | ios/Pods 2/leveldb-library/db/version_set.cc:121-156 | true exactly if some file meets the user-key range, by the scan of level 0 and by the search of a disjoint level |
| `Selection.GetOverlappingInputs` | ios/Pods 2/leveldb-library/db/version_set.cc:498-538 | above level 0 exactly the files that meet the range; at level 0 exactly those that meet the least range that contains it and is closed under overlap; the restarts end |
| `Selection.AddBoundaryInputs` | ios/Pods 2/leveldb-library/db/version_set.cc:1355-1378 | the inputs are extended by exactly the neighbours that go on with the same user key, so that no file left at the level holds an older entry of an input key |
| `Selection.SetupOtherInputs` | ios/Pods 2/leveldb-library/db/version_set.cc:1380-1439 | the inputs get their boundary files, and then exactly the files of the next level that meet their range; they become the overlap of the level with the whole range, with its boundary files, if and only if there is a file at the next level, that set is larger, both sets stay below 25 times the file size, and it meets equally many files there; the last key becomes the compaction pointer |
| `VersionBuilder.SaveLevel` | ios/Pods 2/leveldb-library/db/version_set.cc:672-730 | the loops merge base and added files, of tied ones the base file first, without the deleted numbers; with no ties the level is in strict order and holds exactly the surviving files |
| `VersionBuilder.SavedHolds` | ios/Pods 2/leveldb-library/db/version_set.cc:672-730 | what is saved is every surviving file of both lists, as often as it is there |
| `VersionBuilder.SavedInOrder` | ios/Pods 2/leveldb-library/db/version_set.cc:672-730 | ties or not, the saved level is sorted as the next upper-bound search needs it |
| `Versions.Get` | ios/Pods 2/leveldb-library/db/version_set.cc:324-400 | the level-by-level search, which stops at the first file that has the key, gives the newest entry that the snapshot can see among all levels, or nothing if there is none |
| `Planning.PickLevelForMemTableOutput` | ios/Pods 2/leveldb-library/db/version_set.cc:470-495 | a new table may go to the chosen level: nothing on the way overlaps it; and the search goes on exactly while the next level is free and few grandparents overlap |
| `Planning.PickInputs` | ios/Pods 2/leveldb-library/db/version_set.cc:1282-1294 | the first inputs are the picked file alone, at level 0 the least closed overlap with its range, and have the shape that the rest of the planning needs |
| `Picking.Finalize` | ios/Pods 2/leveldb-library/db/version_set.cc:1026-1062 | the level with the largest score, files at level 0 and bytes against a tenfold limit below, and the first of equals |
| `Picking.FullIs` | ios/Pods 2/leveldb-library/db/version_set.cc:41-53 | a level is full with four files at level 0, and with 10 MB at level 1, ten times more at each level below |
| `Picking.PickCompaction` | ios/Pods 2/leveldb-library/db/version_set.cc:1247-1299 | nothing exactly if no level is full and no file is to be compacted for seeks; the fullest level comes first, with exactly the inputs that start from the file whose turn it is by the compaction pointer; otherwise those of the file due for seeks |
| `Picking.TurnHoldsNext` | ios/Pods 2/leveldb-library/db/version_set.cc:1260-1275 | the file whose turn it is is the first that holds an entry behind the pointer, and the first of the level if none does |
| `Picking.TurnsComeRound` | ios/Pods 2/leveldb-library/db/version_set.cc:1260-1275 | with the pointer at the end of one file of a disjoint level, the next file has its turn, and the first one after the last |
| `Planning.CompactRange` | ios/Pods 2/leveldb-library/db/version_set.cc:1441-1472 | nothing is taken exactly if no file meets the range; at level 0 the least closed overlap is taken, deeper a run of the overlap that is cut once its size reaches the limit |
| `Planning.PlanCompaction` | ios/Pods 2/leveldb-library/db/version_set.cc:1492-1500 | the inputs are exactly those that the first inputs are set up to, with their last key as compaction pointer; the compaction counts as trivial exactly if it is one file over nothing with few grandparent bytes |
| `Planning.MoveFile` | ios/Pods 2/leveldb-library/db/db_impl.cc:727-753 | moving a lone file down is a compaction whose output is that file |
| `VersionSteps.FlushKeepsVersion` | ios/Pods 2/leveldb-library/db/db_impl.cc:500-542 | a flushed table at a permitted level keeps the version good (deeper levels sorted and disjoint, newer above older, newer level-0 numbers hold newer entries) and adds exactly its entries |
| `CompactionSteps.ReplaceKeepsVersion` | ios/Pods 2/leveldb-library/db/db_impl.cc:869-885 | installing a move or any outputs drawn from the inputs keeps the version good, wherever the outputs are cut |
| `CompactionLoop.Compaction.IsBaseLevelForKey` | ios/Pods 2/leveldb-library/db/version_set.cc:1510-1529 | with pointers that only move forward, and keys fed in ascending order, the answer is that of a full scan of all levels from two below on |
| `CompactionLoop.Compaction.ShouldStopBefore` | ios/Pods 2/leveldb-library/db/version_set.cc:1531-1553 | true exactly if the grandparent bytes passed since the last cut exceed the limit; the count then starts again |
| `CompactionLoop.DoCompactionWork` | ios/Pods 2/leveldb-library/db/db_impl.cc:915-1009 | the outputs, one after the other, are exactly the merged input without what the drop rule drops; none goes on after it is big enough, none passes more grandparent bytes than allowed between its first and last key, and each but the last that is smaller has used up more than that many |
| `Compacting.Drain` | ios/Pods 2/leveldb-library/table/merger.cc:55-79 | reading the merging iterator from start to end delivers the whole merge |
| `Compacting.MergeInputs` | ios/Pods 2/leveldb-library/db/version_set.cc:1214-1245 | the input of a compaction is the sorted sequence of exactly the entries of its files |
| `Compacting.Grandparents` | ios/Pods 2/leveldb-library/db/version_set.cc:1426-1431 | exactly the files two levels down that meet the range of all inputs, none where there is no such level |
| `Compacting.RunCompaction` | ios/Pods 2/leveldb-library/db/db_impl.cc:887-1046 | merge, drop, cut, write and install together replace the inputs by files that hold exactly what is kept, under fresh numbers; of all files two levels down, those that end between the first and the last key of an output total at most ten times the file size, and no output but the last is small unless that many bytes were used up |
| `OutputTables.HeldApart` | ios/Pods 2/leveldb-library/db/db_impl.cc:820-867 | files that hold consecutive parts of a sorted sequence do not interleave, have different numbers, and hold it completely |
| `DropRule.DropRuleIsExact` | ios/Pods 2/leveldb-library/db/db_impl.cc:956-970 | the rule preserves every read at or after the smallest snapshot if and only if no dropped tombstone exposes an older value left at the output level |
| `DropRule.ExposedRead` | ios/Pods 2/leveldb-library/db/db_impl.cc:956-970 | after the newest entry of a key is dropped, a read finds a value exactly if a sibling is exposed |
| `Boundary.SafeIsExact` | ios/Pods 2/leveldb-library/db/version_set.cc:1380-1390 | in any state of the engine, a running compaction exposes nothing if and only if no value stands right behind the last input of the output level, with the same user key, while the read of that key at the smallest snapshot finds a tombstone of the inputs |
| `Boundary.ReadsKeptIsExact` | ios/Pods 2/leveldb-library/db/version_set.cc:1380-1390 | under the same condition, and only then, the compaction keeps every promised read |
| `Boundary.CompactionIsExact` | ios/Pods 2/leveldb-library/db/version_set.cc:1380-1390 | installing any compaction leaves every read at or after its smallest snapshot as it was, exactly if it does not resurrect |
| `Boundary.NoSharedBoundaryIsSafe` | ios/Pods 2/leveldb-library/db/version_set.cc:1380-1390 | if no file left out at the output level starts with the user key an input there ends with, nothing is exposed |
| `BoundaryRun.BoundaryCanResurrect` | ios/Pods 2/leveldb-library/db/version_set.cc:1380-1390 | the engine can come, by its own steps from the empty database, to a compaction after which a deleted key has a value again |
| `BoundaryRun.CutsBetween` | ios/Pods 2/leveldb-library/db/db_impl.cc:984-1006 | the merge loop, with a size function and no grandparents, makes the cut of that run: between the two versions of one key |
| `Engine.EveryRunReadsTheHistory` | ios/Pods 2/leveldb-library/db/db_impl.cc:1110-1155 | in every state of every run of writes, switches, flushes, moves, compactions and snapshots, a read at a live snapshot or at the last sequence number gives what the full history gives |
| `Engine.EveryRunKeepsInv` | ios/Pods 2/leveldb-library/db/db_impl.cc:697-776 | every step keeps the shape of memtables, files, snapshots and the running job, and the agreement of contents and history |
| `Database.Db.Write` | ios/Pods 2/leveldb-library/db/db_impl.cc:1195-1266 | the batch is appended to the history, operation by operation with consecutive numbers, and the invariant is kept |
| `Database.Db.SwitchMemTable` | ios/Pods 2/leveldb-library/db/db_impl.cc:1355-1376 | a step of the engine: the memtable becomes the immutable one |
| `Database.Db.GetSnapshot` | ios/Pods 2/leveldb-library/db/db_impl.cc:1176-1179 | the snapshot is the last sequence number and is live from now on |
| `Database.Db.ReleaseSnapshot` | ios/Pods 2/leveldb-library/db/db_impl.cc:1181-1184 | exactly this snapshot stops being live |
| `Database.Db.CompactMemTable` | ios/Pods 2/leveldb-library/db/db_impl.cc:544-575 | a flush step of the engine: one table of exactly the entries of the immutable memtable, with the next number, at exactly the picked level; none if there are no entries |
| `Database.Db.StartCompaction` | ios/Pods 2/leveldb-library/db/db_impl.cc:697-776 | a move of the lone input exactly if the compaction is trivial and not manual, otherwise the beginning of a compaction; its inputs are those that the first inputs are set up to |
| `Database.Db.FinishCompaction` | ios/Pods 2/leveldb-library/db/db_impl.cc:887-1046 | any running compaction is merged, written and installed, with its outputs cut as the limits say; every read at or after the smallest snapshot stays the same if and only if no deleted value comes back, and then this is a finish step of the engine |
| `Database.Db.Get` | ios/Pods 2/leveldb-library/db/db_impl.cc:1110-1155 | the three-layer search returns what the history says at the snapshot |
| `Database.Db.NewIterator` | ios/Pods 2/leveldb-library/db/db_impl.cc:1157-1167 | a row cursor, over a merging iterator of memtables and tables, whose rows are the history at the snapshot in key order |
| `InternalIter.AddIterators` | ios/Pods 2/leveldb-library/db/version_set.cc:229-245 | the children hold exactly the entries of the version, each in one of them and each child sorted |
| `Merger.MergeSorted` | ios/Pods 2/leveldb-library/table/merger.cc:148-161 | the merge of sorted children without common keys is sorted and holds exactly their entries |
| `Merger.MergingIterator.Seek` | ios/Pods 2/leveldb-library/table/merger.cc:47-53 | the cursor stands at the first merged entry at or after the target |
| `Merger.MergingIterator.SeekToFirst` | ios/Pods 2/leveldb-library/table/merger.cc:31-37 | the cursor stands at the first merged entry |
| `Merger.MergingIterator.SeekToLast` | ios/Pods 2/leveldb-library/table/merger.cc:39-45 | the cursor stands at the last merged entry |
| `Merger.MergingIterator.Next` | ios/Pods 2/leveldb-library/table/merger.cc:55-79 | the cursor moves one merged entry on, also after moving backward |
| `Merger.MergingIterator.Prev` | ios/Pods 2/leveldb-library/table/merger.cc:81-108 | the cursor moves one merged entry back, also after moving forward; before the first it is invalid |
| `DbIter.DBIter.Next` | ios/Pods 2/leveldb-library/db/db_iter.cc:141-207 | the cursor moves to the next visible row, from either direction |
| `DbIter.DBIter.Prev` | ios/Pods 2/leveldb-library/db/db_iter.cc:209-276 | the cursor moves to the row before, from either direction |
| `DbIter.DBIter.Seek` | ios/Pods 2/leveldb-library/db/db_iter.cc:278-290 | the cursor stands at the first row whose user key is at or after the target |
| `DbIter.DBIter.SeekToFirst` | ios/Pods 2/leveldb-library/db/db_iter.cc:292-301 | the cursor stands at the first row |
| `DbIter.DBIter.SeekToLast` | ios/Pods 2/leveldb-library/db/db_iter.cc:303-308 | the cursor stands at the last row |
| `Scan.RowsAreTheAnswers` | ios/Pods 2/leveldb-library/db/db_iter.cc:177-276 | the rows are the keys that a read finds, each once, with the value the read returns, in ascending order |
| `GroupCommit.BuildBatchGroup` | ios/Pods 2/leveldb-library/db/db_impl.cc:1270-1316 | the group is the longest prefix of the queue in which every request may join those before it, and its operations are theirs in order |
| `GroupCommit.GroupIsUnique` | ios/Pods 2/leveldb-library/db/db_impl.cc:1270-1316 | the group of a queue is determined by the rules of joining |
| `GroupCommit.SyncOnlyWithSync` | ios/Pods 2/leveldb-library/db/db_impl.cc:1295-1299 | a sync write is only in a group whose leader syncs |
| `GroupCommit.GroupIsBounded` | ios/Pods 2/leveldb-library/db/db_impl.cc:1269-1314 | in bytes of the record that is logged: a leader of at most 128 KB has at most 128 KB added, a larger one stays within 1 MB or alone; a request that is left out would have made the group too large, or made it sync |
| `GroupCommit.LogIsQueueOrder` | ios/Pods 2/leveldb-library/db/db_impl.cc:1195-1266 | in every interleaving the log is the queued batches in queue order, each once, with consecutive unused numbers |
| `GroupCommit.ReadersSeeWholeGroups` | ios/Pods 2/leveldb-library/db/db_impl.cc:1218-1245 | at the last sequence number a reader has whole groups only, also while one is being inserted |
| `GroupCommit.ReturnedIsApplied` | ios/Pods 2/leveldb-library/db/db_impl.cc:1247-1266 | a call that has returned is applied and visible, and on disk if it asked for a sync |
| `WritePath.EngineFollows` | ios/Pods 2/leveldb-library/db/db_impl.cc:1195-1266 | every step of the commit queue is a step of engine and logs too: logging a group is a log record, publishing it is one engine write per operation |
| `WritePath.ReadsLastPut` | ios/Pods 2/leveldb-library/db/write_batch.cc:108-120 | over the operations of batches alone, for an order that tells keys apart: a read finds a value if and only if, of the operations up to its sequence number, the last one about the key puts that value |
| `WritePath.EveryReadSeesWholeGroups` | ios/Pods 2/leveldb-library/db/db_impl.cc:1110-1266 | in every run of queue and engine together, a read at a live snapshot or at the last sequence number gives what the published groups give, and nothing of one still being inserted: a value exactly if the last of their operations about the key puts it |
| `WritePath.DiskHoldsTheQueue` | ios/Pods 2/leveldb-library/db/db_impl.cc:1226-1232 | what tables, logs and memtables hold is the queue up to the last logged group, and reading it finds exactly what the batches there put last and did not delete |
| `WritePath.OpenAfterCrash` | ios/Pods 2/leveldb-library/db/db_impl.cc:289-498 | stopping any run anywhere and opening what is on disk gives back every logged group in queue order; calls that had returned are among them; a read then finds a value exactly if the last operation about the key puts it |
| `Torn.SystemStepKeepsAlone` | ios/Pods 2/leveldb-library/db/db_impl.cc:544-1046 | the tables alone, read at the newest number a table may hold, are an engine of their own at every step of a run whose compactions do not resurrect for a reader of the tables |
| `Torn.TornIsRecoverable` | ios/Pods 2/leveldb-library/db/db_impl.cc:380-498 | with any beginning of the current log, the disk holds the history up to there, although compactions may have used the numbers of lost writes |
| `PowerLoss.ReadLog` | ios/Pods 2/leveldb-library/db/db_impl.cc:398-437 | from any beginning of the bytes of a log, exactly the batches of its whole records; reading their operations finds exactly what the batches put last and did not delete |
| `PowerLoss.OpenAfterPowerLoss` | ios/Pods 2/leveldb-library/db/db_impl.cc:289-498 | with the bytes of the current log cut anywhere behind what was synced, opening gives a beginning of the write queue that has every call which asked for a sync and returned; a read finds a value exactly if the last operation about the key in that beginning puts it |
| `Recovery.EveryRunIsRecoverable` | ios/Pods 2/leveldb-library/db/db_impl.cc:222-287 | at every step of logging, applying, switching logs, flushing, compacting, installing a manifest and removing files, each logged write is in a live table or in a log that the manifest still asks for |
| `Recovery.LogsToReplay` | ios/Pods 2/leveldb-library/db/db_impl.cc:315-378 | the logs to replay are exactly that of the immutable memtable, if there is one, and the current one |
| `Recovery.RunningIsRecoverable` | ios/Pods 2/leveldb-library/db/db_impl.cc:315-378 | at any moment of any run, tables and kept logs together hold the whole logged history |
| `Recovery.StoppedOpenIsRecoverable` | ios/Pods 2/leveldb-library/db/db_impl.cc:1478-1519 | an open that stops before its manifest is installed, with new tables and perhaps its new log on disk, leaves a disk that holds the same history |
| `Recovery.InsertInto` | ios/Pods 2/leveldb-library/db/write_batch.cc:132-137 | a record goes into the memtable with consecutive numbers from its own |
| `Recovery.Opening.RecoverLogFile` | ios/Pods 2/leveldb-library/db/db_impl.cc:380-498 | after replaying a log, its operations are in level-0 tables and the largest sequence number seen is theirs; a memtable becomes a table after exactly the first record that fills it, and at the end of the log |
| `Recovery.Recover` | ios/Pods 2/leveldb-library/db/db_impl.cc:289-378 | a missing live table is refused; otherwise the replay of all kept logs in order gives a version whose reads are the history that the disk holds, the last sequence number is the larger of manifest and logs, the reopened system satisfies the invariant of the running one, and stopping just before the manifest loses nothing |
| `Manifest.StepIsExact` | ios/Pods 2/leveldb-library/db/version_set.cc:629-730 | at one level, saving an edit from a builder of its own and showing all collected edits give the same list if and only if the edit adds no file equal by number and smallest key to a live one, and adds the number of a deleted file only for that same file |
| `Manifest.ReusedNumberDisagrees` | ios/Pods 2/leveldb-library/db/version_set.cc:629-730 | a deleted number added again for another file: one builder shows the old file too, version after version only the new one |
| `Manifest.TiedFileDisagrees` | ios/Pods 2/leveldb-library/db/version_set.cc:629-730 | a file equal by number and smallest key to a live one: one builder drops it, a version lists both |
| `Manifest.NextIsDescribed` | ios/Pods 2/leveldb-library/db/version_set.cc:629-730 | over all levels, one more record describes the next version exactly if the edit agrees with the records before it at every level |
| `Manifest.SnapshotDescribes` | ios/Pods 2/leveldb-library/db/version_set.cc:1064-1092 | the snapshot record describes its version exactly if no level has ties |
| `Manifest.VersionSet.LogAndApply` | ios/Pods 2/leveldb-library/db/version_set.cc:777-860 | for any edit: the new version is the one that a builder on the old one saves, the completed edit is appended, with all four counters, and the manifest goes on to describe the version exactly if the edit agrees |
| `Manifest.Recover` | ios/Pods 2/leveldb-library/db/version_set.cc:862-987 | for any manifest: the version it describes; of each counter the last value counts; it fails exactly if one it must have is missing |
| `EngineEdits.StepInstalls` | ios/Pods 2/leveldb-library/db/db_impl.cc:697-776 | every step of the engine installs an edit of the form the code writes, with numbers that were never added at that level, and the next version is the one its builder saves |
| `EngineEdits.EveryRunIsDescribed` | ios/Pods 2/leveldb-library/db/db_impl.cc:544-885 | for every run of the engine, the edits of its flushes, moves and compactions agree, and at every moment the records so far describe the version |
| `ManifestFile.ManifestLog.LogAndApply` | ios/Pods 2/leveldb-library/db/version_set.cc:777-860 | the same on bytes: the file is a log of encoded edits, behind a snapshot record if it is new, and what its records mean is the manifest |
| `ManifestFile.ManifestLog.WriteSnapshot` | ios/Pods 2/leveldb-library/db/version_set.cc:1064-1092 | comparator name, compaction pointers and every file of the current version are appended as one record |
| `ManifestFile.RecoverFile` | ios/Pods 2/leveldb-library/db/version_set.cc:862-987 | from the bytes, of which any end may be missing, exactly the edits whose records are whole are replayed; another comparator name is refused |
| `ManifestFile.ReadBack` | ios/Pods 2/leveldb-library/db/version_set.cc:862-987 | reading the file that edits wrote gives the counters they arrived at, and the version they arrived at exactly if the records describe it |
| `ManifestFile.Open` | ios/Pods 2/leveldb-library/db/db_impl.cc:289-378 | opening a database from manifest bytes, of which the end may be missing, logs and tables: if what the whole records describe holds the history with the logs and tables, reads give it, and a missing table is refused |
| `VersionEdit.EditRoundTrip` | ios/Pods 2/leveldb-library/db/version_edit.cc:41-203 | decoding an encoded edit succeeds and gives its fields, behind the compaction pointers that the decoding object already had |
| `VersionEdit.FreshReadIsExact` | ios/Pods 2/leveldb-library/db/version_edit.cc:26-39 | so decoding undoes encoding if and only if the object had no compaction pointers: `Clear` does not drop them |
| `VersionEdit.AnyReadRoundTrip` | ios/Pods 2/leveldb-library/db/version_edit.cc:105-213 | whatever a fresh edit has read, from any bytes, has levels that exist and keys that are not empty, can be written, and reads back as the same edit |
| `VersionEdit.VersionEdit.EncodeTo` | ios/Pods 2/leveldb-library/db/version_edit.cc:41-84 | the loops write exactly the encoding that the round trip is about |
| `VersionEdit.VersionEdit.DecodeFrom` | ios/Pods 2/leveldb-library/db/version_edit.cc:105-203 | the loop reads any bytes field by field, and fails exactly on a bad field, an unknown tag or a rest |
| `LogRecords.PrefixReadsWholeRecords` | ios/Pods 2/leveldb-library/db/log_reader.cc:56-174 | reading any prefix of a written log gives exactly the records that end inside it, in order, and reports nothing |
| `LogRecords.LogRoundTrip` | ios/Pods 2/leveldb-library/db/log_reader.cc:56-174 | a complete log reads back as what was written |
| `LogDamage.DamagedBlock` | ios/Pods 2/leveldb-library/db/log_reader.cc:189-271 | if damage stays inside one block, from some record header there to the end of the block, and the first damaged record fails its checks, every record that ends before the damage or begins behind the block is returned, in order, and nothing else; reported are the rest of the block, unless its header reads as an empty one, what was held of a record that had begun, and each fragment behind the block that goes on with a lost record |
| `LogDamage.WrittenOn` | ios/Pods 2/leveldb-library/db/log_reader.cc:80-137 | a log cut behind any fragment, on which another writer goes on: the whole records and the new ones are returned, and the part of a record between them is reported |
| `LogKinds.DropIsExact` | ios/Pods 2/leveldb-library/db/log_reader.cc:144-171 | a record that passes length and checksum, of a kind no writer uses, is reported as dropped and passed over if and only if its kind is neither 5 nor 6 (or is 6, empty, inside a fragmented record, where the reports coincide) |
| `LogKinds.EndSignal` | ios/Pods 2/leveldb-library/db/log_reader.cc:144-151 | kind 5 ends the reading: it and everything behind it is lost without a report |
| `LogKinds.BadSignal` | ios/Pods 2/leveldb-library/db/log_reader.cc:153-159 | kind 6 is passed over, and of its own bytes nothing is reported |
| `LogKinds.SignalHidesRecord` | ios/Pods 2/leveldb-library/db/log_reader.cc:144-171 | a file with an empty checksummed record in front of a written one: behind kind 5 the record is lost, behind kind 6 it is read with no report, behind kind 7 with one |
| `LogIO.Writer.AddRecord` | ios/Pods 2/leveldb-library/db/log_writer.cc:34-80 | fragments, trailers and headers: the file becomes the log of one more record |
| `LogIO.Reader.ReadRecord` | ios/Pods 2/leveldb-library/db/log_reader.cc:56-174 | one record, or the end, with exactly the drops that were met on the way, on any bytes |
| `LogIO.Reader.ReadAll` | ios/Pods 2/leveldb-library/db/log_reader.cc:56-174 | all records and all drops of any file |
| `LogFormat.UnmaskUndoesMask` | ios/Pods 2/leveldb-library/util/crc32c.h:29-38 | unmasking a checksum gives it back |
| `BlockBuilder.Builder.Add` | ios/Pods 2/leveldb-library/table/block_builder.cc:71-105 | the block holds exactly one more pair, under shared prefixes and restart points |
| `BlockBuilder.Builder.Finish` | ios/Pods 2/leveldb-library/table/block_builder.cc:61-69 | the finished bytes encode everything added |
| `BlockIter.Iter.Next` | ios/Pods 2/leveldb-library/table/block.cc:138-141 | the cursor moves one entry on |
| `BlockIter.Iter.Prev` | ios/Pods 2/leveldb-library/table/block.cc:143-162 | the cursor moves one entry back by way of a restart point; before the first it is invalid |
| `BlockIter.Iter.Seek` | ios/Pods 2/leveldb-library/table/block.cc:164-202 | binary search over restart points, then a scan: the first entry whose key is at or after the target |
| `BlockIter.Iter.SeekToLast` | ios/Pods 2/leveldb-library/table/block.cc:209-214 | the cursor stands at the last entry |
| `TableReader.TwoLevelIterator.Next` | ios/Pods 2/leveldb-library/table/two_level_iterator.cc:103-126 | the cursor over all blocks as one sequence moves on, past empty blocks |
| `TableReader.TwoLevelIterator.Prev` | ios/Pods 2/leveldb-library/table/two_level_iterator.cc:109-139 | and back |
| `TableReader.TwoLevelIterator.Seek` | ios/Pods 2/leveldb-library/table/two_level_iterator.cc:82-87 | a seek through shortened index keys lands where a scan of all entries would |
| `Table.Open` | ios/Pods 2/leveldb-library/table/table.cc:38-80 | a file that fails the checks is refused, any other is opened, with its filter if it has one of the policy |
| `TableFormat.VerifiedReadIsExact` | ios/Pods 2/leveldb-library/table/format.cc:64-137 | with verification a block is read if and only if what follows it is the very trailer that would be written for it |
| `TableFormat.FooterIsChecked` | ios/Pods 2/leveldb-library/table/format.cc:42-50 | a footer that is taken ends with the magic number, byte by byte |
| `Table.Table.InternalGet` | ios/Pods 2/leveldb-library/table/table.cc:214-242 | delivers the entry that a scan would find, if the target asks for it; a data block is read exactly if the index has one for the target and the filter does not exclude it |
| `Table.WantedInBlock` | ios/Pods 2/leveldb-library/table/table.cc:214-242 | the block that the index selects has what is wanted, or nothing has |
| `Table.EveryKeyIsWanted` | ios/Pods 2/leveldb-library/table/table.cc:214-242 | every entry of a table is what a lookup of its own key asks for |
| `TableBuilder.BuildTable` | ios/Pods 2/leveldb-library/db/builder.cc:17-77 | unless there are no entries, the file is a table of exactly the entries, with its size, their first and last key, and a filter if there is a policy; every data block but the last has at least the block size |
| `TableBuilder.TableBuilder.Add` | ios/Pods 2/leveldb-library/table/table_builder.cc:94-123 | the builder holds exactly one more pair; a data block is written as soon as it has the block size, and not before |
| `TableBuilder.TableBuilder.Finish` | ios/Pods 2/leveldb-library/table/table_builder.cc:198-253 | blocks, filter, metaindex, index and footer make a table that the reader accepts |
| `Bloom.BloomFilterPolicy.CreateFilter` | ios/Pods 2/leveldb-library/util/bloom.cc:28-54 | the bytes appended are a filter of the keys, of the exact size and number of probes |
| `Bloom.NoFalseNegatives` | ios/Pods 2/leveldb-library/util/bloom.cc:56-80 | a filter never rejects a key it was made of |
| `Bloom.MatchIsExact` | ios/Pods 2/leveldb-library/util/bloom.cc:37-80 | a filter of some keys matches a key if and only if each of its bits, by double hashing with the rotated hash, is a bit of one of them |
| `Bloom.FilterIsTight` | ios/Pods 2/leveldb-library/util/bloom.cc:28-45 | a filter has the bits asked for, at least 64, in whole bytes and not a byte more |
| `Bloom.ProbesAreTight` | ios/Pods 2/leveldb-library/util/bloom.cc:18-24 | the number of probes is 69 hundredths of the bits per key, rounded down, between one and thirty |
| `FilterBlock.FilterBlockBuilder.AddKey` | ios/Pods 2/leveldb-library/table/filter_block.cc:29-33 | the key joins the pending ones; the flattened keys still cut apart into them |
| `FilterBlock.FilterBlockBuilder.StartBlock` | ios/Pods 2/leveldb-library/table/filter_block.cc:21-27 | filters up to the offset are generated; the first of them holds the pending keys, the others none |
| `FilterBlock.FilterBlockBuilder.Finish` | ios/Pods 2/leveldb-library/table/filter_block.cc:35-49 | the bytes are a filter block of all filters |
| `FilterBlock.FilterBlockReader.KeyMayMatch` | ios/Pods 2/leveldb-library/table/filter_block.cc:90-104 | on a well-formed block the answer is that of the filter the offset selects, true past the end; no key of the block is rejected; on any other block offsets out of order may match, and an empty filter never does |
| `Separators.BytewiseIsComparator` | ios/Pods 2/leveldb-library/util/comparator.cc:31-66 | shortened separators and successors lie where an index needs them, and are no longer than the key |
| `Separators.SeparatorIsShortest` | ios/Pods 2/leveldb-library/util/comparator.cc:31-57 | where the first different bytes leave room for one between them, no key between the two is shorter than the separator; otherwise the key stays |
| `Separators.SuccessorIsShortest` | ios/Pods 2/leveldb-library/util/comparator.cc:59-71 | nothing at or after a key is shorter than its successor, unless the key is all 0xff and stays |
| `Separators.InternalIsComparator` | ios/Pods 2/leveldb-library/db/dbformat.cc:65-97 | the same for internal keys, and no key up to a separator shares a user key past the limit |
| `HandleTable.Table.Lookup` | ios/Pods 2/leveldb-library/util/cache.cc:75-77 | the stored handle of a key, or proof that there is none |
| `HandleTable.Table.Insert` | ios/Pods 2/leveldb-library/util/cache.cc:79-93 | the handle is stored, one of the same key is replaced and returned, everything else stays; there are never more handles than buckets, and more buckets only when needed |
| `HandleTable.Table.Remove` | ios/Pods 2/leveldb-library/util/cache.cc:95-103 | the handle of the key is unlinked and returned, everything else stays |
| `HandleTable.Table.Resize` | ios/Pods 2/leveldb-library/util/cache.cc:123-147 | moving every handle to new buckets changes nothing of what is stored |
| `HandleTable.LengthForIs` | ios/Pods 2/leveldb-library/util/cache.cc:123-127 | the number of buckets is a power of two, at least four, at least the number of handles and, beyond four, less than twice as many |
| `LruCache.Cache.Lookup` | ios/Pods 2/leveldb-library/util/cache.cc:253-260 | a hit gives a reference and takes the handle off the idle list, a miss changes nothing |
| `LruCache.Cache.Release` | ios/Pods 2/leveldb-library/util/cache.cc:262-265 | the last reference calls the deleter, the last client puts the handle at the end of the idle list |
| `LruCache.Cache.Insert` | ios/Pods 2/leveldb-library/util/cache.cc:267-304 | the new handle replaces one of its key; then oldest idle handles go, each to its deleter once, until the usage fits or none is idle |
| `LruCache.Cache.Evict` | ios/Pods 2/leveldb-library/util/cache.cc:294-301 | the handles that go are the oldest idle ones, in order, and no more than needed |
| `LruCache.Cache.Erase` | ios/Pods 2/leveldb-library/util/cache.cc:319-322 | exactly the handle of the key leaves the cache; its deleter is called at once unless a client holds it |
| `LruCache.Cache.Prune` | ios/Pods 2/leveldb-library/util/cache.cc:324-334 | exactly the idle handles go, oldest first |
| `SkipListLinks.EveryRunKeepsInv` | ios/Pods 2/leveldb-library/db/skiplist.h:337-368 | after every single store of the writer and load of any reader, all levels are sorted sublists of the one below and every search is on its way |
| `SkipListLinks.EverySearchIsRight` | ios/Pods 2/leveldb-library/db/skiplist.h:262-322 | a search that returns, in any interleaving with an insertion, gives the right node of the bottom list at its last load |
| `SkipList.List.FindGreaterOrEqual` | ios/Pods 2/leveldb-library/db/skiplist.h:262-281 | the first node at or after the key, and at every level the last node before it |
| `SkipList.List.FindLessThan` | ios/Pods 2/leveldb-library/db/skiplist.h:285-302 | the last node before the key |
| `SkipList.List.Insert` | ios/Pods 2/leveldb-library/db/skiplist.h:337-368 | exactly the key is added, at any height |
| `SkipList.List.Contains` | ios/Pods 2/leveldb-library/db/skiplist.h:371-378 | true exactly for the keys of the list |
| `SkipList.Iterator.Prev` | ios/Pods 2/leveldb-library/db/skiplist.h:213-221 | without back links the cursor moves one node back |
| `SkipList.Iterator.Seek` | ios/Pods 2/leveldb-library/db/skiplist.h:224-226 | the cursor stands behind exactly the smaller keys |
| `Snapshots.SnapshotList.Oldest` | ios/Pods 2/leveldb-library/db/snapshot.h:47-50 | the front of the list has the smallest live number |
| `Snapshots.SnapshotList.New` | ios/Pods 2/leveldb-library/db/snapshot.h:57-70 | the new snapshot is at the end of the ring |
| `Snapshots.SnapshotList.Delete` | ios/Pods 2/leveldb-library/db/snapshot.h:79-86 | exactly the released snapshot leaves the ring |
| `WriteBatch.BatchRoundTrip` | ios/Pods 2/leveldb-library/db/write_batch.cc:42-80 | reading a batch gives its operations in order, success and its sequence number |
| `WriteBatch.CountIsChecked` | ios/Pods 2/leveldb-library/db/write_batch.cc:42-80 | a batch whose count is not that of its operations is delivered whole and then refused |
| `WriteBatch.Batch.AddPut` | ios/Pods 2/leveldb-library/db/write_batch.cc:98-103 | the bytes are those of a batch with one more operation |
| `WriteBatch.Batch.AppendBatch` | ios/Pods 2/leveldb-library/db/write_batch.cc:144-148 | the bytes are those of both batches in order |
| `WriteBatch.Batch.Iterate` | ios/Pods 2/leveldb-library/db/write_batch.cc:42-80 | on any bytes: what is delivered before the first fault, and whether there is one |
| `Vectors.BatchVector` | ios/Pods 2/leveldb-library/db/write_batch.cc:5-14 | a batch of a put and a delete, byte by byte |
| `Vectors.EditVectors` | ios/Pods 2/leveldb-library/db/version_edit.cc:14-24 | each field of a version edit, byte by byte |
| `Vectors.LogVector` | ios/Pods 2/leveldb-library/db/log_format.h:14-30 | a log of one record of one byte, byte by byte but for the checksum |
| `Vectors.FragmentVector` | ios/Pods 2/leveldb-library/db/log_writer.cc:34-82 | a record of 70000 bytes is a first, a middle and a last fragment of 32761, 32761 and 4478 bytes |
| `Vectors.MaskVectors` | ios/Pods 2/leveldb-library/util/crc32c.h:29-32 | four masked checksums |
| `Vectors.FooterVector` | ios/Pods 2/leveldb-library/table/format.cc:31-40 | a footer has 48 bytes, of which the last eight are the magic number, low byte first |
| `Vectors.InternalKeyVector` | ios/Pods 2/leveldb-library/db/dbformat.cc:15-24 | the internal keys of a put and a delete, byte by byte |
| `Vectors.SeekKeyVector` | ios/Pods 2/leveldb-library/db/dbformat.cc:70-82 | the internal key of a separator has the largest tag, byte by byte |
| `Coding.Varint32RoundTrip` | ios/Pods 2/leveldb-library/util/coding.cc:86-114 | a 32-bit varint reads back, whatever follows it |
| `Coding.Varint64RoundTrip` | ios/Pods 2/leveldb-library/util/coding.cc:116-143 | a 64-bit varint reads back, whatever follows it |
| `Coding.LengthPrefixedRoundTrip` | ios/Pods 2/leveldb-library/util/coding.cc:145-155 | a length-prefixed string reads back, whatever follows it |
| `Coding.EncodeVarint32` | ios/Pods 2/leveldb-library/util/coding.cc:21-47 | the written-out lengths are the same encoding as the loop |
| `Coding.GetVarintPtr` | ios/Pods 2/leveldb-library/util/coding.cc:86-131 | on any bytes the loop reads what the format says, or fails |
| `PbRoundTrip.MessageRoundTrip` | ios/Pods 2/nanopb/pb_decode.c:934-1096 | decoding an encoded message gives it back up to unset members, and leaves nothing, if every string in it ends within its array; otherwise decoding fails |
| `PbRoundTrip.MessageInParts` | ios/Pods 2/nanopb/pb_decode.c:934-1082 | decoding an encoded message and whatever follows it is decoding what follows into the message |
| `PbRoundTrip.ZeroEndsMessage` | ios/Pods 2/nanopb/pb_decode.c:298-319 | a zero byte ends a message, and what follows is left |
| `PbRoundTrip.FullStringIsLost` | ios/Pods 2/nanopb/pb_encode.c:873-897 | a one-byte string in an array of one byte encodes to three bytes, which do not decode |
| `PbForward.TagOnTheWire` | ios/Pods 2/nanopb/pb_encode.c:669-706 | every encoded field begins with its number and the wire type of its items, as a number: 0, 1, 2 or 5; an array with 2 |
| `PbForward.SkipsItem` | ios/Pods 2/nanopb/pb_decode.c:321-331 | skipping an item by its own wire type goes to exactly behind it, whatever the type and what follows |
| `PbForward.ForwardRoundTrip` | ios/Pods 2/nanopb/pb_decode.c:934-1082 | a reader whose message type lacks any of the fields gets the others as if only they had been written, if and only if the strings in those end within their arrays |
| `PbForward.BackwardRoundTrip` | ios/Pods 2/nanopb/pb_decode.c:934-1082 | a reader whose message type has further fields gets what was written and defaults for the others, if and only if the strings end within their arrays and no required field, of the first 64, was left out |
| `PbForward.UnpackedIsAccepted` | ios/Pods 2/nanopb/pb_decode.c:406-476 | numbers that come one by one, each with its tag, are taken as those of a packed array are |
| `PbForward.AbsentIsExact` | ios/Pods 2/nanopb/pb_encode.c:240-421 | nothing is written for a field if and only if it is not set, has no items or, without a flag, is zero |
| `PbSound.MessageIsSound` | ios/Pods 2/nanopb/pb_decode.c:406-1082 | whatever the bytes, what is decoded fits the struct: numbers within their width, strings with room for the terminator, arrays within their capacity, at most one member of a union |
| `PbSound.DecodedRoundTrip` | ios/Pods 2/nanopb/pb_decode.c:1084-1096 | whatever was decoded, from any bytes, encodes again, and decodes to the same up to unset members |
| `PbSound.NothingDecodes` | ios/Pods 2/nanopb/pb_decode.c:846-929 | no bytes at all decode exactly if no field is required, and then every field is unset and has its preset or zero |
| `PbVarint.Varint32IsExact` | ios/Pods 2/nanopb/pb_decode.c:187-247 | a 64-bit varint is taken for one of 32 bits if and only if it has 32 bits, or its top bit and bit 31 are set and each group of seven bits from bit 35 on is all zeros or all ones |
| `PbVarint.LargeIsTaken` | ios/Pods 2/nanopb/pb_decode.c:187-247 | 2^63 + 2^31 is taken for 2^31 |
| `PbVarint.NegativeIsTaken` | ios/Pods 2/nanopb/pb_decode.c:209-235 | a negative number extended to 64 bits is taken for its low 32 bits, as intended |
| `PbRoundTrip.SignedRoundTrip` | ios/Pods 2/nanopb/pb_encode.c:583-639 | two's complement and zigzag lose nothing |
| `PbEncode.OStream.Encode` | ios/Pods 2/nanopb/pb_encode.c:528-550 | the fields in order; it succeeds exactly if the message can be encoded and fits the stream, and then exactly its bytes are written |
| `PbEncode.OStream.EncodeSubmessage` | ios/Pods 2/nanopb/pb_encode.c:717-765 | the two passes agree: the size that is written is that of the bytes that follow |
| `PbEncode.OStream.EncodeArray` | ios/Pods 2/nanopb/pb_encode.c:147-236 | packed and unpacked arrays, with the size of a packed one before it |
| `PbEncode.GetEncodedSize` | ios/Pods 2/nanopb/pb_encode.c:567-576 | the sizing pass succeeds exactly when a message can be encoded, and counts what a writing pass emits |
| `PbEncode.CheckProto3Default` | ios/Pods 2/nanopb/pb_encode.c:240-337 | true exactly for zero values, submessages included |
| `PbStream.IStream.DecodeNoinit` | ios/Pods 2/nanopb/pb_decode.c:934-1082 | on any bytes the loop stores what the format says into what was there and checks required fields, or fails |
| `PbStream.IStream.Decode` | ios/Pods 2/nanopb/pb_decode.c:1084-1096 | the same into the defaults |
| `PbStream.IStream.DecodeStaticField` | ios/Pods 2/nanopb/pb_decode.c:406-483 | one occurrence of a field: its slot afterwards and exactly its bytes consumed |
| `PbStream.AllRequired` | ios/Pods 2/nanopb/pb_decode.c:1037-1079 | the comparison of whole words and of the masked last one: true exactly if every counted required field was seen and no bit behind them is set; with no stray bit, exactly if all were seen |
| `PbBits.MaskIsExact` | ios/Pods 2/nanopb/pb_decode.c:1067-1076 | a word equals the lowest n bits exactly if those bits are set and no other one is |
| `PbDecode.TagZeroIsExact` | ios/Pods 2/nanopb/pb_common.c:87-104 | a field of number 0 is skipped like any unknown one if and only if the message type has some field |
| `PbDecode.EmptyTypeTakesZeroTag` | ios/Pods 2/nanopb/pb_decode.c:934-1035 | the bytes 5, 0 decode for a message type without fields, and fail for every other |
| `PbCommon.FieldIter.Find` | ios/Pods 2/nanopb/pb_common.c:87-104 | going round from anywhere finds the tag exactly if a field has it, or the type has no field and the tag is that of its end, 0; otherwise it comes back to where it was |

## Left out

- Database.Db.FinishCompaction: it is a step of the engine only if the compaction brings no deleted value back (`Boundary.Resurrects`), which the code does not establish; see the first finding.
- Engine.EveryRunReadsTheHistory: a flush inside a running compaction (`ios/Pods 2/leveldb-library/db/db_impl.cc:917-928`) is not a step; flushes and compactions do not overlap.
- CompactionLoop.DoCompactionWork: every input key is well formed; the branch for keys that cannot be parsed is not modelled, nor is stopping early at shutdown. The size of a table under construction is a function of its entries.
- Picking.PickCompaction: the file that seeks have made due (`RecordReadSample`, `UpdateStats`) and the compaction pointers are parameters, and scores are real numbers where the source has doubles.
- ManifestFile.ManifestLog.LogAndApply: the description of a file in the manifest is taken to identify the file and its entries.
- Recovery.Recover: reuse of the last log and of the manifest (`reuse_logs`) and paranoid checks are not modelled. After a power loss with a manifest ahead of the logs, only reads are promised, not the invariant of the reopened system, since sequence numbers are skipped.
- WritePath.OpenAfterCrash: begins with a newly made database, and the files survive as written.
- PowerLoss.OpenAfterPowerLoss: only the end of the current log is lost. The log of the immutable memtable is taken to survive whole, although it is closed without a sync (`ios/Pods 2/leveldb-library/db/db_impl.cc:1355-1376`). Compactions must not resurrect for a reader of the tables alone.
- LogIO.Reader.ReadRecord: an initial offset and the resynchronisation it needs are not modelled.
- LogDamage.DamagedBlock: the checksum is an uninterpreted function, so that damage fails a check is a hypothesis, not a consequence.
- BlockIter.Iter.Next: only for blocks that a builder made; the corruption branches are not modelled.
- Table.Open: a file that passes the checks is taken to be a table; checksums are uninterpreted, blocks are stored uncompressed, and there is no block cache.
- TableBuilder.BuildTable: for tables whose keys and values together stay below 4 GB.
- FilterBlock.FilterBlockBuilder.Finish: the bytes are a filter block as long as the filters stay below 4 GB.
- FilterBlock.FilterBlockReader.KeyMayMatch: the hash is an arbitrary function to 32 bits.
- HandleTable.Table.Lookup: a bucket is chosen by the remainder of the hash, which is the source's mask for a power of two, as the number of buckets is; the 16 shards are not modelled.
- LruCache.Cache.Insert: charges and reference counts are unbounded integers.
- SkipListLinks.EveryRunKeepsInv: loads and stores are sequentially consistent; acquire and release ordering is not modelled.
- SkipList.List.Insert: the random height is a parameter, and keys are not inserted twice, as the source requires.
- PbStream.IStream.DecodeNoinit: pointer, callback and extension fields and fixed-count arrays are not modelled; a message struct is a sequence of slots that the decoder returns, where the source writes in place; the byte that a message type without fields has written into it is in no slot.
- PbStream.IStream.DecodeVarint32: the bit position is an unbounded integer; the source's may have eight bits and then wraps after 36 continuation bytes (`ios/Pods 2/nanopb/pb_decode.c:214-237`), so overlong varints beyond that are not modelled.
- PbEncode.OStream.Encode: without 32-bit overflow of sizes; callback streams are not modelled.
- PbRoundTrip.MessageRoundTrip: for messages of less than 4 GB.
- I/O errors, background errors, options, statistics, `Env`, the C bindings, repair and the dump tool are not modelled.
- The application around the two libraries (Flutter, Kotlin and Firebase calls) has no logic to prove.
