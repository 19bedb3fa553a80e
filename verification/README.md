# LevelDB and nanopb, modelled and proved

This project models the two libraries vendored under `MasGas/Pods` that hold the hard code of the
application: **LevelDB**, a log-structured merge-tree store, and **nanopb**, an encoder and decoder of
Protocol Buffers for statically allocated messages.

`dafny verify dfyconfig.toml` checks everything.

## LevelDB

*The store as a state machine.* `Lsm` has the states (write history, memtable, immutable memtable, seven
levels of files, live snapshots, reads in progress, logs, manifest, files on disk) and the steps: group write in
four parts (begin, log, insert one operation, commit), memtable switch, flush (also in the middle of a compaction),
trivial move, merge compaction in three parts, snapshots, reads that release the mutex, removal of obsolete files,
crash and recovery. `LsmInvariant` to `LsmRuns` prove that over every run each read at the latest sequence number,
at a live snapshot, or begun earlier, equals a lookup in the flat history of acknowledged writes; that recovery from
any point rebuilds every acknowledged write and at most the group in flight; and that levels stay sorted, disjoint
and ordered by age. `LsmApply` shows that it does no harm when LogAndApply releases the mutex. `DiskRecovery` starts from the bytes of the manifest and of
the logs, either cut off anywhere in the record being written, and `DiskImages` shows that every reachable state has such
bytes. `LsmProgress` and `LogRecovery` show that writes, flushes, compactions
and recovery are always possible.

*The condition on compactions.* `SetupOtherInputs` adds boundary files on the input level only. When two files of the
output level share a user key at their border, the rule that drops tombstones can bring a deleted value back:
`Closure.UnclosedOutputLosesDeletion` is a case with values of any size, and `LostDeletion.DeletionIsLost` a whole run that ends in it, with
every level, input and cut as the code picks them. The theorems about reads therefore ask that no
output-level file outside the inputs hold an older entry of an input user key when a compaction starts
(`ClosedRun`), and `History.CompactionKeepsReadsIff`, `LsmCompact.InstallReadsRightIff` and
`LsmRuns.RunReadsRightIff` say exactly when the drop rules keep all reads. The layout, the manifest and the files on disk need no such condition (`LsmRuns.RunKeepsLayout`).

*The algorithms behind the steps* are methods proved against specifications: file search, version search, version
builder, overlapping and boundary inputs, picking a compaction, the merge loop and its cursors, building a batch
group, recovering a log.

*Iterators and tables.* The merging iterator and the database iterator are cursors over one sorted sequence under any
mix of moves and direction changes; together with the state machine, `Scan.ScanSeesHistory` says that an iterator shows the flat
history, and `LiveScan.RunIteratorsSeeHistory` that it goes on doing so while everything else moves on. Blocks, filter blocks, index separators and two-level iterators are modelled on bytes, up to
`Tables.BuildAndGet` and `Tables.BuildAndWalk`: a lookup in a table never misses, and walking over it yields what was added.

*Memory structures.* The skip list is proved after every single link write, with readers that run in between; the
cache keeps its two lists, reference counts, usage and hash table consistent, and runs each deleter once.

*Codecs.* Varints, fixed-width numbers, log files (any byte prefix of a log reads as the records it holds completely),
write batches, version edits.

## nanopb

Descriptors and messages are datatypes of any nesting depth; `PbFormat` has the encoding that the Protocol Buffers
Encoding specification gives in its sections "Base 128 Varints", "Message Structure", "More Integer Types",
"Length-Delimited Records" and "Packed Repeated Fields". The encoder writes exactly those bytes, with the sizing
pass of submessages predicting them; the decoder reads records one at a time, from a field iterator that
wraps around, and gives the message back up to the contents of absent fields, whatever the order of fields, however arrays are split,
and whatever unknown fields stand in between, at any depth (`PbForeign`). `PbReading` says what any such sequence of records makes of
the memory it is read into: of a single field given twice the last one counts, arrays grow, and submessages given in parts are merged. Any success of the decoder, on any bytes, means that each of the
first 64 required fields was read, in every message at any depth, and that the result fits its memory.

## How the modules fit together

| modules | subject |
|---|---|
| Keys, History, Files, Builder, Reads | internal keys, the flat history, files of a level, the manifest, point reads |
| Ranges, Pick, CompactionWork, Layout | inputs of a compaction, the merge loop, what keeps the levels in order |
| Lsm, LsmInvariant, LsmWrites, LsmFlush, LsmCompact, LsmRecover, LogRecovery, ManifestFiles, DiskRecovery, DiskImages, LsmRuns, LsmProgress, LsmApply, Closure, LostDeletion | the state machine and its theorems |
| GroupCommit, WriteBatches, VersionEdits, Coding, LogFormat, LogFiles | the write path and the files it writes |
| Merging, DbIter, Scan, LiveScan | iterators over the store |
| BlockFormat, Blocks, BlockIters, Separators, Bloom, FilterBlocks, TableFormat, TableBuilder, TableReader, TwoLevel, Tables | tables |
| SkipLists, HandleTables, LruCache | memory structures |
| PbFormat, PbFields, PbEncode, PbStreams, PbScalars, PbRecords, PbForeign, PbReading, PbRequired, PbDecode, PbRoundTrip | nanopb |

## Model

| member | source | states |
|---|---|---|
| Keys.SeekKeySkipsTooNew | MasGas/Pods/leveldb-library/db/dbformat.cc:47-63 | seeking an internal key (u, s) passes over exactly the entries of smaller user keys and those of u written after s |
| Keys.ProbeFindsNewest | MasGas/Pods/leveldb-library/db/memtable.cc:101-135 | a memtable probe returns the newest entry of the user key at or before the sequence number, and none only if there is none |
| Keys.InsertIsSorted | MasGas/Pods/leveldb-library/db/memtable.cc:76-99 | adding an entry keeps the memtable sorted and adds that entry only |
| History.ViewFollowsHistory | MasGas/Pods/leveldb-library/db/db_impl.cc:1110-1155 | a set of entries that agrees with the flat history up to a, and holds every write up to b, agrees up to b |
| History.CompactionKeepsReadsIff | MasGas/Pods/leveldb-library/db/db_impl.cc:950-987 | for any sequence number from the smallest snapshot on, the drop rules keep every read from there on if and only if no dropped tombstone that a read there sees covers a value left outside the inputs; if they do not, a read at that very number changes |
| History.UnsafeTombstoneChangesRead | MasGas/Pods/leveldb-library/db/db_impl.cc:963-980 | a dropped tombstone that is not safe brings the covered older value back |
| Files.FindFile | MasGas/Pods/leveldb-library/db/version_set.cc:87-105 | the binary search returns the index that a linear scan for the first file reaching the key returns |
| Files.SomeFileOverlapsRange | MasGas/Pods/leveldb-library/db/version_set.cc:121-156 | for disjoint and for overlapping files alike, true exactly when some file meets the user-key range |
| Builder.VersionBuilder.Apply | MasGas/Pods/leveldb-library/db/version_set.cc:629-669 | each level afterwards is the level change of the edit applied to the level before: deletions first, an added file clears an earlier deletion; the compaction pointers are those before with the pointers of the edit set in turn |
| Builder.PointedAt | MasGas/Pods/leveldb-library/db/version_set.cc:630-635 | of the compaction pointers of an edit the last one for a level counts, and a level without one keeps its pointer |
| Builder.VersionBuilder.SaveTo | MasGas/Pods/leveldb-library/db/version_set.cc:671-730 | each level is the base without the deleted files, merged in order with the added ones |
| Builder.ReplayEqualsStepwise | MasGas/Pods/leveldb-library/db/version_set.cc:629-730 | one builder fed a whole list of edits saves the same sorted level as saving after each edit, when each file number is added to the level at most once |
| Builder.ReplayAppend | MasGas/Pods/leveldb-library/db/version_set.cc:777-860 | appending an edit to the manifest and replaying gives the version that applying the edit to the current version gives |
| Builder.ReplayHolds | MasGas/Pods/leveldb-library/db/version_set.cc:862-987 | a replayed level is sorted, has distinct file numbers, and holds only numbers that were added to it |
| Builder.SnapshotReplays | MasGas/Pods/leveldb-library/db/version_set.cc:1064-1092 | the snapshot record of a version, replayed on the empty version, gives the version back |
| Reads.FirstProbeAnswers | MasGas/Pods/leveldb-library/db/version_set.cc:277-305 | probing overlapping files newest first, the first hit is the newest entry of the key at or before the sequence number |
| Reads.ProbeLevelAnswers | MasGas/Pods/leveldb-library/db/version_set.cc:306-321 | in a disjoint level the one file found by FindFile is enough |
| Reads.VersionSearch | MasGas/Pods/leveldb-library/db/version_set.cc:281-400 | the search, level 0 newest first and then level by level, stops at the entry that is the newest visible one of the whole version |
| Reads.VersionGetAnswers | MasGas/Pods/leveldb-library/db/version_set.cc:324-400 | what the search finds is the newest visible entry of all levels together |
| Reads.GetIsView | MasGas/Pods/leveldb-library/db/db_impl.cc:1110-1155 | memtable, then immutable memtable, then version: the first answer is the newest visible entry of all three, a deletion reading as nothing |
| Ranges.GetOverlappingInputs | MasGas/Pods/leveldb-library/db/version_set.cc:498-538 | terminates; in level 0 the result is the files touching the least range that contains the given one and is closed under overlap, in deeper levels those touching the given range |
| Ranges.GetRange | MasGas/Pods/leveldb-library/db/version_set.cc:1182-1203 | the smallest and the largest internal key of the inputs |
| Ranges.AddBoundaryInputs | MasGas/Pods/leveldb-library/db/version_set.cc:1359-1378 | terminates with no level file left that starts after the largest input key with the same user key; convexity of the inputs is kept |
| Ranges.FindSmallestBoundaryFile | MasGas/Pods/leveldb-library/db/version_set.cc:1321-1340 | the file with the least smallest key among those that continue the user key, and none only if there is none |
| Ranges.BoundaryKeepsConvex | MasGas/Pods/leveldb-library/db/version_set.cc:1321-1378 | the boundary file added leaves no gap among the files of the level |
| Ranges.LinkedKeepsNoGap | MasGas/Pods/leveldb-library/db/version_set.cc:1359-1378 | boundary files added one after another keep the inputs one connected user-key interval |
| Pick.SetupOtherInputs | MasGas/Pods/leveldb-library/db/version_set.cc:1380-1439 | every file of the two levels that overlaps the inputs, or would be left older than them, is an input; a connected choice stays connected |
| Pick.PickFile | MasGas/Pods/leveldb-library/db/version_set.cc:1262-1274 | the first file of the level that ends after the compaction pointer, or the first of all; in a disjoint level the file after the one compacted last, so that every file has its turn |
| Pick.PickStart | MasGas/Pods/leveldb-library/db/version_set.cc:1247-1281 | a level with too much data, from its pointer on, comes before a file with too many seeks; nothing only if there is neither |
| Pick.PickCompaction | MasGas/Pods/leveldb-library/db/version_set.cc:1278-1299 | the inputs contain the chosen file, are fit to be compacted, come in key order on each level but the first, and together cover one connected user-key interval |
| Pick.PickLevelForMemTableOutput | MasGas/Pods/leveldb-library/db/version_set.cc:470-495 | a level, at most 2, above which and at which nothing overlaps the range, and the deepest one reached before a blocked level |
| CompactionWork.Compaction.IsBaseLevelForKey | MasGas/Pods/leveldb-library/db/version_set.cc:1510-1529 | for user keys that never decrease, the forward-only cursors give the answer of a full scan of every level from level+2 on |
| CompactionWork.DoCompactionWork | MasGas/Pods/leveldb-library/db/db_impl.cc:887-1046 | the tables written, cut wherever ShouldStopBefore or the size say, hold exactly the entries the drop rules keep, in order, none empty; no table goes on once it is full, and unless ShouldStopBefore says so none but the last ends before |
| CompactionWork.HiddenByPrevious | MasGas/Pods/leveldb-library/db/db_impl.cc:933-962 | looking only at the sequence number of the previous entry of the user key decides whether any newer entry hides this one |
| CompactionWork.SurvivorsSpec | MasGas/Pods/leveldb-library/db/db_impl.cc:950-987 | the survivors are sorted and are exactly the entries that are not dropped |
| Layout.FlushKeepsLayout | MasGas/Pods/leveldb-library/db/db_impl.cc:500-542 | a flushed table at the level picked keeps levels from 1 on sorted and disjoint and newer entries shallower |
| Layout.FlushMissesInputs | MasGas/Pods/leveldb-library/db/version_set.cc:470-495 | a table flushed to the output level in the middle of a compaction lies wholly to one side of connected inputs |
| Layout.FlushKeepsInputs | MasGas/Pods/leveldb-library/db/db_impl.cc:916-928 | a flush in the middle of a compaction leaves its inputs fit to be compacted |
| Layout.MoveKeepsLayout | MasGas/Pods/leveldb-library/db/db_impl.cc:869-885 | replacing inputs by outputs made of their entries keeps the layout of all levels |
| LsmInvariant.LayersAreOrdered | MasGas/Pods/leveldb-library/db/db_impl.cc:1110-1155 | version, immutable memtable and memtable hold successive stretches of the history |
| LsmInvariant.GetIsViewOfAll | MasGas/Pods/leveldb-library/db/db_impl.cc:1110-1155 | under the invariant a Get returns the view of everything the database holds |
| LsmInvariant.ReadsSeeHistory | MasGas/Pods/leveldb-library/db/db_impl.cc:1110-1155 | a read at the latest sequence number or a live snapshot equals the lookup in the flat history |
| LsmWrites.InsertNextKeeps | MasGas/Pods/leveldb-library/db/write_batch.cc:116-148 | inserting one operation of a group keeps the invariant and changes no read, finished or in progress |
| LsmWrites.CommitGroupKeeps | MasGas/Pods/leveldb-library/db/db_impl.cc:1236-1243 | publishing the new last sequence number makes a whole group visible at once and keeps the invariant |
| LsmWrites.SwitchKeeps | MasGas/Pods/leveldb-library/db/db_impl.cc:1354-1375 | a memtable switch keeps the invariant and all reads |
| LsmWrites.TakeSnapshotKeeps | MasGas/Pods/leveldb-library/db/db_impl.cc:1176-1179 | taking a snapshot keeps the invariant and all reads |
| LsmWrites.ReleaseSnapshotKeeps | MasGas/Pods/leveldb-library/db/db_impl.cc:1181-1185 | releasing a snapshot keeps the invariant and the reads at those that remain |
| LsmWrites.RemoveObsoleteKeeps | MasGas/Pods/leveldb-library/db/db_impl.cc:222-287 | no table of a live version, of a version a reader holds, or of a pending output is removed, nor the log of a memtable; the invariant is kept |
| LsmFlush.EmptyFlushKeeps | MasGas/Pods/leveldb-library/db/db_impl.cc:544-575 | flushing an empty memtable only lets its log go |
| LsmFlush.FlushKeeps | MasGas/Pods/leveldb-library/db/db_impl.cc:500-575 | flushing keeps the invariant and every read |
| LsmCompact.TrivialMoveKeeps | MasGas/Pods/leveldb-library/db/db_impl.cc:725-742 | moving a file down a level keeps the invariant and every read |
| LsmCompact.InstallKeeps | MasGas/Pods/leveldb-library/db/db_impl.cc:869-885 | installing a compaction keeps the invariant, and every allowed read if its dropped tombstones are safe for the reads still allowed |
| LsmCompact.InstallKeepsReadsIff | MasGas/Pods/leveldb-library/db/db_impl.cc:869-1046 | installing keeps every read from a number at or after the smallest snapshot on if and only if no dropped tombstone that a read there sees covers a live value left behind |
| LsmCompact.InstallReadsRightIff | MasGas/Pods/leveldb-library/db/db_impl.cc:869-1046 | after installing, all reads at the latest number and at live snapshots are right if and only if the dropped tombstones were safe for them, even when snapshots were released since the compaction started |
| LsmCompact.OlderDataIsInput | MasGas/Pods/leveldb-library/db/version_set.cc:1380-1439 | when no output-level file outside the inputs holds an older entry of an input user key, everything older than an input entry without deeper data is an input |
| LsmRecover.RecoveryReadsMemLogs | MasGas/Pods/leveldb-library/db/db_impl.cc:340-366 | the logs recovery reads, those numbered from the manifest on, are exactly the logs of the immutable memtable and of the memtable |
| LsmRecover.RecoveredLastIsWhole | MasGas/Pods/leveldb-library/db/db_impl.cc:340-378 | the last sequence number recovered is the number of writes recovered |
| LsmRecover.RecoveredReads | MasGas/Pods/leveldb-library/db/db_impl.cc:289-378 | every acknowledged write reads back after recovery |
| LsmRecover.RecoveryKeeps | MasGas/Pods/leveldb-library/db/db_impl.cc:289-378 | crash and recovery from any state rebuild a state that keeps the invariant, with every acknowledged write and at most the group in flight |
| LogRecovery.RecoverLogFile | MasGas/Pods/leveldb-library/db/db_impl.cc:380-498 | the records of one log become level-0 tables, cut wherever the memtable filled up, that together hold exactly the log, and the largest sequence number seen |
| LogRecovery.RecoveryIsPossible | MasGas/Pods/leveldb-library/db/db_impl.cc:289-378 | from every state that satisfies the invariant recovery has a result |
| DiskRecovery.ParseBatch | MasGas/Pods/leveldb-library/db/write_batch.cc:42-80 | a log record that is a write batch is read back as its sequence number and operations |
| DiskRecovery.RecoverLog | MasGas/Pods/leveldb-library/db/db_impl.cc:421-462 | from the bytes of a log cut off anywhere, tables of exactly the batches that are there whole, and the largest sequence number |
| ManifestFiles.KeyParses | MasGas/Pods/leveldb-library/db/dbformat.h:171-181 | parsing an internal key gives back the user key, number and type it was made of |
| ManifestFiles.ParsedInOrder | MasGas/Pods/leveldb-library/db/dbformat.cc:47-63 | with the two user keys ranked in their byte order, internal keys as bytes compare like the keys they parse to |
| ManifestFiles.KeysHaveRanks | MasGas/Pods/leveldb-library/db/dbformat.cc:47-63 | any finite set of byte keys has ranks in the byte order of its keys, and each rank names its key |
| ManifestFiles.EditHasRecord | MasGas/Pods/leveldb-library/db/version_edit.cc:41-85 | every edit within the widths of the fields has a record that reads back as it, with all counters |
| ManifestFiles.SomeEditHasRecord | MasGas/Pods/leveldb-library/db/version_edit.cc:41-85 | an edit that adds a file and deletes another, with the names of its keys and the record that reads back as it |
| ManifestFiles.RecoverManifest | MasGas/Pods/leveldb-library/db/version_set.cc:862-987 | from the bytes of a manifest cut off anywhere, the version that the edits there whole replay to, with the numbers, sizes and key ranges of files as the records give them; the counters of the last of these edits; and the compaction pointers |
| DiskRecovery.LogsToRecover | MasGas/Pods/leveldb-library/db/db_impl.cc:332-359 | the logs from the log number on, oldest first, each once |
| DiskRecovery.ManifestOfOne | MasGas/Pods/leveldb-library/db/version_set.cc:823-848 | of a manifest that ends anywhere in the record LogAndApply was writing, the version before that edit or the one after it is read |
| DiskRecovery.MemLogsComeFirst | MasGas/Pods/leveldb-library/db/db_impl.cc:332-359 | of the logs found, those of the memtables come first, and after them only empty ones that unfinished recoveries left |
| DiskRecovery.RecoverFromDisk | MasGas/Pods/leveldb-library/db/db_impl.cc:289-378 | from the bytes of the manifest and of the logs, either of which may end anywhere within the record in flight, exactly what the state machine recovers from the state before or after the edit in flight; so the invariant holds again, every acknowledged write is there, and the group in flight whole or not at all |
| DiskImages.RunKeepsWithin | MasGas/Pods/leveldb-library/db/version_set.cc:777-860 | in every reachable state the records of the manifest are not ahead of the counters, delete only numbers in use, add only files of what was written, and give a number to one table only |
| DiskImages.BatchHasRecord | MasGas/Pods/leveldb-library/db/write_batch.cc:98-137 | every batch within the widths of the fields has a record that is read back as it |
| DiskImages.RanksFit | MasGas/Pods/leveldb-library/db/dbformat.cc:47-63 | whatever operations on byte keys were written, ranking their keys makes them a history within the widths |
| DiskImages.ImageExists | MasGas/Pods/leveldb-library/db/db_impl.cc:289-378 | every reachable state within the widths has bytes of a manifest and of logs that recovery starts from, wherever the records in flight are cut |
| LsmRuns.StepKeeps | MasGas/Pods/leveldb-library/db/db_impl.cc:697-776 | every step, crash included, keeps the invariant; every step but an unsafe install keeps all reads |
| LsmRuns.StepKeepsClosed | MasGas/Pods/leveldb-library/db/version_set.cc:1380-1439 | a compaction that starts with its output level closed stays closed until it is installed, whatever is flushed meanwhile |
| LsmRuns.ClosedRunIsSafe | MasGas/Pods/leveldb-library/db/db_impl.cc:697-776 | in a run whose compactions start closed no install drops a tombstone that is still needed |
| LsmRuns.RunReadsSeeHistory | MasGas/Pods/leveldb-library/db/db_impl.cc:1110-1155 | in every reachable state reads at the latest sequence number and at live snapshots equal the newest write at or before it in the full history, and nothing if it is a deletion |
| LsmRuns.RunReadsRightIff | MasGas/Pods/leveldb-library/db/db_impl.cc:869-1046 | in a run, the allowed reads of every state are right if and only if no compaction of the run was unsafe |
| LsmRuns.RunReadersSeeHistory | MasGas/Pods/leveldb-library/db/db_impl.cc:1110-1155 | a read that released the mutex finds for every key what the history held at its snapshot, and the tables it needs are still there |
| LsmRuns.RunKeepsLayout | MasGas/Pods/leveldb-library/db/version_set.cc:777-860 | in every reachable state levels are laid out properly, no live file has been removed, the manifest replays to the current version, and the logs of both memtables exist |
| LsmRuns.StepGrowsHistory | MasGas/Pods/leveldb-library/db/db_impl.cc:1195-1268 | a step adds a whole group to the visible history or nothing |
| LsmRuns.HistoryGrows | MasGas/Pods/leveldb-library/db/db_impl.cc:1195-1268 | along a run the acknowledged history only grows |
| LsmRuns.SnapshotsAreStable | MasGas/Pods/leveldb-library/db/snapshot.h:18-90 | a snapshot reads the same at any two points of a run at which it may be read |
| LsmApply.ApplyMayWait | MasGas/Pods/leveldb-library/db/version_set.cc:777-860 | while LogAndApply writes the manifest with the mutex released, writers and readers may run on: afterwards the same step installs the same version with the record that was written, whose counters are those of the call |
| LsmProgress.WriteIsPossible | MasGas/Pods/leveldb-library/db/db_impl.cc:1195-1268 | from every state without a group in flight, any operations can be logged, inserted and committed |
| LsmProgress.FlushIsPossible | MasGas/Pods/leveldb-library/db/db_impl.cc:544-575 | an immutable memtable can always be flushed |
| LsmProgress.InputRunsHold | MasGas/Pods/leveldb-library/db/version_set.cc:1214-1245 | the input iterator of a compaction yields exactly the entries of its inputs, each once, in order: one child a file in level 0, one for all files of any other level |
| LsmProgress.Compact | MasGas/Pods/leveldb-library/db/db_impl.cc:697-769 | from every state without immutable memtable and running compaction, and from any file of any level but the last, a compaction can be picked, started, worked and installed; afterwards the file has left its level and the history is the same |
| Closure.UnclosedOutputLosesDeletion | MasGas/Pods/leveldb-library/db/version_set.cc:1380-1400 | for values of any size, a version and connected inputs, chosen as the code chooses them, whose compaction turns a deleted key back to its old value because the output level was not closed |
| LostDeletion.DeletionIsLost | MasGas/Pods/leveldb-library/db/version_set.cc:1380-1439 | whenever values fill an output file up to its limit at the deletion, a whole run from the initial state after which reading a deleted key returns its old value, while the flat history says it is deleted: every flush goes to the deepest level that is not blocked, every compaction takes in the one file of its level and the files touching its range, and every output is closed when it has reached the limit |
| LostDeletion.ValuesFillUp | MasGas/Pods/leveldb-library/db/db_impl.cc:999-1006 | such values exist for every limit above the block size, when a builder writes a block once its entries come to that size |
| GroupCommit.WriteQueue.BuildBatchGroup | MasGas/Pods/leveldb-library/db/db_impl.cc:1270-1316 | a group of the front writers within the size limit and the sync rule, as large as the rules allow, with their operations in arrival order |
| GroupCommit.GroupGrows | MasGas/Pods/leveldb-library/db/db_impl.cc:1280-1313 | when one more writer may join |
| GroupCommit.BatchesAreContiguous | MasGas/Pods/leveldb-library/db/write_batch.cc:116-148 | the operations of one writer of the queue lie right between those of the writers before and after it |
| GroupCommit.WriteQueue.InsertInto | MasGas/Pods/leveldb-library/db/write_batch.cc:132-138 | the memtable afterwards holds the operations at consecutive sequence numbers |
| GroupCommit.WriteQueue.ReleaseUpTo | MasGas/Pods/leveldb-library/db/db_impl.cc:1253-1262 | exactly the writers from the front to the last one of the group leave, in order |
| GroupCommit.WriteQueue.Finish | MasGas/Pods/leveldb-library/db/db_impl.cc:1215-1268 | the group is logged once, inserted, published and released, and nothing else is; the log is synced after it exactly when its front writer asked for that, and every writer that asked is released only after its operations were synced |
| WriteBatches.WriteBatch.Number | MasGas/Pods/leveldb-library/db/write_batch.cc:94-96 | the batch gets its sequence number; operations and count stay |
| WriteBatches.WriteBatch.Put | MasGas/Pods/leveldb-library/db/write_batch.cc:98-103 | the bytes hold one operation more |
| WriteBatches.WriteBatch.Delete | MasGas/Pods/leveldb-library/db/write_batch.cc:105-109 | the bytes hold one deletion more |
| WriteBatches.WriteBatch.Append | MasGas/Pods/leveldb-library/db/write_batch.cc:144-149 | the bytes hold the operations of both batches, in order |
| WriteBatches.WriteBatch.Iterate | MasGas/Pods/leveldb-library/db/write_batch.cc:42-80 | the handler sees exactly the operations put into the batch, in order |
| WriteBatches.WriteBatch.InsertInto | MasGas/Pods/leveldb-library/db/write_batch.cc:115-137 | the i-th operation is inserted with the sequence number of the batch plus i |
| WriteBatches.OpsAppend | MasGas/Pods/leveldb-library/db/write_batch.cc:144-149 | the bytes of two lists of operations are those of the joined list |
| VersionEdits.VersionEdit.Clear | MasGas/Pods/leveldb-library/db/version_edit.cc:27-39 | every field is reset but the compaction pointers |
| VersionEdits.VersionEdit.EncodeTo | MasGas/Pods/leveldb-library/db/version_edit.cc:41-85 | the bytes are those of the set fields and of all pointers, deletions and new files, in order |
| VersionEdits.VersionEdit.DecodeFrom | MasGas/Pods/leveldb-library/db/version_edit.cc:106-203 | on a fresh edit, decoding the encoding of an edit gives every field of it back; whatever the bytes, no level out of range gets into the lists |
| VersionEdits.GetItem | MasGas/Pods/leveldb-library/db/version_edit.cc:119-192 | the item whose bytes follow the tag is read back, and no more |
| VersionEdits.ItemsMakeEdit | MasGas/Pods/leveldb-library/db/version_edit.cc:41-203 | reading the items of an edit one by one rebuilds the edit |
| Merging.MergedSpec | MasGas/Pods/leveldb-library/table/merger.cc:148-176 | the merged sequence is sorted and holds exactly the entries of the children |
| Merging.MergingIterator.SeekToFirst | MasGas/Pods/leveldb-library/table/merger.cc:31-37 | stands on the first merged entry |
| Merging.MergingIterator.SeekToLast | MasGas/Pods/leveldb-library/table/merger.cc:39-45 | stands on the last merged entry |
| Merging.MergingIterator.Seek | MasGas/Pods/leveldb-library/table/merger.cc:47-53 | stands on the first merged entry at or after the target |
| Merging.MergingIterator.Next | MasGas/Pods/leveldb-library/table/merger.cc:55-79 | moves to the next merged entry, from either direction |
| Merging.MergingIterator.Prev | MasGas/Pods/leveldb-library/table/merger.cc:81-105 | moves to the previous merged entry, from either direction |
| Merging.ArriveForward | MasGas/Pods/leveldb-library/table/merger.cc:148-161 | with every child at its first entry from the split on, the smallest current entry is the merged one there |
| Merging.ArriveBackward | MasGas/Pods/leveldb-library/table/merger.cc:163-176 | with every child just before the split, the largest current entry is the merged one before it |
| DbIter.RowsAreTheView | MasGas/Pods/leveldb-library/db/db_iter.cc:141-308 | the rows an iterator shows are exactly the values a read at its sequence number sees, one for each user key, in order |
| DbIter.RowsBeforeTarget | MasGas/Pods/leveldb-library/db/db_iter.cc:278-290 | the rows before the seek position are those of smaller user keys |
| DbIter.DbIterator.FindNextUserEntry | MasGas/Pods/leveldb-library/db/db_iter.cc:177-207 | skips deletions, overwritten and too new entries, and nothing that a row shows |
| DbIter.DbIterator.FindPrevUserEntry | MasGas/Pods/leveldb-library/db/db_iter.cc:236-276 | going back, stops at the entry of the previous row and passes over nothing that a row shows |
| DbIter.DbIterator.SeekToFirst | MasGas/Pods/leveldb-library/db/db_iter.cc:292-301 | stands on the first row |
| DbIter.DbIterator.SeekToLast | MasGas/Pods/leveldb-library/db/db_iter.cc:303-308 | stands on the last row |
| DbIter.DbIterator.Seek | MasGas/Pods/leveldb-library/db/db_iter.cc:278-290 | stands on the first row at or after the target |
| DbIter.DbIterator.Next | MasGas/Pods/leveldb-library/db/db_iter.cc:141-175 | moves to the next row, from either direction |
| DbIter.DbIterator.Prev | MasGas/Pods/leveldb-library/db/db_iter.cc:209-234 | moves to the previous row, from either direction |
| DbIter.DbIterator.ShowsRow | MasGas/Pods/leveldb-library/db/db_iter.cc:64-71 | key and value are those of the row at its position, in either direction |
| Scan.ChildRunsHold | MasGas/Pods/leveldb-library/db/db_impl.cc:1072-1097 | the children of the internal iterator are sorted runs that together hold exactly what the database holds |
| Scan.RowsAreGets | MasGas/Pods/leveldb-library/db/db_impl.cc:1072-1097 | an iterator over memtables and a version that hold successive stretches of the history has one row for each key that Get finds there, in order |
| Scan.ScanSeesHistory | MasGas/Pods/leveldb-library/db/db_impl.cc:1157-1167 | in every reachable state an iterator at the latest sequence number or a live snapshot shows one row for each user key of the flat history there, in order, with its value |
| LiveScan.StepKeepsHeld | MasGas/Pods/leveldb-library/db/db_impl.cc:1058-1097 | no step, insertions into the captured memtable included, disturbs the order of what a read has captured |
| LiveScan.RunIteratorsSeeHistory | MasGas/Pods/leveldb-library/db/db_impl.cc:1157-1167 | an iterator opened earlier in a run goes on showing the flat history of its sequence number, whatever was inserted, switched, flushed, compacted and removed since, and its tables are still there |
| LiveScan.IteratorsAreStable | MasGas/Pods/leveldb-library/db/db_impl.cc:1157-1167 | an iterator has the same rows at any two points of its life |
| LiveScan.NewIterator | MasGas/Pods/leveldb-library/db/db_impl.cc:1157-1167 | the iterator over the merged children has the rows of those memtables and that version |
| LiveScan.Walk | MasGas/Pods/leveldb-library/db/db_iter.cc:141-175 | walking from the first row on yields all rows, each once, in order |
| LiveScan.WalkHistory | MasGas/Pods/leveldb-library/db/db_impl.cc:1157-1167 | opening and walking such an iterator at any later point of a run yields what the history held at its sequence number |
| BlockFormat.EntryInBody | MasGas/Pods/leveldb-library/table/block_builder.cc:71-105 | where the bytes of each entry stand in a block |
| BlockFormat.CommonIsPrefix | MasGas/Pods/leveldb-library/table/block_builder.cc:77-85 | the shared length is that of the longest common prefix |
| Blocks.BlockBuilder.Add | MasGas/Pods/leveldb-library/table/block_builder.cc:71-105 | the buffer holds one entry more, prefix-compressed unless a restart is due |
| Blocks.BlockBuilder.Finish | MasGas/Pods/leveldb-library/table/block_builder.cc:61-69 | the bytes are a block of exactly the entries added |
| Blocks.DecodeEntry | MasGas/Pods/leveldb-library/table/block.cc:55-75 | the lengths and the key position of the entry that stands there, by the one-byte path or by varints |
| Blocks.FastPath | MasGas/Pods/leveldb-library/table/block.cc:62-66 | three bytes below 128 read as the three varints would |
| BlockIters.Iter.ParseNextKey | MasGas/Pods/leveldb-library/table/block.cc:225-252 | stands on the next entry with its whole key and value, and on none at the end |
| BlockIters.Iter.SeekToFirst | MasGas/Pods/leveldb-library/table/block.cc:204-207 | stands on the first entry |
| BlockIters.Iter.SeekToLast | MasGas/Pods/leveldb-library/table/block.cc:209-214 | stands on the last entry |
| BlockIters.Iter.Next | MasGas/Pods/leveldb-library/table/block.cc:138-141 | stands on the entry after |
| BlockIters.Iter.Prev | MasGas/Pods/leveldb-library/table/block.cc:143-162 | stands on the entry before, and on none before the first |
| BlockIters.Iter.Seek | MasGas/Pods/leveldb-library/table/block.cc:164-202 | binary search over restart points, then a scan, end on the first entry at or after the target |
| BlockIters.Iter.FindRestartPoint | MasGas/Pods/leveldb-library/table/block.cc:164-187 | the restart point found is before the target, unless it is the first |
| Separators.FindShortestSeparator | MasGas/Pods/leveldb-library/util/comparator.cc:31-55 | the result is the start itself or strictly between start and limit, and no longer than start |
| Separators.FindShortSuccessor | MasGas/Pods/leveldb-library/util/comparator.cc:57-70 | the result is the key itself or after it, and no longer |
| Separators.InternalSeparator | MasGas/Pods/leveldb-library/db/dbformat.cc:65-82 | start itself, or an internal key whose user key is strictly between those of start and limit |
| Separators.InternalSuccessor | MasGas/Pods/leveldb-library/db/dbformat.cc:84-97 | the key itself, or an internal key with a later user key |
| Separators.BytesTransitive | MasGas/Pods/leveldb-library/util/comparator.cc:27-29 | the bytewise order is transitive |
| Separators.InternalOrder | MasGas/Pods/leveldb-library/db/dbformat.cc:47-63 | the order of internal keys is strict, and keys that are not ordered agree in user key and number |
| Bloom.CreateFilter | MasGas/Pods/leveldb-library/util/bloom.cc:28-54 | the bytes appended are the filter: the bits of all probes of all keys, then the number of probes |
| Bloom.KeyMayMatch | MasGas/Pods/leveldb-library/util/bloom.cc:56-82 | true exactly when every probe of the key is set, or the number of probes is reserved |
| Bloom.KeysMatch | MasGas/Pods/leveldb-library/util/bloom.cc:28-82 | no false negatives, for any hash function, number of bits and of probes |
| FilterBlocks.FilterBuilder.StartBlock | MasGas/Pods/leveldb-library/table/filter_block.cc:21-27 | filters are made up to the range of the block; no key is lost |
| FilterBlocks.FilterBuilder.AddKey | MasGas/Pods/leveldb-library/table/filter_block.cc:29-33 | the key is kept for the block started last |
| FilterBlocks.FilterBuilder.Finish | MasGas/Pods/leveldb-library/table/filter_block.cc:35-49 | the bytes are a filter block in which every key added is in the filter for the range its block starts in |
| FilterBlocks.FilterReader.KeyMayMatch | MasGas/Pods/leveldb-library/table/filter_block.cc:90-104 | of a filter block, exactly what the policy says of the filter for that range, and true beyond the last |
| FilterBlocks.AddedMatches | MasGas/Pods/leveldb-library/table/filter_block.cc:21-104 | a key added for a block, or one the policy takes for the same, matches for that block |
| FilterBlocks.InternalBloomNeverMisses | MasGas/Pods/leveldb-library/db/dbformat.cc:101-115 | Bloom filters over user keys never miss a key with the same user key |
| TableFormat.IndexBefore | MasGas/Pods/leveldb-library/table/table_builder.cc:102-109 | an index key is before every key of later blocks, and before their user keys unless it is the last key of its own block |
| TableFormat.IndexAfter | MasGas/Pods/leveldb-library/table/table_builder.cc:102-109 | an index key is at or after every key of its block |
| TableBuilder.TableBuilder.Add | MasGas/Pods/leveldb-library/table/table_builder.cc:94-123 | the table holds one entry more; the delayed index entry separates the two blocks |
| TableBuilder.TableBuilder.Flush | MasGas/Pods/leveldb-library/table/table_builder.cc:125-139 | the block being filled stands in the file; no entry is lost, and its index entry is pending |
| TableBuilder.TableBuilder.WriteRawBlock | MasGas/Pods/leveldb-library/table/table_builder.cc:177-194 | the block and its trailer are appended, and the handle says where |
| TableBuilder.TableBuilder.WriteMetaIndex | MasGas/Pods/leveldb-library/table/table_builder.cc:213-226 | a metaindex block stands in the file, with the handle of the filter block under the name of the policy, or empty |
| TableBuilder.TableBuilder.WriteFooter | MasGas/Pods/leveldb-library/table/format.cc:31-40 | the file ends with the footer: both handles, padding, magic number |
| TableBuilder.TableBuilder.Finish | MasGas/Pods/leveldb-library/table/table_builder.cc:198-253 | the file is a table of exactly the entries added, in order, whose filter block covers every key, with a metaindex block that leads to it and a footer that leads to both |
| TableFormat.ReadFooter | MasGas/Pods/leveldb-library/table/format.cc:42-63 | the two handles of the footer at the end of a file are read back |
| TableReader.Table.FindHandle | MasGas/Pods/leveldb-library/table/table.cc:214-224 | the handle of the first block whose index key is not before the key |
| TableReader.Table.InternalGet | MasGas/Pods/leveldb-library/table/table.cc:214-242 | reports the first entry not before the key, unless no entry of its user key is as old as it; the filter never hides one |
| TableReader.FirstIsNewest | MasGas/Pods/leveldb-library/table/table.cc:214-242 | the first entry not before (user key, number) is the newest visible entry of that user key if there is any |
| TableReader.NotFoundInBlock | MasGas/Pods/leveldb-library/table/table.cc:214-242 | when the block the index leads to has nothing at or after the key, no entry of its user key is visible |
| Tables.ReadMeta | MasGas/Pods/leveldb-library/table/table.cc:82-107 | the metaindex block yields the handle of the filter block, and none if the table has no filter |
| Tables.Open | MasGas/Pods/leveldb-library/table/table.cc:38-80 | from the bytes of a table alone, its index and, if wanted and there, its filter are found |
| Tables.BuildTable | MasGas/Pods/leveldb-library/table/table_builder.cc:94-253 | the bytes of a table of any ascending entries hold exactly those entries, its index, its filter, metaindex and footer; never refused while they weigh at most 2 GiB, with overhead, and filters take at most 64 bytes a key |
| Tables.BuildAndGet | MasGas/Pods/leveldb-library/table/table.cc:214-243 | in the bytes of the table built from any ascending entries, opened with or without its filter, a lookup reports the first entry not before the key, or no entry of its user key is visible; the table is always built within the same bounds |
| Tables.BuildAndWalk | MasGas/Pods/leveldb-library/table/table.cc:154-212 | the iterator of a table built from any ascending entries yields exactly those entries, in order forward and in reverse order backward |
| FilterBlocks.BloomIsModest | MasGas/Pods/leveldb-library/util/bloom.cc:28-58 | Bloom filters of up to 400 bits a key take at most 64 bytes a key |
| TwoLevel.TwoLevelIterator.Seek | MasGas/Pods/leveldb-library/table/two_level_iterator.cc:82-87 | stands on the first entry of the whole table at or after the target |
| TwoLevel.TwoLevelIterator.SeekToFirst | MasGas/Pods/leveldb-library/table/two_level_iterator.cc:89-94 | stands on the first entry of the table |
| TwoLevel.TwoLevelIterator.SeekToLast | MasGas/Pods/leveldb-library/table/two_level_iterator.cc:96-101 | stands on the last entry of the table |
| TwoLevel.TwoLevelIterator.Next | MasGas/Pods/leveldb-library/table/two_level_iterator.cc:103-107 | moves to the next entry, into the next block at the end of one |
| TwoLevel.TwoLevelIterator.Prev | MasGas/Pods/leveldb-library/table/two_level_iterator.cc:109-113 | moves to the previous entry, into the block before at the start of one |
| TwoLevel.TwoLevelIterator.SkipEmptyDataBlocksForward | MasGas/Pods/leveldb-library/table/two_level_iterator.cc:115-126 | from a used-up block to the first entry of the next |
| TwoLevel.TwoLevelIterator.SkipEmptyDataBlocksBackward | MasGas/Pods/leveldb-library/table/two_level_iterator.cc:128-139 | from a used-up block to the last entry of the one before |
| TwoLevel.SeekPosition | MasGas/Pods/leveldb-library/table/two_level_iterator.cc:82-87 | the first entry from the target on in the block the index leads to, or the first of the next block, is the first of all |
| SkipLists.WriteKeeps | MasGas/Pods/leveldb-library/db/skiplist.h:336-368 | after every single write of Insert each level is sorted and a sublist of the level below, and nothing linked is lost |
| SkipLists.SearchSurvives | MasGas/Pods/leveldb-library/db/skiplist.h:262-281 | a search in progress stays sound over a write |
| SkipLists.HopKeeps | MasGas/Pods/leveldb-library/db/skiplist.h:262-281 | one hop of a search keeps everything present at its start ahead of it or before its target |
| SkipLists.InterleavedSearchFinds | MasGas/Pods/leveldb-library/db/skiplist.h:262-281 | a search whose hops interleave with the writes of inserts ends on the first node at or after its target, having skipped nothing present when it started |
| SkipLists.InterleavedSearchEnds | MasGas/Pods/leveldb-library/db/skiplist.h:284-321 | searches for the last node before a key, or for the last of all, in any interleaving with inserts: they end on the head or on a node of the list before the target, with no node that was there at the start in between |
| SkipLists.SkipList.FindGreaterOrEqual | MasGas/Pods/leveldb-library/db/skiplist.h:262-281 | the first node at or after the key, and on every level the last one before it |
| SkipLists.SkipList.FindLessThan | MasGas/Pods/leveldb-library/db/skiplist.h:285-301 | the last node before the key |
| SkipLists.SkipList.FindLast | MasGas/Pods/leveldb-library/db/skiplist.h:305-321 | the last node |
| SkipLists.SkipList.Contains | MasGas/Pods/leveldb-library/db/skiplist.h:371-378 | whether the key is in the list |
| SkipLists.SkipList.Insert | MasGas/Pods/leveldb-library/db/skiplist.h:337-368 | the keys afterwards are those before and the new one |
| HandleTables.HandleTable.FindPointer | MasGas/Pods/leveldb-library/util/cache.cc:118-124 | the one place in the buckets where a slot with the key is, or the end of its chain |
| HandleTables.HandleTable.Lookup | MasGas/Pods/leveldb-library/util/cache.cc:75-77 | the slot with the key, and none only if there is none |
| HandleTables.HandleTable.Insert | MasGas/Pods/leveldb-library/util/cache.cc:79-94 | the slots afterwards are those before and the new one, without the one it replaces, across a resize |
| HandleTables.HandleTable.Remove | MasGas/Pods/leveldb-library/util/cache.cc:96-104 | exactly the slot with the key is taken out |
| HandleTables.HandleTable.Resize | MasGas/Pods/leveldb-library/util/cache.cc:126-147 | the same slots, in a table large enough |
| LruCache.RefKeeps | MasGas/Pods/leveldb-library/util/cache.cc:218-224 | taking a reference keeps every entry on the list its references call for, and usage equal to the charges |
| LruCache.UnrefKeeps | MasGas/Pods/leveldb-library/util/cache.cc:226-238 | dropping a reference keeps the invariant; the deleter runs exactly when the last one goes |
| LruCache.FinishEraseKeeps | MasGas/Pods/leveldb-library/util/cache.cc:308-317 | taking an entry out of the cache keeps the invariant, and deletes it exactly if no client holds it |
| LruCache.NewEntryKeeps | MasGas/Pods/leveldb-library/util/cache.cc:267-289 | a new entry starts in use, counted and charged |
| LruCache.Cache.Lookup | MasGas/Pods/leveldb-library/util/cache.cc:253-260 | the cached entry with the key, with one reference more, and none only if none is cached |
| LruCache.Cache.Release | MasGas/Pods/leveldb-library/util/cache.cc:262-265 | one reference fewer; the deleter runs at the last one |
| LruCache.Cache.Insert | MasGas/Pods/leveldb-library/util/cache.cc:267-304 | the entry replaces one with the same key; then the oldest unused entries are evicted, no more than needed, until usage is within capacity or none is left |
| LruCache.Cache.Erase | MasGas/Pods/leveldb-library/util/cache.cc:319-322 | exactly the entry with the key leaves the cache |
| LruCache.Cache.Prune | MasGas/Pods/leveldb-library/util/cache.cc:324-333 | exactly the unused entries leave the cache, and their deleters run |
| Coding.EncodeVarint32 | MasGas/Pods/leveldb-library/util/coding.cc:21-47 | the unrolled encoder writes the base-128 digits |
| Coding.GetVarint32 | MasGas/Pods/leveldb-library/util/coding.cc:84-112 | reads back any 32-bit number from its digits, and no byte more |
| Coding.EncodeVarint64 | MasGas/Pods/leveldb-library/util/coding.cc:55-64 | the loop writes the base-128 digits |
| Coding.GetVarint64 | MasGas/Pods/leveldb-library/util/coding.cc:116-143 | reads back any 64-bit number from its digits, and no byte more |
| Coding.GetLengthPrefixed | MasGas/Pods/leveldb-library/util/coding.cc:145-164 | reads back any string written after its length |
| Coding.Fixed32RoundTrip | MasGas/Pods/leveldb-library/util/coding.h:54-89 | decoding undoes encoding |
| Coding.Fixed64RoundTrip | MasGas/Pods/leveldb-library/util/coding.h:64-104 | decoding undoes encoding |
| LogFormat.UnmaskUndoesMask | MasGas/Pods/leveldb-library/util/crc32c.h:22-38 | unmasking undoes masking, for all 32-bit numbers |
| LogFormat.FragmentsAreRecord | MasGas/Pods/leveldb-library/db/log_writer.cc:34-80 | the fragments of a record are typed full, or first, middle, last, and join to the record, empty ones included |
| LogFormat.LogFits | MasGas/Pods/leveldb-library/db/log_writer.cc:34-108 | no fragment crosses a block border |
| LogFiles.Writer.AddRecord | MasGas/Pods/leveldb-library/db/log_writer.cc:34-80 | the file afterwards is the log of the records before and the new one |
| LogFiles.Writer.EmitPhysicalRecord | MasGas/Pods/leveldb-library/db/log_writer.cc:82-108 | header and payload are appended |
| LogFiles.Reader.ReadPhysicalRecord | MasGas/Pods/leveldb-library/db/log_reader.cc:189-271 | the next fragment if the bytes hold all of it, the end of the file otherwise, and no corruption reported, for any prefix of a log |
| LogFiles.Reader.ReadRecord | MasGas/Pods/leveldb-library/db/log_reader.cc:56-174 | the next record if the bytes hold all of it, and nothing otherwise |
| LogFiles.ReadLog | MasGas/Pods/leveldb-library/db/log_reader.cc:56-271 | reading any byte prefix of a log gives exactly the records it holds completely, in order, and reports nothing |
| LogFiles.CompleteIsPresent | MasGas/Pods/leveldb-library/db/log_reader.cc:56-271 | the records present in a prefix are the first ones |
| LogFiles.WholeLogIsComplete | MasGas/Pods/leveldb-library/db/log_reader.cc:56-271 | the whole file holds all records |
| PbFields.FieldIter.Next | MasGas/Pods/nanopb/pb_common.c:29-85 | one field on, counting required fields, and around to the first at the end |
| PbFields.FieldIter.Find | MasGas/Pods/nanopb/pb_common.c:87-104 | from wherever it stands, finds the field with the tag if there is one, and stays otherwise |
| PbEncode.FillBuffer | MasGas/Pods/nanopb/pb_encode.c:608-628 | the loop fills in the base-128 digits |
| PbEncode.EncodeSubmessage | MasGas/Pods/nanopb/pb_encode.c:717-765 | the size counted in the first pass is that of the bytes written in the second; succeeds exactly when capacities and room allow |
| PbEncode.EncodeMessage | MasGas/Pods/nanopb/pb_encode.c:528-549 | writes exactly the bytes of the message, fields in order, or fails exactly when a capacity or the room is exceeded |
| PbEncode.EncodeField | MasGas/Pods/nanopb/pb_encode.c:341-427 | required, optional, singular and repeated fields as the rules say |
| PbEncode.EncodeArray | MasGas/Pods/nanopb/pb_encode.c:147-236 | scalars packed under one tag, other items each under its own |
| PbEncode.EncodeScalar | MasGas/Pods/nanopb/pb_encode.c:769-850 | integers by width and sign, ZigZag, fixed width |
| PbFormat.MessageSplits | MasGas/Pods/nanopb/pb_encode.c:528-549 | the encoding of a message is that of its first fields followed by that of the others |
| PbStreams.DecodeVarint | MasGas/Pods/nanopb/pb_decode.c:255-275 | reads back any 64-bit number from its digits |
| PbStreams.DecodeVarint32Eof | MasGas/Pods/nanopb/pb_decode.c:187-247 | of up to five bytes the exact number, overflow refused; reads back any 32-bit number; end of stream told apart |
| PbStreams.TakeGroup | MasGas/Pods/nanopb/pb_decode.c:214-233 | one more group of seven bits; bits beyond the 32nd are only checked |
| PbStreams.DecodeTag | MasGas/Pods/nanopb/pb_decode.c:298-319 | field number and wire type; a zero ends the message |
| PbStreams.SkipField | MasGas/Pods/nanopb/pb_decode.c:321-331 | passes over a payload of each known wire type, varints of any length and strings included, and over no byte more; refuses other wire types |
| PbStreams.MakeSubstream | MasGas/Pods/nanopb/pb_decode.c:372-385 | a substream of exactly the bytes the length announces |
| PbStreams.CloseSubstream | MasGas/Pods/nanopb/pb_decode.c:387-400 | the stream goes on where the substream ends |
| PbScalars.DecSigned | MasGas/Pods/nanopb/pb_decode.c:1345-1380 | the value that was encoded, or an error when it does not fit the member |
| PbScalars.DecUnsigned | MasGas/Pods/nanopb/pb_decode.c:1382-1404 | the value that was encoded, or an error when it does not fit the member |
| PbScalars.DecZigZag | MasGas/Pods/nanopb/pb_decode.c:1406-1428 | the value that was encoded, or an error when it does not fit the member |
| PbScalars.DecFixed64 | MasGas/Pods/nanopb/pb_decode.c:1314-1331 | the value that was encoded |
| PbScalars.DecLimited | MasGas/Pods/nanopb/pb_decode.c:1448-1528 | the bytes that were encoded, or an error when they exceed the member |
| PbScalars.DecBlock | MasGas/Pods/nanopb/pb_decode.c:1548-1570 | exactly as many bytes as the member has, zeros for an empty string |
| PbDecode.DecodeItems | MasGas/Pods/nanopb/pb_decode.c:437-447 | the items that were packed follow those that were there, never more than the array holds |
| PbDecode.DecodePacked | MasGas/Pods/nanopb/pb_decode.c:425-456 | a packed array is added to the items there are; one too long for the room left is refused |
| PbDecode.DecodeValue | MasGas/Pods/nanopb/pb_decode.c:1334-1570 | a value is read over the one that is there: a submessage is merged into it, anything else replaces it; whatever is accepted fits its member |
| PbDecode.DecodeField | MasGas/Pods/nanopb/pb_decode.c:406-483 | a record takes its field from what it held to what it holds after: the value, one item more, or any number of packed items more; capacities are never exceeded |
| PbRequired.CheckRequired | MasGas/Pods/nanopb/pb_decode.c:1042-1080 | true exactly when each of the first 64 required fields has its bit set |
| PbRequired.SeenMeansRead | MasGas/Pods/nanopb/pb_decode.c:1018-1026 | the bits are all set exactly when every tracked required field has been read |
| PbDecode.DecodeRecord | MasGas/Pods/nanopb/pb_decode.c:951-1030 | a record of the message changes its field, and only that, as reading it does; an unknown field leaves the message and the required bits as they were; reading goes on right after either |
| PbDecode.DecodeMessage | MasGas/Pods/nanopb/pb_decode.c:934-1082 | bytes that read from one message to another are decoded from the one to the other, at any depth: fields in any order, more than once and in parts, over memory that may hold something; any success means every one of the first 64 required fields was read from a tag in the input, in the message and in every message inside it, and the result fits its memory |
| PbDecode.Decode | MasGas/Pods/nanopb/pb_decode.c:1084-1096 | the same, from defaults |
| PbReading.WholeIsRead | MasGas/Pods/nanopb/pb_decode.c:934-1082 | any encoding of a message reads from defaults to that message |
| PbReading.PartsJoin | MasGas/Pods/nanopb/pb_decode.c:1525-1551 | reading two parts into the same memory, one after the other, is reading them joined |
| PbReading.SubmessageParts | MasGas/Pods/nanopb/pb_decode.c:1525-1551 | a submessage given in two records is what one record with both parts makes |
| PbReading.BroughtOrKept | MasGas/Pods/nanopb/pb_decode.c:951-1030 | reading brings a record of a field or leaves the field as it was |
| PbReading.LastCounts | MasGas/Pods/nanopb/pb_decode.c:406-423 | what a single field held before bytes that bring it does not matter |
| PbReading.EarlierIsForgotten | MasGas/Pods/nanopb/pb_decode.c:406-423 | of a single field given more than once the last one counts |
| PbReading.EncodingForgets | MasGas/Pods/nanopb/pb_decode.c:934-1030 | an earlier record of a single field in front of an encoding that has the field leaves the message it encodes |
| PbForeign.PlainEncodes | MasGas/Pods/nanopb/pb_encode.c:341-427 | what the encoder writes is among these encodings |
| PbForeign.RecordsSwap | MasGas/Pods/nanopb/pb_decode.c:951-1030 | records of different fields that follow each other may change places |
| PbForeign.ArraysSplit | MasGas/Pods/nanopb/pb_decode.c:425-456 | a packed array may be split into two records anywhere |
| PbForeign.UnknownInFront | MasGas/Pods/nanopb/pb_decode.c:965-1016 | an unknown field may stand in front of any record |
| PbRequired.SlotsOfDest | MasGas/Pods/nanopb/pb_decode.c:1525-1551 | a message may be read into memory that already holds one: what was read before still had its required fields |
| PbRecords.SlotIsRecords | MasGas/Pods/nanopb/pb_encode.c:341-427 | the encoding of a field is the sequence of its records |
| PbRecords.FilledComplete | MasGas/Pods/nanopb/pb_decode.c:406-483 | a field all of whose items have been read has its value again |
| PbRecords.ZeroIsDefault | MasGas/Pods/nanopb/pb_encode.c:240-337 | a singular field that is not written has its default value |
| PbRecords.StoredFits | MasGas/Pods/nanopb/pb_decode.c:406-483 | whatever memory holds within its capacities can be encoded |
| PbRoundTrip.EncodeDecode | MasGas/Pods/nanopb/pb_encode.c:528-549 | a message of any nesting depth can be encoded exactly when it is within its capacities and there is room, and decodes to itself, but for the contents of absent fields |
| PbRoundTrip.DecodeEncoding | MasGas/Pods/nanopb/pb_decode.c:1084-1096 | any encoding of a message decodes to it: fields in any order, arrays packed, split or one item a record, unknown fields in between |
| PbRoundTrip.DecodeEncode | MasGas/Pods/nanopb/pb_decode.c:1084-1096 | whatever decodes can be encoded again |

## Left out

- All Swift code of the application, and the other pods: interface and network glue whose few loops have only easy properties.
- Env, POSIX files, mmap, mutexes, condition variables, loggers, statistics, histograms, C bindings, dumping: a file is a byte sequence or a list of records, and a section under the mutex is one step.
- I/O errors, corruption, checksum mismatches, `paranoid_checks`, loss of unsynced bytes: appends succeed and survive; only the clean prefix of a log after a crash is modelled.
- `reuse_logs`, log reading with an initial offset above 0, and a log writer that continues an existing file.
- The steps inside recovery: recovery is one step, and of one that did not come to its end, which installs nothing, only the empty logs it made are there at the next (`DiskRecovery.LogsOnDisk`); its orphaned tables are removed or written over.
- DiskRecovery.RecoverFromDisk: the entries of a table are given by its number; its bytes are read in `Tables`. The `CURRENT` file, the check for missing files, and `PrevLogNumber`, which is always zero, are not modelled.
- `repair.cc`, which does not promise newest-first order in level 0.
- Manual `CompactRange`, whose inputs need not be connected; seek sampling, compaction scores and write throttling, which only choose which compaction starts.
- GroupCommit.WriteQueue.Finish: I/O succeeds, so the status that followers receive is always success; MakeRoomForWrite's delays are left out, and the switch it makes is a step of its own.
- The user keys of the state machine, the merging iterator and the database iterator are integers, because that code only compares them; tables, blocks and filters work on bytes with the bytewise comparator. Custom comparators are not modelled.
- Sequence numbers stay below 2^56 - 1, file sizes below 2^63, blocks and filters below 4 GiB, as their offsets require.
- `hist` in the recovery step names what is found; everything else the step uses is read from the manifest and the logs.
- The snapshot record of a manifest carries the counters that the edit logged after it carries in the code.
- Snappy compression, the body of the hash function and of CRC32C: the hash and the checksum are arbitrary functions, and blocks are stored uncompressed.
- Cached blocks in `Table::BlockReader`; `Abandon` and error statuses of the table builder.
- Pick.PickCompaction: the level and the file come from `Pick.PickStart`, which takes compaction scores and seek counts as given.
- The memtable's own key encoding, its arena, and LookupKey: the memtable is a sorted sequence of entries, and the skip list is proved on its own.
- SnapshotList's linked list: the live snapshots are a sorted sequence.
- Memory orders of C++: steps of the skip list are sequentially consistent.
- LruCache: the two intrusive lists are sequences of handles, and the table's masking of the hash is a remainder by a power of two; sharding of the cache over 16 shards is left out.
- Blocks.DecodeEntry: sums of lengths do not wrap around at 32 bits, which matters only in corrupt blocks.
- WriteBatches.WriteBatch.Append: a batch is not appended to itself.
- ManifestFiles.RecoverManifest: a key in the manifest that is no internal key fails the recovery, where the code asserts at the first comparison.
- LiveScan.Walk: the iterator's children stay as they were when it was opened; that a skip list may be searched while it grows is `SkipLists`, and that growth changes no row is `LiveScan.RunIteratorsSeeHistory`.
- LostDeletion.DeletionIsLost: how far the file of an output has grown after some entries is a parameter (`Case.grown`), as is the size of the finished table.
- PbDecode.DecodeMessage: messages of 4 GiB and more, unknown fields with tags of 2^29 and more, and what a failed decode leaves behind. No claim is made about overlong varints given to the 32-bit decoder.
- PbScalars.DecLimited: a decoded string is taken up to its first zero byte, as C reads it.
- nanopb callbacks, extensions, pointer fields, oneof, fixed-count arrays, explicit default values, delimited and null-terminated variants, and raw struct offsets.
