# Flume, verified

Flume is an LSM-tree key-value store. Writes go to a log and a memtable, full
memtables are flushed to sorted table files, and leveled compaction merges
those files while readers, snapshots and writers keep going. This project
models that machinery in Dafny and proves that it always answers as the plain
history of writes would: the value of the last write to each key.

The model has three layers, tied together at the end.

1. **The store as a state machine** (`Store` and the `Store*` modules,
   `Snapshots`, `Overlaps`, `Levels`, `TableOrder`, `OrderRuns`, `Signals`,
   `Lifetimes`, `Losses`, `Sessions`, `RunReads`). Every critical section of the engine is
   one step. A compaction is two steps, `Begin` and `Commit`, and a flush is two
   steps, `Register` and `RemoveLog`; every other step may come between, a crash
   included, also in the window in which a finished compaction output lies on
   disk beside its inputs. The ghost history `hist` records every accepted write
   and is read by no step. One invariant, kept by every step, carries the main
   results: live reads follow the history, Seqs are stratified, a crash loses
   nothing, compactions are never rejected.
2. **The algorithms** (`Streams`, `Retention`, `Merge`, `CompactionOutput`,
   `Scan`, `SortedMaps`, `SkipLists`, `MemTables`, `TableLists`, `Picking`):
   the loops as the source has them, each against a specification that does
   not mention the loop.
3. **The byte formats** (`Bytes`, `FileNames`, `TableNames`, `Bloom`, `Wal`,
   `SSTables`, `TableFiles`, `TableReads`, `TableStore`): layouts, round trips, torn and
   truncated files.

`Engines.Engine` puts the layers together. Its memtables are linked skip
lists, its tables are opened file bytes with index and Bloom filter, its logs
are bytes. Each method is proved to take exactly the corresponding step of the
state machine, `Get` to return the last write of the history, `ScanAt` to agree
with `GetAt` at every bound, and `Reopen` to rebuild, from the table files and
from log files that may end in a torn record or, after a clean close, are not
there at all, an engine that answers as before.
`Engines.WriteFlushRead`, `Engines.WriteCrashReopenRead` and
`Engines.WriteCloseReopenRead` call the methods in a row, so their
preconditions are met along the way.

## Hypotheses

The properties rest on these. Each is a guard of a step or a `requires`, not a
hidden assumption.

- A write is one atomic step: Seq, log append and memtable update together.
- The flush worker takes the oldest immutable memtable and succeeds; the flush
  threshold is at least 1, so a rotated memtable is never empty.
- Opening a snapshot reads and registers the Seq in one step.
- Log records. Results about recovery, and about runs that contain one, assume
  that no record in a log found on disk has a key or value over 512 MiB
  (`Store.LogsReadable`), where replay would stop; `Losses` says exactly what a
  recovery loses otherwise.
- Session. A recovery after which a run goes on finds the last Seq handed out
  in some log (or none was ever handed out): a guard of the `Crash` step. `Open`
  restores the counter from logs alone, so this can fail.
  `StoreRecovery.SessionHypothesisExact` says exactly when the restored counter
  covers every stored Seq (a store in which nothing is stored any more does so
  without any log; the machine does not continue from that case), and
  `Sessions` what a new session's writes look like otherwise. That a recovery
  changes no read (`StoreTheorems.CrashLosesNothing`,
  `Engines.Engine.Reopen`) does not need it.
- A compaction ends in success or in the empty merge;
  `Engines.Engine.CommitCompaction` proves that it does.
- `l0CompactionTrigger >= 1` and `maxLevels >= 2`. Keys are not empty, key and
  value lengths fit 32 bits, Seqs and generations do not reach 2^64, all writes
  of a store add up to less than 2^64 bytes (`EngineParts.FilesFit`, a sum a
  caller can compute; `EngineParts.TableFits` is what it is for), level sizes
  do not overflow 64 bits.
- Compression is any pair in which decompression undoes compression; checksum
  and hashes are arbitrary functions; Bloom parameters are any valid ones.

## Where the code falls short of what it says

- The caveat at engine/engine.go:877-886 says that a snapshot may see the newer
  value of a key overwritten inside one memtable until that memtable is
  flushed. The code does something else: the newer version is too new for the
  snapshot and the older one is gone, so the snapshot loses the key or sees a
  still older value, and a flush does not bring it back.
  `Snapshots.SnapshotStability` gives the exact condition,
  `Snapshots.OverwriteInMemtableMovesSnapshot` a run,
  `Snapshots.SettledRun` that the answer then stays as it is.
- After a clean close, or once everything is flushed, no log record is left, so
  the next session counts Seqs from 1 again and a new write can be hidden by an
  older one with a greater Seq. `Sessions.WriteAfterReopenVisibleExact` says of
  every reachable store and every key exactly when the new write is what a read
  returns; `Sessions.LostFirstWrite` is a run in which it is not.
- A log record over 512 MiB is accepted by the append and ends the replay, with
  every later record of its log: `Wal.ReplayOfLog`,
  `Wal.OversizedRecordHidesTheRest`. `Losses.RecoveredNewestExact` says of
  every key exactly when its last write is recovered,
  `Losses.OversizedWriteIsLost` is the store in which it is not.
- A filter whose bit count wraps to no bytes is accepted when a table is opened
  (`Bloom.WrappedCountIsAccepted`); no written table has one.
- A table holding the empty key finds nothing (`TableReads.Get`), and after a
  nil key the table writer skips its order check (`SSTables.AcceptedExact`,
  `SSTables.MisorderedIsAccepted`). The engine refuses empty keys.
- Seq order between tables. A recovery that replays the log of a memtable that
  was already a table can end the order across keys, and one that finds a
  compaction's output beside its inputs can end the order per key and the rule
  of one table per level. `TableOrder.OrderAfterStepExact` and
  `Levels.OneTableAfterStepExact` say exactly which recoveries do;
  `OrderRuns.ReplayedLogBreaksStrictness`, `OrderRuns.FoundOutputBreaksOrder`
  and `OrderRuns.FoundOutputCrowdsLevel` are runs. A commit over the broken
  place mends the order (`TableOrder.CommitOrder`). What always holds, and is
  enough for every read and every dropped tombstone, is the cover property of
  `StoreCover`.

## Model

| member | source | states |
|---|---|---|
| `StoreTheorems.LiveReadsFollowHistory` | engine/engine.go:369-507 | in every state of every run from an empty store, with writes, rotations, two-step flushes, two-step compactions, snapshots and crashes (under the two recovery hypotheses) interleaved at will, an unbounded read of any key is what the last write to it says |
| `RunReads.ReadsLastWriteOfRun` | engine/engine.go:369-507 | of the steps alone: in every run an unbounded read of a key returns the value of the last step that wrote it, and nothing if that step deleted it |
| `RunReads.ReadsNothingUnwritten` | engine/engine.go:500-502 | a key no step of the run wrote is not found |
| `RunReads.SeqCountsWrites` | engine/engine.go:385 | the Seq counter is the number of writes so far, across recoveries too |
| `RunReads.SnapshotsCounted` | engine/engine.go:905-941 | at every Seq, the snapshots open are those opened there and not closed since the last crash, counted |
| `RunReads.SnapshotReadsItsMoment` | engine/engine.go:895-919 | while a snapshot opened at some step is not closed, a key the active memtable did not hold then reads through it as an ordinary read did at that step |
| `StoreTheorems.StepKeepsInv` | engine/engine.go:369-944 | every step keeps the whole invariant: history, logs, tables, running pass, live reads |
| `StoreTheorems.RunKeepsInv` | engine/engine.go:369-944 | the invariant holds along every run |
| `StoreTheorems.SeqStratification` | engine/engine.go:565-568 | in every reachable state the active memtable's Seqs exceed the immutables', later immutables exceed earlier ones, all memtables exceed all tables; between tables the order per key and strict while the flags say no recovery could have broken it, and the cover property always |
| `StoreTheorems.CrashLosesNothing` | engine/engine.go:289-338 | from every reachable state, replaying the log files found, in file-name order, over the table files on disk gives the same unbounded read for every key, provided no log record is over 512 MiB; whether or not a flushed memtable's log was already removed, an empty log is missing, or a finished compaction output lies beside its inputs |
| `Losses.RecoveredNewestExact` | wal/wal.go:161-166 | whatever the logs hold, the newest recovered version of a key is its last write if and only if that write lies in a table or in a log before the first record over 512 MiB |
| `Losses.KeptKeyReadsAsBefore` | wal/wal.go:161-166 | a key whose last write is so kept, or is in no log at all, reads as before the crash |
| `Losses.OversizedWriteIsLost` | wal/wal.go:161-166 | a single accepted write of more than 512 MiB, recovered: the read finds nothing |
| `Overlaps.OverlappingReadIsAtomic` | engine/engine.go:443-507 | a read, at no bound or a snapshot's, that takes memtable, immutables and tables at one moment and looks into them at a later one answers all keys as the store stood at one moment in between |
| `Overlaps.BelowViewStep` | engine/engine.go:448-462 | below the active memtable no step but a rotation changes an open read |
| `StoreFacts.InputsAreOld` | engine/engine.go:784-818 | every record in a running pass's inputs has a Seq at most the current counter |
| `StoreWrites.WriteKeepsInv` | engine/engine.go:385-397 | a write keeps the invariant; in particular the new write is what its key then reads as |
| `StoreWrites.RotateKeepsInv` | engine/engine.go:545-588 | a rotation keeps the invariant and changes no stored record |
| `StoreWrites.RegisterKeepsInv` | engine/engine.go:644-668 | registering a flushed table keeps the invariant, also while a pass is running, and moves records without losing any |
| `StoreWrites.RemoveLogKeepsInv` | engine/engine.go:670-672 | deleting the flushed memtable's log keeps the invariant: what is left still covers everything not in tables |
| `StoreCompaction.PickTakesLevel` | engine/engine.go:706-728 | a plan takes a whole non-empty level and all of the next: level 0 if and only if it has at least its trigger of tables, otherwise the first level that is over its target |
| `StoreCompaction.BeginKeepsInv` | engine/engine.go:784-821 | starting a pass establishes what it relies on: nothing outside its inputs lies under them, and every open snapshot is served by its bound |
| `StoreCompaction.BeginSamples` | engine/engine.go:800-818 | the bound sampled is the least open snapshot, or none without one; the pass is bottommost if and only if no table lies deeper than its target |
| `StoreCompaction.CompactionReclaims` | sstable/merge.go:134-165 | with no snapshot open when it began, a pass leaves one version per key, and at the bottom no tombstone |
| `StoreCompaction.NothingOlderOutside` | engine/engine.go:793-806 | unless an output was ever found beside its inputs, no version outside a bottommost pass's inputs is older than one of the same key inside, however many flushes came since it began |
| `StoreCompaction.OutsideIsShielded` | engine/engine.go:793-806 | always: whoever sees a version of a key outside a bottommost pass's inputs sees one there as new as any inside, so a dropped tombstone uncovers nothing |
| `StoreCover.CappedNewest` | engine/engine.go:661 | a new newest table keeps the cover property |
| `StoreCover.CappedSwap` | engine/engine.go:830-849 | a commit keeps the cover property, for every bound at which somebody reads |
| `StoreCover.CappedLeftover` | engine/engine.go:253-259 | an output found on disk beside its inputs keeps the cover property |
| `StoreCover.StratifiedSwap` | engine/engine.go:830-849 | a commit keeps the order of tables, per key or strict |
| `StoreCompaction.CommitPreservesView` | engine/engine.go:825-850 | the swap changes no read at any bound an open snapshot, an unbounded read or any later read uses, nor (unless an output was ever found beside its inputs) at any bound from minKeepSeq on |
| `StoreCompaction.CommitKeepsInv` | engine/engine.go:825-850 | a commit keeps the invariant |
| `StoreRecovery.NameOrderReplaysHistoryTail` | engine/engine.go:1316 | the log files found, in name order, hold exactly the tail of the history, oldest first, also when empty ones are missing |
| `StoreRecovery.RecoveredIsLastWrite` | engine/engine.go:294-314 | the recovered memtable holds, for every key found in a log, the last write of the history, at least as new as any stored version |
| `StoreRecovery.SessionHypothesisExact` | engine/engine.go:315-317 | the restored counter is at or above every stored Seq if and only if some log record survives or nothing is stored |
| `StoreRecovery.CrashKeepsInv` | engine/engine.go:247-273 | the recovered store satisfies the invariant again |
| `StoreRecovery.RecoveryPreservesReads` | engine/engine.go:289-338 | recovery changes no unbounded read, provided no log record is over 512 MiB, whatever the logs still hold and whatever finished output lies on disk |
| `StoreRecovery.LeftoverOutputIsInvisible` | engine/engine.go:823 | a merge output on disk beside its inputs changes no read at any bound |
| `TableOrder.OrderAfterCrashExact` | engine/engine.go:253-330 | a recovery keeps the order of tables (per key, or strict) if and only if a finished output it finds is nowhere newer than the upper inputs it lies under and, for the strict order, no table still holds a write as late as one that replaying a log not yet removed brings back |
| `TableOrder.OrderAfterStepExact` | engine/engine.go:565-850 | every step keeps the order of tables, in either form, except exactly the recoveries that do not meet that condition |
| `TableOrder.OrderAlongRun` | engine/engine.go:565-850 | along every run whose recoveries meet it, later flushes lie over earlier ones and each level over every deeper one |
| `TableOrder.CommitOrder` | engine/engine.go:830-849 | a commit leaves the tables ordered whenever every broken place lies among its inputs |
| `OrderRuns.ReplayedLogBreaksStrictness` | engine/engine.go:660-672 | a run from an empty store in which a crash before the log is removed ends the strict order |
| `OrderRuns.FoundOutputBreaksOrder` | engine/engine.go:823-850 | a run from an empty store in which a crash between merge and commit ends the order per key |
| `OrderRuns.FoundOutputCrowdsLevel` | engine/engine.go:823-850 | a run from an empty store in which such a crash leaves two tables in level 1 |
| `FileNames.NamesSortAsGenerations` | engine/engine.go:1258-1260 | 20-digit zero-padded log names sort, as byte strings, exactly as their 64-bit generations |
| `FileNames.NameReadsBack` | engine/engine.go:1258-1260 | a log's name is the directory, a slash, twenty decimal digits that read back as its generation, and .wal |
| `TableNames.SstNameReadsBack` | engine/engine.go:1262-1338 | a table file's name gives back its level and its generation |
| `TableNames.SstNameLayout` | engine/engine.go:1265-1267 | the letter L, the level in two digits, a dash, the generation in twenty, and .sst |
| `History.ReplayIsLastWrite` | engine/engine.go:301-306 | replaying a list of writes into a memtable gives the last write per key |
| `Bytes.LessExact` | skiplist/skiplist.go:70 | the key order is the one by first difference, bytes compared as 0 to 255, a proper prefix first |
| `Bytes.InRangeExact` | skiplist/skiplist.go:149-168 | a range holds its start, not its end, and what lies between them in that order |
| `Bytes.PutUintByte` | wal/wal.go:78-80 | byte i of an encoded integer is its i-th digit to base 256, least first |
| `Snapshots.SnapshotStartsAtHistory` | engine/engine.go:895-919 | at the moment it is opened a snapshot answers every key from the history |
| `Snapshots.SettledRun` | engine/engine.go:871-886 | once the active memtable contributes nothing to a snapshot's answer for a key, that answer survives every later run that keeps the snapshot open |
| `Snapshots.SnapshotStability` | engine/engine.go:871-886 | and this condition is exact: otherwise one more write changes the answer |
| `Snapshots.SnapshotIsolation` | engine/engine.go:914-919 | a key absent from the active memtable when the snapshot was opened is answered from that moment's history until the snapshot closes |
| `Snapshots.CommitUnderSnapshot` | engine/engine.go:763-773 | a commit changes no open snapshot's answer, nor what lies below the active memtable for it |
| `Snapshots.LateSnapshotLosesNothing` | engine/engine.go:784-850 | a snapshot opened after a running pass sampled its bound loses nothing when that pass commits, and all input Seqs are at most its own |
| `Snapshots.OverwriteInMemtableMovesSnapshot` | engine/engine.go:877-886 | a concrete run in which an open snapshot's answer changes |
| `Sessions.WriteAfterReopenVisibleExact` | engine/engine.go:315-317 | from every reachable state, recovered at any moment, the n-th write after reopening is what a read of its key over the recovered tables returns if and only if no table holds a version of the key more than n above the restored counter; with readable logs, if and only if some log record survived or no stored version of that key has a Seq above n |
| `Sessions.AfterReopening` | engine/engine.go:315-330 | the recovered tables hold only written records, and none above the restored counter that was not in a table before |
| `Sessions.CounterAfterReopening` | engine/engine.go:315-317 | with readable logs the restored counter is the old one, or 0 with everything stored in tables |
| `Sessions.LostFirstWrite` | engine/engine.go:470-498 | a run from an empty store (two writes, rotate, flush, log removed), reopened without log files as after a clean close, and a first Put whose value a read does not return |
| `Levels.PickNoneExact` | engine/engine.go:706-728 | no pass is due if and only if level 0 is below its trigger and levels 1 to maxLevels-2 are within target |
| `Levels.TargetsAreGeometric` | engine/engine.go:730-741 | a level's target is the base size times the multiplier to the power of the levels beyond the first |
| `Levels.CommitLightens` | engine/engine.go:825-850 | every commit strictly lowers the sum over tables of maxLevels + 1 - level |
| `Levels.CompactionChainEnds` | engine/engine.go:864-868 | without new flushes a run commits at most as often as its first state weighs |
| `Levels.DeepLevelsHoldOneTable` | engine/engine.go:836-849 | from an empty start every level from 1 on holds at most one table unless an output was found beside its inputs, and none lies at maxLevels or deeper |
| `Levels.OneTableAfterCrashExact` | engine/engine.go:253-259 | a recovery keeps one table per level if and only if it finds no finished output, or the output's level held no table |
| `Levels.OneTableAfterStepExact` | engine/engine.go:830-849 | every step keeps one table per level, except exactly those recoveries |
| `Levels.OneTableAlongRun` | engine/engine.go:830-849 | along every run without such a recovery each level from 1 on holds at most one table |
| `Levels.OneTableAfterCommit` | engine/engine.go:830-849 | a commit leaves one table per level whenever the crowded levels lie among its inputs |
| `Signals.SignalStep` | engine/engine.go:680-692 | each move of flush worker, compaction worker and writers keeps: a due pass will be looked at |
| `Signals.NoLostSignal` | engine/engine.go:746-757 | started with nothing due, a due pass always has a token, a pass that will re-check, or a flush about to signal behind it |
| `Signals.ReceivedStartsDuePass` | engine/engine.go:783-789 | a worker that took a signal starts a pass if and only if one is due |
| `Signals.WorkerCanMove` | engine/engine.go:680-692 | the compaction worker is never stuck outside its merge: a signal can be taken, acted on and followed up |
| `Signals.FlusherCanMove` | engine/engine.go:670-674 | after the log is gone the flush worker checks, and a due check leaves a token |
| `Signals.QuietMeansNothingDue` | engine/engine.go:864-868 | when both workers rest and the channel is empty, no pass is due |
| `Lifetimes.StepKeepsInv` | sstable/table.go:181-229 | in every interleaving the count is outstanding holds plus the list's own reference |
| `Lifetimes.RunKeepsInv` | sstable/table.go:181-229 | the counting invariant holds along every run of readers, commits, retirements and close |
| `Lifetimes.LifetimesAreSafe` | engine/engine.go:459-463 | a listed table can be acquired, a held table is open, no file is closed twice, and a file is deleted exactly when its table is retired and unheld |
| `Lifetimes.ReadsHoldTheirTables` | engine/engine.go:459-463 | of the steps: from the step at which a read begins until it lets go of a table listed then, that table's file is open and not deleted, whatever commits and retirements come between, and letting go is possible |
| `Lifetimes.ListedExactly` | engine/engine.go:836-849 | a table is listed if and only if it was opened and neither committed away nor released at close |
| `Lifetimes.HeldExactly` | engine/engine.go:459-463 | a read holds a table if and only if it began while the table was listed and has not let go since |
| `Lifetimes.ClosedExactly` | sstable/table.go:194-215 | a file is closed, once, if and only if its owner and every read that began on it have let go |
| `Lifetimes.DeletedExactly` | sstable/table.go:205-229 | a file is deleted if and only if its table was retired and every read that began on it has let go |
| `Lifetimes.ReadOutlivesCompaction` | engine/engine.go:852-862 | a run in which a read holds its table across the commit and the retirement, and the file goes when it lets go |
| `Lifetimes.Table.Acquire` | sstable/table.go:181-189 | fails exactly on a released table; the protocol's acquire otherwise |
| `Lifetimes.Table.Release` | sstable/table.go:194-215 | the protocol's release |
| `Lifetimes.Table.Retire` | sstable/table.go:224-229 | the protocol's retire |
| `Versions.KeptNewest` | sstable/merge.go:134-165 | for every permitted bound the newest visible version of a key is the same among the kept records as among the inputs, except that a dropped tombstone leaves no version of its key |
| `Versions.CompactionPreservesView` | sstable/merge.go:134-165 | next to untouched records, replacing inputs by what is kept changes no permitted read, given nothing older outside |
| `Retention.RetainIsKept` | sstable/merge.go:157-165 | grouping and walking an ordered list keeps exactly the records that no reader can do without |
| `Retention.RetainStrictExact` | sstable/sstable.go:192-199 | the output passes the writer's order check if and only if no (key, Seq) pair above minKeepSeq occurs twice |
| `Streams.MinIndex` | sstable/merge.go:26-32 | no other front record of the heap comes before the one extracted |
| `Merge.NewestFirstSorts` | sstable/merge.go:132 | the group sort is a permutation in descending Seq |
| `Merge.WalkGroup` | sstable/merge.go:157-165 | the loop with its early exits computes the retention walk of a group |
| `Merge.PopGroup` | sstable/merge.go:106-126 | one round takes every version of the least key, each input record once, and leaves only greater keys |
| `Merge.Merge` | sstable/merge.go:68-172 | every input record enters exactly one group in key order; of the inputs, a version is written if and only if no newer one serves every reader and its key is not deleted for all at the bottom (its newest version a tombstone at or below minKeepSeq); a key is gone if and only if it is; the empty-merge error comes if and only if that holds of every key |
| `Merge.MergeRecords` | sstable/merge.go:92-166 | the heap loop: groups, sorts and walks give the retention rule over all input records in order |
| `Merge.RetainedExact` | sstable/merge.go:157-165 | the retention rule in terms of the inputs alone |
| `CompactionOutput.SharedStep` | engine/engine.go:319-330 | every step keeps: a record held by two tables is no newer than any open snapshot, nor than the bound of a running pass that takes both |
| `CompactionOutput.InputsHaveNoDuplicateAbove` | sstable/merge.go:92-102 | a running pass's inputs never hold a pair above its bound twice |
| `CompactionOutput.CompactionIsNeverRejected` | sstable/sstable.go:192-199 | in every reachable state the merge of a running pass is strictly ordered and is what the commit expects |
| `Scan.SourcesServe` | engine/engine.go:1119-1132 | the newest version of a key over all sources is its newest visible version in the whole store |
| `Scan.MemtableServes` | engine/engine.go:965-974 | a memtable's visible entries are its newest visible version per key in the range |
| `Scan.ScanIterator.PopBest` | engine/engine.go:1036-1055 | one round returns the top version of the least pending key and leaves exactly the greater keys |
| `Scan.ScanIterator.Next` | engine/engine.go:1034-1063 | the least live key with its value, skipping deleted keys; the end exactly when no live key is left |
| `Scan.Drain` | engine/engine.go:1034-1063 | the live keys, once each, strictly ascending |
| `Scan.ScanAt` | engine/engine.go:1085-1135 | over sources serving the parts of a store, ascending by first differing byte, exactly the keys from start up to but without end that a read at the same bound finds, with those values |
| `SortedMaps.PutUpdatesMap` | skiplist/skiplist.go:63-98 | inserting into or overwriting in the sorted entries updates the map they stand for |
| `SortedMaps.LookupIsMap` | skiplist/skiplist.go:102-117 | lookup in the sorted entries is map lookup |
| `SortedMaps.RangeMember` | skiplist/skiplist.go:149-168 | the entries in range are those of the whole list whose key is in [start, end) |
| `SkipLists.SkipList.Search` | skiplist/skiplist.go:67-74 | the level-by-level descent finds, at every level, the last node before the key |
| `SkipLists.SkipList.Insert` | skiplist/skiplist.go:81-98 | linking a node of any height 1..16 keeps every link at every level right and adds one entry |
| `SkipLists.SkipList.Put` | skiplist/skiplist.go:63-99 | the linked structure stays valid and its entries are the sorted-map update of the old ones |
| `SkipLists.SkipList.Get` | skiplist/skiplist.go:102-117 | equals lookup in the sorted entries |
| `SkipLists.SkipList.All` | skiplist/skiplist.go:134-143 | every entry in order, as many as `length` |
| `SkipLists.SkipList.Range` | skiplist/skiplist.go:149-168 | all entries filtered to [start, end) |
| `SkipLists.SkipList.LevelChainNodes` | skiplist/skiplist.go:25-31 | the chain of each level is a strictly sorted subsequence of the chain below it |
| `SkipLists.SkipList.LevelChainLinks` | skiplist/skiplist.go:25-31 | following the links of a level visits exactly its chain |
| `MemTables.MemTable.Write` | memtable/memtable.go:53-64 | the newest write replaces whatever the key held, whatever the Seqs; size grows by key, value and 48 bytes |
| `MemTables.MemTable.Get` | memtable/memtable.go:67-70 | the one version the key holds |
| `MemTables.MemTable.BuildRecords` | engine/engine.go:1244-1256 | a strictly ordered record list holding exactly the memtable |
| `MemTables.MemTable.RangeSource` | memtable/memtable.go:92-94 | a scan source that serves the read at any bound |
| `Picking.LevelTables` | engine/engine.go:529-537 | exactly the listed tables of the level, in list order |
| `Picking.TargetSizeForLevel` | engine/engine.go:735-741 | base size times the multiplier per level beyond the first |
| `Picking.PickCompaction` | engine/engine.go:706-728 | the listed tables of the due level and the next: level 0 if and only if it has at least its trigger of tables, otherwise the first level whose sizes add up to more than its target; no plan only if none is due |
| `Picking.IsBottommost` | engine/engine.go:800-806 | true exactly when every level deeper than the target is empty |
| `Picking.MinActive` | engine/engine.go:763-773 | the least key of the map, or 2^64-1 when it is empty |
| `TableLists.WithoutTables` | engine/engine.go:830-835 | dropping the inputs from the list drops exactly them from the tables |
| `TableLists.TotalSize` | engine/engine.go:718-721 | the total size of the level's tables |
| `Bloom.AddKeeps` | bloom/bloom.go:66-72 | adding a key makes it found and keeps every key found before |
| `Bloom.NoFalseNegatives` | bloom/bloom.go:66-86 | after any sequence of additions every added key is found, under wrapping 32-bit index arithmetic |
| `Bloom.MayHoldExact` | bloom/bloom.go:66-86 | of a filter filled from empty, a key may be held if and only if every bit it probes is probed by some added key |
| `Bloom.BitsOfRun` | bloom/bloom.go:66-72 | exactly the probed bits of the added keys are set |
| `Bloom.Filter.Add` | bloom/bloom.go:66-72 | sets exactly the key's bits |
| `Bloom.Filter.Encode` | bloom/bloom.go:89-95 | the encoded filter |
| `Bloom.MayContain` | bloom/bloom.go:77-86 | true exactly when all of the key's bits are set |
| `Bloom.ProbesAreDoubleHashing` | bloom/bloom.go:66-72 | the i-th bit probed is the i-th word of double hashing with 32-bit wrap, reduced to the number of bits |
| `Bloom.FilterLayout` | bloom/bloom.go:89-95 | bit count, hash count, then the bits, least first within each byte |
| `Bloom.DecodeEncoded` | bloom/bloom.go:89-110 | decoding an encoded filter gives it back |
| `Bloom.DecodedStands` | bloom/bloom.go:98-110 | a decoded filter is what stands in the bytes |
| `Bloom.DecodeExact` | bloom/bloom.go:98-110 | decoding accepts exactly the bytes whose bit array has the length the wrapped bit count asks for |
| `Bloom.WrappedCountIsAccepted` | bloom/bloom.go:104 | a bit count of 2^32-1 wraps to no bytes and is accepted |
| `Wal.Build` | wal/wal.go:74-85 | filling the buffer field by field gives the record layout |
| `Wal.Log.Append` | wal/wal.go:70-97 | the log grows by exactly the encoded record |
| `Wal.Replay` | wal/wal.go:143-199 | every record up to the first torn, oversized or corrupt one |
| `Wal.ReplayedStandsInLog` | wal/wal.go:143-199 | for arbitrary bytes, the encodings of the records delivered, checksums included, are a prefix of the log |
| `Wal.ReplayStopsExactly` | wal/wal.go:143-199 | and where replay stops, no record within the length bound stands encoded |
| `Wal.LengthBoundExact` | wal/wal.go:163-166 | a record alone in a log is delivered if and only if key and value are at most 536870912 bytes long |
| `Wal.RecordLayout` | wal/wal.go:74-85 | where each field of a record lies, byte for byte |
| `Wal.FrontOfEncoded` | wal/wal.go:143-199 | an encoded record is read back whatever follows it, unless it breaks the length bound |
| `Wal.TornAppendIsIgnored` | wal/wal.go:146-174 | a strict prefix of a record is no record |
| `Wal.ReplayOfLog` | wal/wal.go:133-199 | after any appends and a torn one, replay delivers exactly the complete records before the first oversized one |
| `Wal.OversizedRecordHidesTheRest` | wal/wal.go:163-166 | a record over the length bound hides itself and every later record |
| `Wal.TruncationReplaysPrefix` | wal/wal.go:133-199 | for arbitrary bytes, replaying a truncation delivers a prefix of replaying the whole |
| `SSTables.StrictAppend` | sstable/sstable.go:192-199 | comparing with the previous record alone decides the order of the whole list |
| `SSTables.AcceptedExact` | sstable/sstable.go:192-199 | the order check accepts a list if and only if it is strictly ordered from its first record whose key is not nil on, for empty keys that are nil and for empty keys that are not |
| `SSTables.MisorderedIsAccepted` | sstable/sstable.go:192-199 | two versions under a nil key, the older first, pass the check |
| `SSTables.WriteRecords` | sstable/sstable.go:190-230 | accepts exactly what the order check accepts; data block, index and filter are those of the records |
| `SSTables.WriteIndex` | sstable/sstable.go:232-242 | the index block of the entries |
| `SSTables.RecordLayout` | sstable/sstable.go:204-230 | where each field of a data record lies; a value is stored compressed, and flagged so, if and only if that makes it shorter |
| `SSTables.EntryLayout` | sstable/sstable.go:233-241 | where each field of an index entry lies |
| `SSTables.FileLayout` | sstable/sstable.go:244-256 | data, index, filter and the 44-byte footer, field by field, ending in the magic number |
| `SSTables.Write` | sstable/sstable.go:158-275 | rejects exactly the empty list and what the order check does not accept; otherwise the file layout with a filter of the given size made of exactly the keys |
| `TableFiles.ReadAtIndexedOffset` | sstable/table.go:268-301 | reading at entry i's offset returns record i, with or without compression |
| `TableFiles.ParseWrittenIndex` | sstable/table.go:98-116 | parsing a written index gives every entry back |
| `TableFiles.ParseIndexLoop` | sstable/table.go:98-116 | the parse loop, with its truncation errors, is the parse |
| `TableFiles.ParsedIndexStands` | sstable/table.go:98-116 | for arbitrary bytes, a parsed index encodes back to them |
| `TableFiles.ParseIndexExact` | sstable/table.go:98-116 | the parse succeeds if and only if the bytes are entries back to back |
| `TableFiles.Open` | sstable/table.go:51-149 | magic, bounds (with sums wrapping at 64 bits), index and filter errors in the source's order, or the opened table |
| `TableFiles.OpenExact` | sstable/table.go:51-149 | a file is accepted if and only if it ends in a footer with the magic number whose two blocks lie inside it and are an index and a filter |
| `TableFiles.OpenedStands` | sstable/table.go:79-149 | of an accepted file, index, filter, count and data end are what stands in its bytes |
| `TableFiles.ForeignFilesAreRejected` | sstable/table.go:51-77 | a file too short for a footer or without the magic number is rejected |
| `TableFiles.OpenWritten` | sstable/table.go:79-116 | opening a written file recovers one index entry per record with key and offset, the filter, and where the data ends |
| `TableFiles.Iterator.Next` | sstable/table.go:326-362 | the record at the position and the move past it; the end exactly at the data block's end |
| `TableFiles.ReadAll` | sstable/table.go:326-362 | iterating a written file returns the whole list and stops exactly at the data block's end |
| `TableReads.LowerBound` | sstable/table.go:249-251 | binary search splits the index at the key |
| `TableReads.Get` | sstable/table.go:241-262 | range check, Bloom filter, binary search and version walk together return the newest version with Seq at most the bound, or nothing exactly when there is none |
| `TableReads.RangeIterator.Next` | sstable/table.go:399-428 | yields the next element of the range listing and advances past its key |
| `TableReads.RangeListServes` | sstable/table.go:385-428 | that listing is, once per key in range and in key order, the newest visible version |
| `TableReads.DrainRange` | sstable/table.go:385-428 | the iterator drained serves the read |
| `TableReads.WrittenRepresents` | sstable/table.go:79-149 | a written file, opened, has all that lookups rely on |
| `TableStore.WriteAndOpen` | engine/engine.go:648-658 | writing and opening fails exactly on an empty or misordered list, otherwise gives a table of those records |
| `TableStore.ReadBack` | sstable/merge.go:73-83 | a merge's iterator over a written file returns the records written |
| `EngineParts.NewestOfBoth` | engine/engine.go:470-477 | comparing per-part winners finds the winner over all parts |
| `Engines.Engine.Create` | engine/engine.go:219-282 | opening an empty directory gives the initial state |
| `Engines.Engine.Write` | engine/engine.go:369-407 | rejects the empty key; otherwise takes the write step, and then the rotate step exactly when the write fills the memtable |
| `Engines.Engine.Put` | engine/engine.go:344-353 | after a Put the key reads as the value and every other key as before |
| `Engines.Engine.Delete` | engine/engine.go:358-367 | after a Delete the key is not found and every other key reads as before |
| `Engines.Engine.Append` | engine/engine.go:385-399 | takes the write step on log bytes and skip list, and says whether the memtable is full |
| `Engines.Engine.Rotate` | engine/engine.go:545-588 | takes the rotate step and leaves an empty memtable, or does nothing when the memtable is below the threshold |
| `Engines.Engine.Register` | engine/engine.go:633-668 | builds, writes and opens the table file, and takes the register step; it cannot fail |
| `Engines.Engine.RemoveLog` | engine/engine.go:670-672 | deletes the log file and takes the remove step |
| `Engines.Engine.BeginCompaction` | engine/engine.go:783-821 | starts a pass if and only if one is due, over the due level's listed tables and the next level's, with the least open snapshot as its bound or none; takes the begin step |
| `Engines.Engine.CommitCompaction` | engine/engine.go:823-850 | merges the input files, writes the output, swaps the list and takes the commit step; it cannot fail |
| `Engines.Engine.OpenSnapshot` | engine/engine.go:895-911 | pins the current Seq and takes the open step |
| `Engines.Engine.CloseSnapshot` | engine/engine.go:932-944 | unpins it and takes the close step |
| `Engines.Engine.GetAt` | engine/engine.go:438-507 | over skip lists and file bytes, the read of the state machine at any bound; the empty key is refused |
| `Engines.Engine.Get` | engine/engine.go:411-416 | the last write of the history |
| `Engines.Engine.ScanAt` | engine/engine.go:1085-1135 | ascending by first differing byte, exactly the keys from start up to but without end that GetAt finds at the same bound, with those values |
| `Engines.Engine.ScanLive` | engine/engine.go:1079-1082 | exactly the live keys of the history in the range |
| `Engines.Engine.Reopen` | engine/engine.go:219-282 | from the table files on disk, a finished compaction output among them or not, and log bytes with torn tails (or no log file, after a clean close): an engine whose newest version of each key is its last write exactly when that is in a table or in the readable part of a log; that answers every unbounded read as before if no log record is over 512 MiB; and that has taken the crash step and can go on if moreover the logs know the last Seq |
| `Engines.WriteFlushRead` | engine/engine.go:369-416 | a first write, rotated, flushed to a file, compacted if due, and read back from file bytes |
| `Engines.WriteCrashReopenRead` | engine/engine.go:219-338 | a first write, a crash that tears the next append, and the value read back after reopening |
| `Engines.WriteCloseReopenRead` | engine/engine.go:219-282 | a first write, flushed and its log removed, and the value read back after reopening without any log file |
| `EngineParts.TableFits` | sstable/sstable.go:176-185 | if all writes add up to less than 2^64 bytes, so does every table file made of them |
| `Engines.MergeIsCommit` | engine/engine.go:823-848 | in a reachable state the merge of a pass's files fits the format, passes the order check and enables the commit |
| `EngineRecovery.ReplayLogs` | engine/engine.go:294-317 | replaying crashed log files gives the memtable and greatest Seq of what replay can read of them: every record before the first over the length bound, ignoring torn tails |
| `StoreRecovery.AllReadable` | wal/wal.go:163-166 | replay reads every record of every log if and only if none is over the length bound |

## Left out

- HTTP server, REPL, benchmark, command line, logging and metrics.
- DEFLATE, CRC-32 and FNV themselves, and the Bloom sizing formulas (floating point).
- Operating-system file behaviour: fsync, rename, disk errors and short reads; a file is a byte sequence and a written table appears whole.
- Crashes partway through deleting a compaction's input files, or through recovery itself; both are one step with what precedes them.
- Runs that go on after a recovery in which no log knows the last Seq any more, or that lost records over 512 MiB; what such a recovery leaves is in `Sessions` and `Losses`.
- Interleavings finer than the steps: concurrent writers inside one write, the enqueue of a rotation after its unlock; of a read, the moment it takes its parts and the moment it looks into the memtable are two, the rest is one.
- Failure paths of flush and compaction, writes racing with `Close`, and the error on an unknown log record type, which no engine write produces.
- Closing a snapshot twice, which does nothing the second time.
- Random heights and expected cost of the skip list: any height from 1 to 16 is allowed.
- The internals of `container/heap` and `sort`: extract-min, insertion and binary search are small verified versions.
- 64-bit wrap-around of level target sizes and of Seq and generation counters, and the panic of an oversized allocation when a corrupt footer names one.
- Lifetimes.Table.Release: closing and deleting the file are counted, not performed, and their errors are not returned.
