# A verified model of Kasei's storage engine and wire codec

Kasei keeps its data through two vendored C and C++ libraries: the LevelDB storage engine, a
log-structured merge tree with write-ahead logging, and the nanopb Protocol Buffers codec. This
project models the logic of both in Dafny and proves what they are for. `dafny verify dfyconfig.toml`
checks everything.

## What is modelled

| part | modules |
|---|---|
| order of keys, reads at a snapshot | `Keys`, `Reads` |
| what a compaction drops; lookup in a version; choice of inputs; the compaction loop; installing results, also after flushes in between | `Drops`, `Versions`, `Selection`, `Compaction`, `Installs`, `MidFlush` |
| the engine as a state machine, what its writes mean, and two runs that go wrong | `Database`, `Histories`, `Resurrection`, `GapFlush` |
| iterators, alone and on top of one another | `DBIterator`, `Merger`, `TwoLevel`, `SkipList`, `Iteration`, `Listings` |
| bytes: integers, keys, the log and what a reader makes of damage, blocks, filters, whole table files | `Coding`, `InternalKeys`, `Log`, `LogDamage`, `LogLoss`, `Block`, `Bloom`, `FilterBlock`, `Table`, `TableFormat`, `TableFiles` |
| versions over time: edits, the manifest, file numbers, recovery and what it refuses | `VersionEdits`, `Manifest`, `ReplayExact`, `FileNumbers`, `VersionSets`, `Refusals` |
| writes: batches, group commit, durability across crashes, and the engine together with its files | `WriteBatches`, `WriteQueue`, `Durability`, `DiskSteps`, `CrashReads` |
| the cache | `HandleTable`, `CircularLists`, `LRUCache` |
| the Protocol Buffers codec and what it refuses | `PbVarint`, `Nanopb`, `PbEncode`, `PbRefusals` |

User keys are byte strings in bytewise order. That order is embedded in the reals (`Keys.Ord`) and
proved to be the comparator's. An entry is an internal key (user key, sequence number, value or
deletion) with a value, and a table file is an ascending sequence of entries with its recorded
bounds. Objects that the source updates in place are classes; sequences of bytes that it appends to
are fields of type `seq`. Checksums and hash functions are parameters, so every result holds for any
of them.

## The main results

- **Reads.** The store is a map from keys to values, and each operation of a batch sets or removes one
  key. Over every run whose compactions meet the two conditions below, snapshot n reads the map after
  the first n operations, whatever memtable switches, flushes and compactions lie in between
  (`Histories.RunReadsOperations`), and after any number of crashes (`CrashReads.ReadsOperations`); so
  do iterators (`Iteration.ShowsHistory`).
- **Compaction.** The engine picks a compaction in one step and installs its results in a later one;
  writes, memtable switches, flushes and snapshots happen in between. Whatever is dropped, levels
  stay sorted and disjoint and every shallower entry of a user key is newer than every deeper one, if
  and only if no file flushed meanwhile lies inside an output (`Database.NextKeepsStructure`); a
  level-by-level lookup therefore finds the newest visible entry (`Versions.Get`). A compaction
  preserves all reads at live snapshots if and only if it drops no deletion that leaves an older
  visible entry behind (`Installs.MergeReadsExactly`), which holds whenever the inputs at the next
  level contain every older entry of their user keys there (`Installs.ClosedMergeIsSafe`); over every
  run of such compactions every snapshot reads its history (`Database.RunReadsHistory`).
- **Two properties that the code does not have.** Each is shown by a run from an empty database that
  follows the source's choices step by step, and each comes with the exact condition under which it
  does hold.
  - `SetupOtherInputs` adds boundary files on the upper level only (db/version_set.cc:1407 and 1422),
    although the comment above `AddBoundaryInputs` (db/version_set.cc:1364-1374) says why a file left
    behind makes reads wrong. In `Resurrection` a snapshot makes a merge keep two versions of a key,
    its outputs are cut between them, and a later merge drops the deletion in one file and leaves the
    value in the next. The condition is that of `Installs.MergeReadsExactly`.
  - A flush in the middle of a compaction asks the current version for a level
    (db/db_impl.cc:906-918, 521-523), not the compaction. In `GapFlush` a manual compaction of a range
    takes two files with a gap between them, a memtable is flushed into the gap at the output level,
    and the output spans it: two files of a level overlap and lookups miss the flushed key. A build
    with assertions stops there (db/version_set.cc:723-737 and 746-750). Compactions triggered by size
    or seeks leave no gap (`Selection.PickCompaction`), so runs of these are safe
    (`Database.UnsplitRun`); in general the condition is that of `MidFlush.InstallKeepsVersionExactly`.
- **Durability and reads after crashes.** The engine and its files run together, one disk step at a
  time, with the steps of writers and of the background thread in any order that the code allows
  (`DiskSteps.StepAgrees`). The process may stop between any two steps, and again during recovery;
  the engine that is opened then reads all that was written before, and the batch in flight if its
  record had reached the log (`CrashReads.CrashKeeps`, `CrashReads.ReadsAfterCrashes`); and such a
  recovery always exists (`CrashReads.CanRecover`). Below that: an acknowledged entry is found by the
  next recovery unless a compaction left it out (`Durability.DurableRun`), which it does only by the
  rules of `Drops`; a log cut at any byte yields exactly the records wholly in it (`Log.CrashPrefix`),
  and a manifest cut at any byte after its first edit yields exactly the version of the last edit in
  it (`VersionSets.CrashRecovery`).
- **Damage.** Of any bytes a log reader delivers only records whose fragments lie in the file as they
  are written, checksums included (`LogDamage.DeliveredIsWritten`). A damaged fragment costs exactly
  its record and those that begin behind it in its block, and the reports can be counted
  (`LogLoss.DamageCosts`). A manifest is accepted if and only if it reads without a report and
  its records say what recovery needs, under the right comparator (`Refusals.RecoversExactly`). With
  checksums verified, a block is read if and only if it lies in the file as it was written
  (`TableFormat.VerifiedExactly`), and a lookup over damaged blocks is right or says so
  (`TableFiles.InternalGet`). The Protocol Buffers decoder lets only sound messages through
  (`PbRefusals.DecodedIsSound`).
- **Table files.** From the bytes that the builder has written a lookup finds, through footer, index,
  filter and block, exactly the newest visible entry among those added (`TableFiles.TableBuilder.Finish`,
  `TableFiles.Open`, `TableFiles.InternalGet`), although index keys are shortened (`Table.LookupInBlock`)
  and the filter answers for 2 KB of the file at a time (`FilterBlock.FilterBlockBuilder.Finish`).
- **Iterators.** An iterator over the merged memtables, files and levels shows exactly the keys for
  which the history has a value (`Iteration.ShowsHistory`); each layer moves as the one above it
  assumes (`Iteration.StepsAgree`, `Iteration.LevelSeparated`, `Iteration.TableSeparated`).
- **Group commit** (`WriteQueue.GroupCommit`), **concurrent skip-list search**
  (`SkipList.SearchDuringInserts`), **block search** (`Block.Iter.Seek`, `Block.Iter.Prev`),
  **cursors** (`DBIterator`, `Merger`, `TwoLevel`), **the cache** (`LRUCache.LRUCache.Insert`,
  `LRUCache.AllDeleted`) and **the codec** (`Nanopb.MsgBack`, `PbEncode.EncodeMsg`).

Two smaller disagreements are stated as they are in the code. `VersionEdit::Clear` does not clear the
compaction pointers, so decoding into a used object is not the identity (`VersionEdits.EditRoundTrip`
says exactly what it is). nanopb's 32-bit varint reader counts bit positions in eight bits, so that
bytes from the 38th on may come in again from below (`PbVarint.LongVarintWraps` gives an input). It
reads an accepted varint right if and only if no such byte brings in a bit that the number lacks
(`PbVarint.Reads32Exactly`), and so every accepted varint of at most 37 bytes
(`PbVarint.ShortIsRight`).

Recovery puts all edits of a manifest through one builder, while the running engine applies each to
the version before it. Both give the same lists when no file number is given twice on a level
(`Manifest.ReplayIsHistory`), and the counter that hands out the numbers sees to that over any number
of sessions (`VersionSets.VersionSet.LogAndApply`, `VersionSets.CrashStarts`). No number that a file
was given is handed out again; `Manifest.ReusedNumberDiffers` only shows that the hypothesis is
needed, and `ReplayExact.ReplayIsHistoryExactly` says exactly when it is.

## Model

| member | source | states |
|---|---|---|
| `Keys.CompareIsOrd` | Kasei/Pods/leveldb-library/util/comparator.cc:25-27 | Bytewise comparison is a total order: it decides equality, and it is the order of the reals under one embedding of byte strings. |
| `Reads.ReadIs` | Kasei/Pods/leveldb-library/db/dbformat.h:52-65 | A read at a snapshot is decided by the newest entry of the user key at or below it: its value, or nothing if it is a deletion. |
| `Reads.ReadLayers` | Kasei/Pods/leveldb-library/db/db_impl.cc:1120-1131 | When one set of entries is newer than another, looking in it first and in the other only on a miss reads their union. |
| `Reads.ReadAgrees` | Kasei/Pods/leveldb-library/db/db_impl.cc:1120-1131 | Reads of a key at a snapshot depend only on the entries visible there. |
| `Drops.KeptMembers` | Kasei/Pods/leveldb-library/db/db_impl.cc:929-963 | The entries a compaction keeps are exactly those that are neither hidden by a newer entry at or below the smallest snapshot nor obsolete deletions. |
| `Drops.KeptMerged` | Kasei/Pods/leveldb-library/db/db_impl.cc:929-963 | Dropping entries leaves the stream ascending with versions of a key newest first. |
| `Drops.ReadPreserved` | Kasei/Pods/leveldb-library/db/db_impl.cc:929-963 | For every user key without a deletion that is dropped while older entries stay behind, every snapshot at or above the smallest one reads the same before and after. |
| `Drops.ReadChanged` | Kasei/Pods/leveldb-library/db/db_impl.cc:947-957 | For every user key with such a deletion, a deleted value becomes readable at the smallest snapshot. |
| `Drops.DropsPreserveReadsExactly` | Kasei/Pods/leveldb-library/db/db_impl.cc:929-963 | All reads at live snapshots are preserved if and only if no dropped deletion leaves an older visible entry behind. |
| `Versions.FindFile` | Kasei/Pods/leveldb-library/db/version_set.cc:88-106 | Binary search ends where one function of the list and the key says, whatever the order; over an ascending level that is the first file whose largest key is at or after the key. |
| `Versions.TableGetIsNewest` | Kasei/Pods/leveldb-library/table/table.cc:216-244 | The first entry at or after the lookup key, if it is of the user key, is the newest visible one in the table; otherwise there is none. |
| `Versions.GetLevelZero` | Kasei/Pods/leveldb-library/db/version_set.cc:349-365 | Searching the overlapping level-0 files newest first: a hit decides the read of the whole version, a miss means level 0 has nothing visible. |
| `Versions.GetDeepLevel` | Kasei/Pods/leveldb-library/db/version_set.cc:366-383 | Searching the one file that binary search selects: a hit decides the read of the whole version, a miss means the level has nothing visible. |
| `Versions.Get` | Kasei/Pods/leveldb-library/db/version_set.cc:326-421 | A lookup level by level, stopping at the first hit or deletion, returns the newest entry visible at the snapshot among all entries of the version. |
| `Versions.VersionUnique` | Kasei/Pods/leveldb-library/db/version_set.cc:326-421 | In a well-formed version no two entries share user key and sequence number. |
| `Selection.GetOverlappingInputs` | Kasei/Pods/leveldb-library/db/version_set.cc:518-559 | Returns exactly the files meeting a range; on level 0 the range is the least one that includes the request and contains every file it meets. The restarts terminate. |
| `Selection.LeastUnsplit` | Kasei/Pods/leveldb-library/db/version_set.cc:541-556 | Around files without a gap the least closed range takes in no file across a gap. |
| `Selection.ClosedRangeIsolates` | Kasei/Pods/leveldb-library/db/version_set.cc:541-556 | No file left out of a closed range overlaps a file in it. |
| `Selection.FindLargestKey` | Kasei/Pods/leveldb-library/db/version_set.cc:1326-1340 | Finds the largest key of a set of files, and none exactly for the empty set. |
| `Selection.GetRange` | Kasei/Pods/leveldb-library/db/version_set.cc:1205-1224 | Finds the smallest and the largest key of a set of files. |
| `Selection.FindSmallestBoundaryFile` | Kasei/Pods/leveldb-library/db/version_set.cc:1344-1362 | Finds the first file that begins after a key with the same user key, or none if there is none. |
| `Selection.AddBoundaryInputs` | Kasei/Pods/leveldb-library/db/version_set.cc:1378-1401 | Adds, one after another, the smallest file that begins after the largest picked key with its user key, until there is none; a contiguous run stays contiguous. The loop terminates. |
| `Selection.RunIsClosed` | Kasei/Pods/leveldb-library/db/version_set.cc:1364-1377 | A contiguous run without boundary file leaves behind no file with an older version of one of its user keys. |
| `Selection.PickIsClosed` | Kasei/Pods/leveldb-library/db/version_set.cc:1403-1422 | The same for every pick a compaction starts from, on level 0 and below. |
| `Selection.NextFile` | Kasei/Pods/leveldb-library/db/version_set.cc:1284-1296 | The first file after the compaction pointer, wrapping to the first file when all are done. |
| `Selection.PickCompaction` | Kasei/Pods/leveldb-library/db/version_set.cc:1270-1322 | The starting file is the first behind the compaction pointer, or the one that ran out of seeks; the inputs are that file, on level 0 with all it meets, completed and perhaps grown as `Selection.SetupOtherInputs` states; they hold every older entry of their user keys at their level, on the next level they are exactly the files overlapping them, and no user-key range fits between two of them without meeting one. |
| `Selection.SetupOtherInputs` | Kasei/Pods/leveldb-library/db/version_set.cc:1403-1462 | The pick is completed by its boundary files; before growth the next level's inputs are exactly the files that meet its range. It grows to the files in the range of both sides if and only if that adds a file, keeps all bytes of both sides below 25 times the file size and brings no further file of the next level in; otherwise nothing is added. The inputs are closed under older versions, and no gap opens in a pick that has none. |
| `Selection.LimitRun` | Kasei/Pods/leveldb-library/db/version_set.cc:1472-1487 | The shortest prefix of a run that reaches the byte limit. |
| `Selection.CompactRange` | Kasei/Pods/leveldb-library/db/version_set.cc:1464-1495 | A manual compaction finds nothing only if no file overlaps the range. It starts from the overlapping files, on a deeper level from the shortest prefix of these that reaches the byte limit, and is completed and grown as `Selection.SetupOtherInputs` states. |
| `Compaction.CompactionJob.LevelCovers` | Kasei/Pods/leveldb-library/db/version_set.cc:1536-1549 | Advancing a level's pointer over ascending keys decides whether a file of that level covers the key. |
| `Compaction.CompactionJob.IsBaseLevelForKey` | Kasei/Pods/leveldb-library/db/version_set.cc:1533-1552 | Queried with ascending keys, the stateful test answers exactly whether no deeper file's user-key range contains the key. |
| `Compaction.CompactionJob.ShouldDrop` | Kasei/Pods/leveldb-library/db/db_impl.cc:929-963 | The decision made from the running key and sequence number is the one stated over the whole input. |
| `Compaction.CompactionJob.DoCompactionWork` | Kasei/Pods/leveldb-library/db/db_impl.cc:899-999 | The output files, cut wherever size or overlap ask, hold together exactly the kept entries of the input in order, record their ranges, do not overlap and bear the numbers that were handed out for them. |
| `Compaction.CutsFormChain` | Kasei/Pods/leveldb-library/db/db_impl.cc:964-993 | However an ascending stream is cut, the files ascend and are disjoint in the internal order. |
| `Installs.SomeFileOverlapsRange` | Kasei/Pods/leveldb-library/db/version_set.cc:122-157 | On a disjoint level one binary search, on level 0 a scan, answers whether any file meets a user-key range. |
| `Installs.OverlapInLevel` | Kasei/Pods/leveldb-library/db/version_set.cc:485-489 | The same for each level of a version. |
| `Installs.PickLevelForMemTableOutput` | Kasei/Pods/leveldb-library/db/version_set.cc:491-516 | A flushed memtable goes as deep as it may, at most to level 2: no file there or above overlaps it and the next level does not overlap it too much. |
| `MidFlush.MergeKeepsVersion` | Kasei/Pods/leveldb-library/db/db_impl.cc:860-876 | Replacing selected inputs by their outputs keeps every level sorted and disjoint and every shallower entry of a user key newer than every deeper one. |
| `Installs.MergeReadsExactly` | Kasei/Pods/leveldb-library/db/db_impl.cc:860-963 | Installing a compaction leaves every read at a live snapshot unchanged if and only if it drops no deletion that leaves an older visible entry behind. |
| `Installs.ClosedMergeIsSafe` | Kasei/Pods/leveldb-library/db/version_set.cc:1403-1423 | It drops no such deletion when the inputs at the next level hold every older entry of their user keys there. |
| `Installs.FlushKeepsVersion` | Kasei/Pods/leveldb-library/db/db_impl.cc:535-566 | Installing a flushed memtable at a free level keeps the version invariant. |
| `Installs.FlushEntries` | Kasei/Pods/leveldb-library/db/db_impl.cc:535-566 | It adds exactly the memtable's entries to the version. |
| `MidFlush.MoveKeepsVersion` | Kasei/Pods/leveldb-library/db/db_impl.cc:718-728 | A trivial move keeps the version invariant and the entries of the version. |
| `MidFlush.InstallKeepsVersionExactly` | Kasei/Pods/leveldb-library/db/db_impl.cc:906-918 | The results of a compaction, installed into a version to which memtables were flushed meanwhile, keep the version invariant if and only if no file flushed to the output level lies inside the range of an output. |
| `MidFlush.UnsplitFits` | Kasei/Pods/leveldb-library/db/version_set.cc:1270-1322 | If the inputs leave no gap, no flushed file can lie inside an output. |
| `MidFlush.FlushGrows` | Kasei/Pods/leveldb-library/db/db_impl.cc:906-918 | A file flushed meanwhile is newer than everything the compaction reads, and below level 0 clear of its files down to its own level. |
| `MidFlush.InstallReads` | Kasei/Pods/leveldb-library/db/db_impl.cc:860-963 | Installed into the grown version, a compaction that resurrects no user key leaves its reads at or above the compaction's snapshot as they were, under any newer entries. |
| `Database.NextKeepsStructure` | Kasei/Pods/leveldb-library/db/db_impl.cc:688-918 | A step, whatever a compaction drops, keeps levels sorted and disjoint, layers newest first, file and sequence numbers bounded by their counters and the running compaction's place in the version, if and only if it does not install an output around a file flushed meanwhile. |
| `Database.NextKeepsReads` | Kasei/Pods/leveldb-library/db/db_impl.cc:688-918 | Every step keeps all readable snapshots reading the history of writes if it installs no compaction that resurrects a key; flushes in the middle of the compaction included. |
| `Database.RunKeepsStructure` | Kasei/Pods/leveldb-library/db/db_impl.cc:688-918 | The structural invariant over every run from an empty database in which flushed files fit the compactions they interrupt. |
| `Database.RunReadsHistory` | Kasei/Pods/leveldb-library/db/db_impl.cc:1100-1145 | Over every such run with safe compactions, every held or current snapshot reads exactly what was written at or below it. |
| `Database.UnsplitRun` | Kasei/Pods/leveldb-library/db/version_set.cc:1270-1322 | Over every run whose compactions are picked without gaps, as those triggered by size or seeks are, the structural invariant holds and every flushed file fits. |
| `Database.InstallVersion` | Kasei/Pods/leveldb-library/db/db_impl.cc:860-876 | Installing a running compaction keeps the version good exactly when the files flushed meanwhile fit, and adds no entry. |
| `Database.RunMerge` | Kasei/Pods/leveldb-library/db/db_impl.cc:878-1010 | What the compaction loop returns for a running compaction, whatever numbers its files were handed in between, is what may be installed for it. |
| `Database.LayeredRead` | Kasei/Pods/leveldb-library/db/db_impl.cc:1120-1131 | Reading everything stored is reading the memtable, then the immutable memtable, then the version. |
| `Database.GetValue` | Kasei/Pods/leveldb-library/db/db_impl.cc:1100-1145 | Get returns the value that everything stored holds at the snapshot. |
| `Histories.BatchReads` | Kasei/Pods/leveldb-library/db/write_batch.cc:116-137 | After a batch each key that it names reads as its last operation there says, a put its value and a deletion nothing; every other key reads as before. |
| `Histories.HistoryReads` | Kasei/Pods/leveldb-library/db/write_batch.cc:116-137 | Snapshot n of a history of operations reads the map after the first n of them. |
| `Histories.RunReadsOperations` | Kasei/Pods/leveldb-library/db/db_impl.cc:1100-1145 | Over every run as for `Database.RunReadsHistory`, a readable snapshot n reads from what the engine stores the map from keys to values after the first n operations written. |
| `Resurrection.DeletedValueReturns` | Kasei/Pods/leveldb-library/db/version_set.cc:1403-1423 | A run from an empty database, each step as the engine takes it, at whose end a key that was put and then deleted reads its old value: boundary files are added only on the upper level. |
| `Resurrection.LevelsArePicked` | Kasei/Pods/leveldb-library/db/version_set.cc:491-516 | The flushes of that run go to the levels that the source picks for them, for files of any size. |
| `GapFlush.FlushedKeyIsLost` | Kasei/Pods/leveldb-library/db/db_impl.cc:906-918 | A run from an empty database, each step as the engine takes it, at whose end two files of level 2 overlap; the store holds a key's value, but binary search selects the file without the key. |
| `GapFlush.LevelsArePicked` | Kasei/Pods/leveldb-library/db/version_set.cc:491-516 | The flushes of that run, the one in the middle of the compaction included, go to the levels that the source picks for them. |
| `GapFlush.MergeSelected` | Kasei/Pods/leveldb-library/db/version_set.cc:1464-1495 | The inputs in that run are the files that a manual compaction of a range takes. |
| `DBIterator.YieldsAreReads` | Kasei/Pods/leveldb-library/db/db_iter.cc:141-299 | The entries a database iterator stops at are exactly the user keys with a value at the snapshot, with that value. |
| `DBIterator.DBIter.FindNextUserEntry` | Kasei/Pods/leveldb-library/db/db_iter.cc:168-198 | Scanning forward stops at the first entry to show, or at the end. |
| `DBIterator.DBIter.FindPrevUserEntry` | Kasei/Pods/leveldb-library/db/db_iter.cc:227-267 | Scanning backward stops with the last entry to show saved, or at the start. |
| `DBIterator.DBIter.Next` | Kasei/Pods/leveldb-library/db/db_iter.cc:141-166 | From either direction, moves to the next user key with a value; nothing is skipped. |
| `DBIterator.DBIter.Prev` | Kasei/Pods/leveldb-library/db/db_iter.cc:200-225 | From either direction, moves to the previous user key with a value; nothing is skipped. |
| `DBIterator.DBIter.Seek` | Kasei/Pods/leveldb-library/db/db_iter.cc:269-281 | Moves to the first user key with a value at or after the target. |
| `DBIterator.DBIter.SeekToFirst` | Kasei/Pods/leveldb-library/db/db_iter.cc:283-292 | Moves to the first user key with a value. |
| `DBIterator.DBIter.SeekToLast` | Kasei/Pods/leveldb-library/db/db_iter.cc:294-299 | Moves to the last user key with a value. |
| `DBIterator.DBIter.Key` | Kasei/Pods/leveldb-library/db/db_iter.cc:64-68 | In either direction the shown key is that of the entry the cursor stands for. |
| `DBIterator.DBIter.CurrentValue` | Kasei/Pods/leveldb-library/db/db_iter.cc:69-72 | In either direction the shown value is that of the entry the cursor stands for. |
| `Merger.MergingIterator.Next` | Kasei/Pods/leveldb-library/table/merger.cc:55-79 | From either direction, moves to the next entry of the sorted union of the children. |
| `Merger.MergingIterator.Prev` | Kasei/Pods/leveldb-library/table/merger.cc:81-108 | From either direction, moves to the previous entry of the sorted union. |
| `Merger.MergingIterator.Seek` | Kasei/Pods/leveldb-library/table/merger.cc:47-53 | Moves to the first entry of the union at or after the target. |
| `Merger.MergingIterator.SeekToFirst` | Kasei/Pods/leveldb-library/table/merger.cc:31-37 | Moves to the first entry of the union. |
| `Merger.MergingIterator.SeekToLast` | Kasei/Pods/leveldb-library/table/merger.cc:39-45 | Moves to the last entry of the union. |
| `Merger.MergingIterator.FindSmallest` | Kasei/Pods/leveldb-library/table/merger.cc:148-161 | Selects a child with the smallest current key, if any child is valid. |
| `Merger.MergingIterator.FindLargest` | Kasei/Pods/leveldb-library/table/merger.cc:163-176 | Selects a child with the largest current key, if any child is valid. |
| `Merger.UnionNeighbours` | Kasei/Pods/leveldb-library/table/merger.cc:31-176 | Next and previous in the union are the neighbours in the one sorted sequence that lists it. |
| `TwoLevel.SeekDivides` | Kasei/Pods/leveldb-library/table/two_level_iterator.cc:82-87 | Seeking in the index and then in one block finds where the target divides the concatenation of all blocks. |
| `TwoLevel.TwoLevelIterator.SkipEmptyDataBlocksForward` | Kasei/Pods/leveldb-library/table/two_level_iterator.cc:115-126 | Skips any number of empty blocks to the wanted position of the concatenation, or past its end. |
| `TwoLevel.TwoLevelIterator.SkipEmptyDataBlocksBackward` | Kasei/Pods/leveldb-library/table/two_level_iterator.cc:128-139 | The same backward. |
| `TwoLevel.TwoLevelIterator.InitDataBlock` | Kasei/Pods/leveldb-library/table/two_level_iterator.cc:146-161 | The data iterator is over the block the index stands on, reused when the handle is the same. |
| `TwoLevel.TwoLevelIterator.Next` | Kasei/Pods/leveldb-library/table/two_level_iterator.cc:103-107 | Moves to the next position of the concatenation. |
| `TwoLevel.TwoLevelIterator.Prev` | Kasei/Pods/leveldb-library/table/two_level_iterator.cc:109-113 | Moves to the previous position of the concatenation. |
| `TwoLevel.TwoLevelIterator.Seek` | Kasei/Pods/leveldb-library/table/two_level_iterator.cc:82-87 | Moves to the first entry of the concatenation at or after the target. |
| `TwoLevel.TwoLevelIterator.SeekToFirst` | Kasei/Pods/leveldb-library/table/two_level_iterator.cc:89-94 | Moves to position 0 of the concatenation. |
| `TwoLevel.TwoLevelIterator.SeekToLast` | Kasei/Pods/leveldb-library/table/two_level_iterator.cc:96-101 | Moves to the last position of the concatenation. |
| `Iteration.TableSeparated` | Kasei/Pods/leveldb-library/table/table.cc:210-214 | The index keys of a built table separate its blocks, and the blocks in a row are the entries added, so that the two-level iterator over it walks these. |
| `Iteration.LevelSeparated` | Kasei/Pods/leveldb-library/db/version_set.cc:164-228 | The largest keys of a deeper level's files separate them, and the files in a row are one ascending sequence, so that the concatenating iterator walks it. |
| `Iteration.ChildrenHold` | Kasei/Pods/leveldb-library/db/db_impl.cc:1062-1077 | The memtables, the files of level 0 and the deeper levels hold together exactly what the engine stores, each entry in one of them: the merging iterator over them is as `Merger` requires. |
| `Iteration.WalkExists` | Kasei/Pods/leveldb-library/table/merger.cc:31-176 | The children have one sorted union, with the versions of a key newest first. |
| `Iteration.StepsAgree` | Kasei/Pods/leveldb-library/table/merger.cc:55-108 | Next and previous in the union of the children are one step along that sequence, which the user-facing iterator walks. |
| `Iteration.ShowsHistory` | Kasei/Pods/leveldb-library/db/db_impl.cc:1147-1157 | Over every run as for `Database.RunReadsHistory`, an iterator at a readable snapshot n shows exactly the keys that have a value in the map after the first n operations written, with that value. |
| `Coding.Fixed32RoundTrip` | Kasei/Pods/leveldb-library/util/coding.h:60-72 | Decoding undoes the little-endian 32-bit encoding, whatever follows. |
| `Coding.Fixed64RoundTrip` | Kasei/Pods/leveldb-library/util/coding.h:74-86 | Decoding undoes the little-endian 64-bit encoding, whatever follows. |
| `Coding.EncodeVarint64` | Kasei/Pods/leveldb-library/util/coding.cc:81-90 | The encoder's loop writes the base-128 digits, low first, with a continuation bit on all but the last. |
| `Coding.Varint32IsVarint` | Kasei/Pods/leveldb-library/util/coding.cc:47-73 | The unrolled 32-bit encoder writes the same bytes as the general one. |
| `Coding.GetVarint32` | Kasei/Pods/leveldb-library/util/coding.cc:112-140 | Reads back every 32-bit number; on any bytes, fails exactly when no number ends within five bytes and keeps the low 32 bits otherwise. |
| `Coding.GetVarint64` | Kasei/Pods/leveldb-library/util/coding.cc:142-169 | Reads back every 64-bit number; on any bytes, fails exactly when no number ends within ten bytes and keeps the low 64 bits otherwise. |
| `Coding.VarintRoundTrip` | Kasei/Pods/leveldb-library/util/coding.cc:81-90 | Decoding undoes encoding whenever the value fits the allowed number of bytes, whatever follows. |
| `Coding.SliceBack` | Kasei/Pods/leveldb-library/util/coding.cc:98-101 | Reading undoes writing of a length-prefixed slice, whatever follows. |
| `Log.UnmaskMask` | Kasei/Pods/leveldb-library/util/crc32c.h:22-38 | Unmasking undoes masking of a checksum. |
| `Log.MaskUnmask` | Kasei/Pods/leveldb-library/util/crc32c.h:22-38 | And masking undoes unmasking. |
| `Log.Writer.EmitPhysicalRecord` | Kasei/Pods/leveldb-library/db/log_writer.cc:82-108 | Appends one checksummed fragment. |
| `Log.Writer.EmitFragment` | Kasei/Pods/leveldb-library/db/log_writer.cc:43-76 | Pads a block too full for a header and appends as much of the record as fits, with the type of its place in the record. |
| `Log.Writer.AddRecord` | Kasei/Pods/leveldb-library/db/log_writer.cc:34-80 | Appends the record's fragments; only the file's length matters, so a second writer opened at its end continues the same log. |
| `Log.Reader.ReadBlock` | Kasei/Pods/leveldb-library/db/log_reader.cc:189-219 | Refills the buffer with the next block of the file, or notes the end. |
| `Log.Reader.ReadPhysicalRecord` | Kasei/Pods/leveldb-library/db/log_reader.cc:189-271 | Reads the fragment at the current position, or reports a bad length or checksum, or ends. |
| `Log.Reader.TakeFragment` | Kasei/Pods/leveldb-library/db/log_reader.cc:221-268 | Parses one physical header: a fragment with a good checksum is handed over with its type, a length beyond the buffer or a bad checksum drops the buffer, and zeros from preallocation are passed over. |
| `Log.Reader.ReadRecord` | Kasei/Pods/leveldb-library/db/log_reader.cc:56-174 | Reads the next record of any bytes as stated by one function of file and position, of which `LogDamage` says what it refuses. |
| `Log.ReadBack` | Kasei/Pods/leveldb-library/db/log_reader.cc:56-174 | From the start of a record, complete or cut short, the reader delivers it exactly if it lies wholly in the file. |
| `Log.ContainedExact` | Kasei/Pods/leveldb-library/db/log_reader.cc:56-174 | The number of records contained in a prefix: those fit, one more does not. |
| `Log.CrashPrefix` | Kasei/Pods/leveldb-library/db/log_reader.cc:56-174 | From any byte prefix of a written log a reader delivers exactly the records that lie wholly in it, in order, and reports no corruption. |
| `Log.AppendExtends` | Kasei/Pods/leveldb-library/db/log_writer.cc:27-80 | Appending a record extends the log by its fragments at the offset the file has reached. |
| `Log.ReadLog` | Kasei/Pods/leveldb-library/db/log_reader.cc:56-174 | Reading a whole file collects all of its records and all reports. |
| `Log.WriteLog` | Kasei/Pods/leveldb-library/db/log_writer.cc:27-80 | Records written by a second writer opened at the end of an intact log continue that log. |
| `LogDamage.DeliveredIsWritten` | Kasei/Pods/leveldb-library/db/log_reader.cc:56-271 | Of any file every record delivered is a full fragment, or a first one, middle ones and a last one, that lie in the file in order and byte for byte as a writer writes them, length, type and checksum of type and payload included; no fragment is in two records. |
| `LogDamage.DamageReported` | Kasei/Pods/leveldb-library/db/log_reader.cc:221-258 | If any bytes of one fragment of a written log are altered so that header, payload and checksum no longer fit or the length leads out of the block, the records before the one with the fragment are delivered and reading goes on behind the block. The damage is reported unless the header became zero, and so are the record's earlier fragments. |
| `LogDamage.DamageEndsLog` | Kasei/Pods/leveldb-library/db/log_reader.cc:228-239 | If in the last block the altered length leads out of the file, reading ends with the records before it and without a report, as for a file that was cut off. |
| `LogLoss.DamageCosts` | Kasei/Pods/leveldb-library/db/log_reader.cc:56-271 | Of a written log with one fragment damaged so that it shows, exactly those records are lost that have the fragment or begin behind it in its block; all before and all after them are delivered. The number of reports is exact: the damage unless the header became zero, the record's earlier fragments as one, and each fragment behind the block that is left of a lost record. |
| `Table.FindShortestSeparator` | Kasei/Pods/leveldb-library/util/comparator.cc:29-50 | The start is replaced exactly if at the first differing byte there is room for a byte between the two keys; then the result lies strictly between start and limit, and no key between them is shorter. |
| `Table.FindShortSuccessor` | Kasei/Pods/leveldb-library/util/comparator.cc:52-64 | The key is replaced exactly if it has a byte below the highest; the result is at or after it, and no key at or after it is shorter. |
| `Table.InternalSeparator` | Kasei/Pods/leveldb-library/db/dbformat.cc:69-86 | The internal key is at or after the first key and before the second. It is shortened exactly if the user key gets shorter, then as far as possible, and bears the highest sequence number. |
| `Table.InternalSuccessor` | Kasei/Pods/leveldb-library/db/dbformat.cc:88-101 | The same with nothing to stay before. |
| `Table.LookupInBlock` | Kasei/Pods/leveldb-library/table/table.cc:216-244 | The block that the index selects decides the lookup of the whole table, even if its last key is below the target. |
| `Table.LookupPastEnd` | Kasei/Pods/leveldb-library/table/table.cc:216-244 | Past the last index key the table has no visible entry. |
| `InternalKeys.KeyLessIsLess` | Kasei/Pods/leveldb-library/db/dbformat.cc:51-67 | Comparing encoded internal keys is comparing the keys: user keys ascend, and the versions of one descend. |
| `InternalKeys.ParseBack` | Kasei/Pods/leveldb-library/db/dbformat.h:165-175 | Parsing undoes the encoding of every internal key. |
| `TableFormat.HandleBack` | Kasei/Pods/leveldb-library/table/format.cc:15-29 | Decoding a block handle undoes encoding, whatever follows. |
| `TableFormat.FooterBack` | Kasei/Pods/leveldb-library/table/format.cc:31-62 | Decoding a footer undoes encoding: magic number, padding and both handles. |
| `TableFormat.FooterMagic` | Kasei/Pods/leveldb-library/table/format.cc:43-51 | A footer that does not end in the magic number is refused. |
| `TableFormat.WrittenLeads` | Kasei/Pods/leveldb-library/table/format.cc:64-137 | A block that was just written, compressed or not, is read back through its handle, whether checksums are verified or not. |
| `TableFormat.LeadsStays` | Kasei/Pods/leveldb-library/table/format.cc:64-137 | Bytes written later leave a block readable. |
| `TableFormat.VerifiedExactly` | Kasei/Pods/leveldb-library/table/format.cc:64-137 | Where checksums are verified, a block reads as some contents if and only if contents, type and checksum lie in the file byte for byte as they are written for these; anything else is refused. |
| `TableFiles.TableBuilder.constructor` | Kasei/Pods/leveldb-library/table/table_builder.cc:65-70 | A new builder holds no entry, and its filter has started the block at offset 0. |
| `TableFiles.TableBuilder.Add` | Kasei/Pods/leveldb-library/table/table_builder.cc:94-123 | Adding keeps every written block readable at its handle, separated from later entries by its index key, which is chosen only when the next key is known, and its keys in the filter under the block's offset. |
| `TableFiles.TableBuilder.Flush` | Kasei/Pods/leveldb-library/table/table_builder.cc:125-139 | The block under construction moves to the file and waits for its index key; entries, order and filter are kept. |
| `TableFiles.TableBuilder.WriteBlock` | Kasei/Pods/leveldb-library/table/table_builder.cc:141-175 | The finished block can be read back at the handle, compressed or not, and the builder of blocks starts anew. |
| `TableFiles.TableBuilder.WriteRawBlock` | Kasei/Pods/leveldb-library/table/table_builder.cc:177-194 | The contents with type and masked checksum are appended, and the handle says where. |
| `TableFiles.TableBuilder.Finish` | Kasei/Pods/leveldb-library/table/table_builder.cc:198-253 | When sizes fit their fields, the bytes written are a table of the added entries: blocks, filter, metaindex, index and footer, each found through the one before. |
| `TableFiles.SeekIn` | Kasei/Pods/leveldb-library/table/block.cc:163-201 | Searching the bytes of a block whose keys ascend finds its first entry not below the key, or the end. |
| `TableFiles.ReadMeta` | Kasei/Pods/leveldb-library/table/table.cc:84-133 | The filter of a built table is found exactly when reader and writer name the same policy. |
| `TableFiles.Open` | Kasei/Pods/leveldb-library/table/table.cc:38-82 | Opening the bytes of a built table succeeds and finds its index and, by the policy's name, its filter; any other file is opened exactly if its footer and the index block that it leads to are accepted. |
| `TableFiles.OpensOnlyTables` | Kasei/Pods/leveldb-library/table/table.cc:38-82 | With checksums verified, only a file that ends in the magic number and leads to an intact index block is opened. |
| `TableFiles.IndexFound` | Kasei/Pods/leveldb-library/table/table.cc:216-223 | Searching the bytes of the index finds the first index key not below the lookup key and that block's handle. |
| `TableFiles.BlockFound` | Kasei/Pods/leveldb-library/db/version_set.cc:263-276 | The entry found in the bytes of a block is what a search of its entries delivers for the user key. |
| `TableFiles.RuledOut` | Kasei/Pods/leveldb-library/db/dbformat.cc:103-119 | A block that the filter rules out for a lookup key has no entry of its user key. |
| `TableFiles.InternalGet` | Kasei/Pods/leveldb-library/table/table.cc:216-244 | For the bytes of a built table, with or without filter, compression and verified checksums, a lookup hits exactly the newest visible entry of the user key among all entries added, and misses exactly if there is none. If blocks were damaged since it was opened and are refused, the answer is still right or reports corruption. |
| `Block.CommonPrefix` | Kasei/Pods/leveldb-library/table/block_builder.cc:78-84 | The scan finds the longest common prefix. |
| `Block.BlockBuilder.constructor` | Kasei/Pods/leveldb-library/table/block_builder.cc:41-45 | A new builder holds no entry and one restart point at offset 0. |
| `Block.BlockBuilder.Add` | Kasei/Pods/leveldb-library/table/block_builder.cc:72-106 | Appends the entry, prefix-compressed against the previous key or whole at a restart point. |
| `Block.BlockBuilder.Finish` | Kasei/Pods/leveldb-library/table/block_builder.cc:62-69 | When sizes fit 32 bits, the block is the entries, the offsets of the restart entries and their number. |
| `Block.BlockBuilder.Reset` | Kasei/Pods/leveldb-library/table/block_builder.cc:47-54 | The builder is as new. |
| `Block.FastPathAgrees` | Kasei/Pods/leveldb-library/table/block.cc:54-76 | On any bytes the one-byte-lengths shortcut decodes what three varints decode. |
| `Block.EntryRoundTrip` | Kasei/Pods/leveldb-library/table/block.cc:54-76 | Decoding a stored entry's head gives its lengths, whatever follows. |
| `Block.RestartRoundTrip` | Kasei/Pods/leveldb-library/table/block.cc:99-102 | The restart array holds the offsets of the restart entries. |
| `Block.TrailerRoundTrip` | Kasei/Pods/leveldb-library/table/block.cc:19-39 | Opening a built block finds the restart array and the number of restarts. |
| `Block.DecodeAt` | Kasei/Pods/leveldb-library/table/block.cc:224-251 | The bytes at an entry's offset, applied to the key before it (or to any key at a restart point), decode to that entry and end at the next one. |
| `Block.NewIterator` | Kasei/Pods/leveldb-library/table/block.cc:254-264 | Malformed contents are refused; a built block gives an iterator over its entries. |
| `Block.Iter.ParseNextKey` | Kasei/Pods/leveldb-library/table/block.cc:224-251 | On any bytes makes progress or ends; on a built block reaches exactly the next entry. |
| `Block.Iter.AdvanceRestart` | Kasei/Pods/leveldb-library/table/block.cc:245-248 | The restart index never passes the current entry. |
| `Block.Iter.SeekToRestartPoint` | Kasei/Pods/leveldb-library/table/block.cc:104-112 | Positions before the restart entry. |
| `Block.Iter.SearchRestarts` | Kasei/Pods/leveldb-library/table/block.cc:163-189 | Binary search finds a restart point with only smaller entries before it and none smaller at the next restart point. |
| `Block.Iter.RestartKey` | Kasei/Pods/leveldb-library/table/block.cc:169-179 | A restart point's key is read whole. |
| `Block.Iter.Next` | Kasei/Pods/leveldb-library/table/block.cc:137-140 | Moves to the next entry, or is invalid after the last. |
| `Block.Iter.Prev` | Kasei/Pods/leveldb-library/table/block.cc:142-161 | Moves to the previous entry, or is invalid before the first, however the position was reached. |
| `Block.Iter.Seek` | Kasei/Pods/leveldb-library/table/block.cc:163-201 | For keys that ascend, moves to the first entry not below the target, or is invalid if there is none. |
| `Block.Iter.SeekToFirst` | Kasei/Pods/leveldb-library/table/block.cc:203-206 | Moves to the first entry. |
| `Block.Iter.SeekToLast` | Kasei/Pods/leveldb-library/table/block.cc:208-213 | Moves to the last entry. |
| `Bloom.SetBitIs` | Kasei/Pods/leveldb-library/util/bloom.cc:50 | Setting a bit sets that bit and no other. |
| `Bloom.CreateFilter` | Kasei/Pods/leveldb-library/util/bloom.cc:28-54 | For any hash function the filter's bits are exactly those that some key probes, followed by the number of probes. |
| `Bloom.KeyMayMatch` | Kasei/Pods/leveldb-library/util/bloom.cc:56-80 | Answers whether all probes of the key hit set bits; filters of a reserved encoding match, and too short ones do not. |
| `Bloom.NoFalseNegatives` | Kasei/Pods/leveldb-library/util/bloom.cc:28-80 | Every key a filter was made from matches it. |
| `FilterBlock.FilterBlockBuilder.StartBlock` | Kasei/Pods/leveldb-library/table/filter_block.cc:21-27 | Finishes the filters of all earlier 2 KB ranges, empty ones included. |
| `FilterBlock.FilterBlockBuilder.AddKey` | Kasei/Pods/leveldb-library/table/filter_block.cc:29-33 | Adds a key to the filter of the current block's range. |
| `FilterBlock.FilterBlockBuilder.GenerateFilter` | Kasei/Pods/leveldb-library/table/filter_block.cc:51-75 | Cuts the flattened keys apart again and appends their filter, or an empty one. |
| `FilterBlock.FilterBlockBuilder.Finish` | Kasei/Pods/leveldb-library/table/filter_block.cc:35-49 | Over every run of calls with rising offsets, every key added after StartBlock of an offset matches when the reader is asked about that offset. |
| `FilterBlock.BlockKeyMayMatch` | Kasei/Pods/leveldb-library/table/filter_block.cc:90-104 | Decides by the filter of the offset's range; malformed blocks and offsets beyond the filters match. |
| `FilterBlock.OpenBack` | Kasei/Pods/leveldb-library/table/filter_block.cc:77-88 | Opening a finished filter block finds its offset array. |
| `FilterBlock.StoredKeyMatches` | Kasei/Pods/leveldb-library/table/filter_block.cc:90-104 | A key in the filter of a 2 KB range matches at every offset in that range. |
| `SkipList.SkipList.FindGreaterOrEqual` | Kasei/Pods/leveldb-library/db/skiplist.h:260-281 | Finds the first node not below the key, and on every level in use the last node below it. |
| `SkipList.SkipList.FindLessThan` | Kasei/Pods/leveldb-library/db/skiplist.h:283-302 | Finds the last node below the key, or the head. |
| `SkipList.SkipList.FindLast` | Kasei/Pods/leveldb-library/db/skiplist.h:304-321 | Finds the last node, or the head. |
| `SkipList.SkipList.Contains` | Kasei/Pods/leveldb-library/db/skiplist.h:370-378 | Answers whether an equal key is in the list. |
| `SkipList.SkipList.Insert` | Kasei/Pods/leveldb-library/db/skiplist.h:336-368 | Adds the key; at every moment between two stores each level is an ascending sublist of the level below and the list holds the old keys or these and the new one. |
| `SkipList.LookKeeps` | Kasei/Pods/leveldb-library/db/skiplist.h:260-302 | One load keeps a searcher on its level's path, or ends it where the bottom level splits. |
| `SkipList.LinkKeeps` | Kasei/Pods/leveldb-library/db/skiplist.h:362-367 | Publishing a node at one level keeps the list well formed. |
| `SkipList.PrepareKeeps` | Kasei/Pods/leveldb-library/db/skiplist.h:362-367 | Filling in a node's link before it is published changes no level. |
| `SkipList.RaiseKeeps` | Kasei/Pods/leveldb-library/db/skiplist.h:348-361 | Raising the height in use before the new levels are linked keeps the list well formed. |
| `SkipList.SearchDuringInserts` | Kasei/Pods/leveldb-library/db/skiplist.h:336-368 | A search whose loads interleave with any number of insertion stores never follows a bad pointer and answers as a linear search of the list at its last load. |
| `SkipList.RunsJoin` | Kasei/Pods/leveldb-library/db/skiplist.h:336-368 | The moments of consecutive insertions form one run. |
| `SkipList.Iterator.Next` | Kasei/Pods/leveldb-library/db/skiplist.h:207-210 | Moves to the next key in order. |
| `SkipList.Iterator.Prev` | Kasei/Pods/leveldb-library/db/skiplist.h:213-221 | Moves to the previous key in order by a new search. |
| `SkipList.Iterator.Seek` | Kasei/Pods/leveldb-library/db/skiplist.h:224-226 | Moves to the first key not below the target. |
| `SkipList.Iterator.SeekToFirst` | Kasei/Pods/leveldb-library/db/skiplist.h:229-231 | Moves to the first key. |
| `SkipList.Iterator.SeekToLast` | Kasei/Pods/leveldb-library/db/skiplist.h:234-239 | Moves to the last key. |
| `VersionEdits.EditRoundTrip` | Kasei/Pods/leveldb-library/db/version_edit.cc:41-205 | Decoding an encoded edit gives it back, behind any compaction pointers the receiving object already held; it is the identity exactly if there were none. |
| `VersionEdits.VersionEdit.Clear` | Kasei/Pods/leveldb-library/db/version_edit.cc:26-39 | Clears every field but the compaction pointers. |
| `VersionEdits.VersionEdit.EncodeTo` | Kasei/Pods/leveldb-library/db/version_edit.cc:41-85 | Appends the fields that are present, tagged, in a fixed order. |
| `VersionEdits.VersionEdit.DecodeFrom` | Kasei/Pods/leveldb-library/db/version_edit.cc:107-205 | On any bytes fills fields until the input ends, a field is malformed or a tag is unknown. |
| `VersionEdits.BodyBack` | Kasei/Pods/leveldb-library/db/version_edit.cc:121-190 | Every field decodes from its own encoding, whatever follows. |
| `Refusals.CutExactly` | Kasei/Pods/leveldb-library/db/version_edit.cc:107-205 | A record of an edit that is cut short still decodes if and only if the cut falls between two fields. |
| `Refusals.UnknownTag` | Kasei/Pods/leveldb-library/db/version_edit.cc:190-192 | A tag that no field has spoils a record, whatever stands around it. |
| `Refusals.DecodedFits` | Kasei/Pods/leveldb-library/db/version_edit.cc:87-205 | Of any bytes, an edit that is accepted names only levels that exist. |
| `Manifest.OrderedUnique` | Kasei/Pods/leveldb-library/db/version_set.cc:593-605 | A set of files has only one listing by smallest key and number. |
| `Manifest.SaveLevel` | Kasei/Pods/leveldb-library/db/version_set.cc:695-749 | Merging the base files with the added files and leaving out the deleted ones. |
| `Manifest.SavedIs` | Kasei/Pods/leveldb-library/db/version_set.cc:695-749 | A saved level is the ascending listing of exactly the base and added files that are not deleted. |
| `Manifest.Builder.Apply` | Kasei/Pods/leveldb-library/db/version_set.cc:650-692 | On every level, records deletions first and then additions, which cancel a deletion of their number. |
| `Manifest.Builder.SaveTo` | Kasei/Pods/leveldb-library/db/version_set.cc:695-739 | Saves every level. |
| `Manifest.HistoryIs` | Kasei/Pods/leveldb-library/db/version_set.cc:801-884 | After any edits, each applied to the version before it, a level lists exactly the files added and not deleted since. |
| `Manifest.ReplayIsHistory` | Kasei/Pods/leveldb-library/db/version_set.cc:590-755 | If no number is given twice on a level, which the file number counter guarantees, putting all edits through one builder gives the same list as applying each edit to the version before it. |
| `Manifest.ReusedNumberDiffers` | Kasei/Pods/leveldb-library/db/version_set.cc:650-692 | That hypothesis cannot simply be dropped: on one history with a reused number the two differ. |
| `ReplayExact.ReplayIsHistoryExactly` | Kasei/Pods/leveldb-library/db/version_set.cc:590-755 | For histories that add a number only while no live file of the level has it, replay through one builder equals stepwise application if and only if for every number live at the end: no base file shares it with an added one, all files added under it have the same place in the order, and the first and the last of them are equal. |
| `ReplayExact.OnceIsConsistent` | Kasei/Pods/leveldb-library/db/version_set.cc:590-755 | Histories that give every number once meet that condition. |
| `ReplayExact.ReuseIsInconsistent` | Kasei/Pods/leveldb-library/db/version_set.cc:650-692 | The history with the reused number does not meet it. |
| `FileNumbers.NewThere` | Kasei/Pods/leveldb-library/db/version_set.h:194-203 | A file that an edit adds under a number handed out and not used, or moves down from a level it is deleted from, has a number new to its level. |
| `FileNumbers.TracedAfter` | Kasei/Pods/leveldb-library/db/version_set.h:194-203 | Every such edit keeps all numbers below the counter, those handed out and unused new everywhere, and each level's numbers distinct over the whole history. |
| `VersionSets.SnapshotRestores` | Kasei/Pods/leveldb-library/db/version_set.cc:1088-1117 | Applying a snapshot edit to an empty version gives the version it was taken of. |
| `VersionSets.VersionSet.constructor` | Kasei/Pods/leveldb-library/db/version_set.cc:757-774 | A new version set has no files, no manifest and the first file number 2. |
| `VersionSets.VersionSet.WriteSnapshot` | Kasei/Pods/leveldb-library/db/version_set.cc:1088-1117 | A new manifest holds one record with the whole current version. |
| `VersionSets.VersionSet.LogAndApply` | Kasei/Pods/leveldb-library/db/version_set.cc:801-884 | Logs the edit with its numbers filled in and makes the version it leads to current; a failing write leaves the version, the numbers and at most part of one record. A manifest that was written recovers to exactly the version and the numbers that are now current, and file numbers stay fresh. |
| `VersionSets.VersionSet.Recover` | Kasei/Pods/leveldb-library/db/version_set.cc:886-1011 | On any bytes, succeeds exactly if `VersionSets.RecoverFile` has a result, which `Refusals.RecoversExactly` states about the records; then installs what replay gives, and is in good shape again if that is. |
| `VersionSets.RecoverEditsIs` | Kasei/Pods/leveldb-library/db/version_set.cc:921-999 | Recovery from edits gives the version they lead to and the last edit's numbers. |
| `VersionSets.CrashRecovery` | Kasei/Pods/leveldb-library/db/version_set.cc:886-1011 | However many bytes of a manifest survive, as long as its snapshot and one edit do, recovery gives exactly the version and numbers of the last edit that lies wholly in them. |
| `VersionSets.CrashStarts` | Kasei/Pods/leveldb-library/db/version_set.cc:886-1011 | The files that such a recovery finds have numbers below the counter that it restores, each on one level and there once. |
| `VersionSets.TornRecovers` | Kasei/Pods/leveldb-library/db/version_set.cc:841-881 | After a failed write to the manifest, recovery gives the version before the edit or the one after it. |
| `Refusals.RecoversExactly` | Kasei/Pods/leveldb-library/db/version_set.cc:926-980 | Recovery of any bytes succeeds if and only if the manifest reads without a report, each record is an edit and none names another comparator, and some record holds the next file number, some the log number and some the last sequence number. |
| `Refusals.LastExactly` | Kasei/Pods/leveldb-library/db/version_set.cc:948-968 | Of each number the last record that holds it decides. |
| `Refusals.OtherNameRefused` | Kasei/Pods/leveldb-library/db/version_set.cc:936-943 | A manifest whose snapshot, or any other edit, records one comparator is refused under every other name, wherever it is cut behind that edit. |
| `Refusals.ManifestIsItsOwn` | Kasei/Pods/leveldb-library/db/version_set.cc:1088-1117 | No other comparator opens what a version set has written. |
| `Refusals.NoEditRefused` | Kasei/Pods/leveldb-library/db/version_set.cc:933-935 | A manifest with a record that is no edit is refused under every name. |
| `Refusals.DamageRefused` | Kasei/Pods/leveldb-library/db/version_set.cc:926-932 | So is a written manifest in which one fragment was altered so that it shows, unless the header of a record's first fragment became zero. |
| `Refusals.CutRecoversExactly` | Kasei/Pods/leveldb-library/db/version_set.cc:970-980 | A manifest as a version set writes it, cut off anywhere, recovers if and only if the snapshot and the first edit after it survive. |
| `VersionSets.TracedIsFresh` | Kasei/Pods/leveldb-library/db/version_set.h:194-203 | Numbers that come from the counter are given to no level twice. |
| `VersionSets.VersionSet.NewFileNumber` | Kasei/Pods/leveldb-library/db/version_set.h:194 | Hands out the next number, which no file has. |
| `VersionSets.VersionSet.ReuseFileNumber` | Kasei/Pods/leveldb-library/db/version_set.h:199-203 | Takes back a number that no file was given, if it was the last one handed out. |
| `WriteBatches.BatchRoundTrip` | Kasei/Pods/leveldb-library/db/write_batch.cc:42-80 | Reading a batch gives its operations in order and its sequence number; it is reported corrupt exactly if 32 bits do not hold the count. |
| `WriteBatches.BatchCut` | Kasei/Pods/leveldb-library/db/write_batch.cc:42-80 | A batch that is cut short is refused wherever the cut is, also between two operations, and only its first operations are handed over. |
| `WriteBatches.UnknownKind` | Kasei/Pods/leveldb-library/db/write_batch.cc:52-73 | Bytes behind whole operations that begin with no known kind spoil a batch; the operations before them are handed over. |
| `WriteBatches.WriteBatch.Clear` | Kasei/Pods/leveldb-library/db/write_batch.cc:35-38 | An empty batch. |
| `WriteBatches.WriteBatch.Count` | Kasei/Pods/leveldb-library/db/write_batch.cc:82-84 | The count in the header is the number of operations modulo 2 to the power 32. |
| `WriteBatches.WriteBatch.Sequence` | Kasei/Pods/leveldb-library/db/write_batch.cc:90-92 | The sequence number in the header. |
| `WriteBatches.WriteBatch.SetSequence` | Kasei/Pods/leveldb-library/db/write_batch.cc:94-96 | Changes the sequence number and no operation. |
| `WriteBatches.WriteBatch.Put` | Kasei/Pods/leveldb-library/db/write_batch.cc:98-103 | Adds a put behind the operations there. |
| `WriteBatches.WriteBatch.Delete` | Kasei/Pods/leveldb-library/db/write_batch.cc:105-109 | Adds a deletion behind the operations there. |
| `WriteBatches.WriteBatch.Append` | Kasei/Pods/leveldb-library/db/write_batch.cc:144-148 | Adds a batch's operations, also its own, behind the operations there and keeps its sequence number. |
| `WriteBatches.InsertInto` | Kasei/Pods/leveldb-library/db/write_batch.cc:42-137 | On any bytes inserts the operations up to the first malformed one with consecutive sequence numbers, and succeeds exactly if all are well formed and counted. What inserting means to a reader is `Histories.BatchReads`. |
| `WriteQueue.BuildBatchGroup` | Kasei/Pods/leveldb-library/db/db_impl.cc:1260-1306 | The group is the longest run of waiting writers that may join the one in front, and its operations are their batches in order. |
| `WriteQueue.GroupUnique` | Kasei/Pods/leveldb-library/db/db_impl.cc:1260-1306 | The queue determines the group. |
| `WriteQueue.GroupFits` | Kasei/Pods/leveldb-library/db/db_impl.cc:1260-1306 | No writer that asked for a sync is in the group of a leader that did not; the group can be counted in 32 bits, and it takes at most 1 MB unless one batch alone is larger; a small batch in front waits for at most 128 KB more. |
| `WriteQueue.StepKeeps` | Kasei/Pods/leveldb-library/db/db_impl.cc:1185-1256 | Every step of the queue keeps the invariant, also when an append fails and leaves nothing, the whole record or part of it, and when a sync fails. |
| `WriteQueue.ReplayIsLogged` | Kasei/Pods/leveldb-library/db/write_batch.cc:116-137 | Replaying the log gives exactly the entries of the groups whose record is whole, unless an append left part of a record behind; then it gives those before it. |
| `WriteQueue.GroupCommit` | Kasei/Pods/leveldb-library/db/db_impl.cc:1185-1256 | Over every run writers leave in the order they came, each once; a group's operations are its members' batches, numbered from the last number on; no number is used twice; a sync request is served by a syncing leader; after a sync that failed every later write is refused; and as long as no append left part of a record in the log, it replays to the memtable if and only if it holds no record of a group that was told it failed. |
| `WriteQueue.MemReads` | Kasei/Pods/leveldb-library/db/db_impl.cc:1218-1232 | Over every run the memtable reads as the map after the operations of the groups that were told they succeeded. |
| `Durability.LiveIsDurable` | Kasei/Pods/leveldb-library/db/db_impl.cc:280-369 | What recovery would find is exactly what the running database holds: its version's tables, both memtables and the batch in flight. |
| `Durability.AppendKeeps` | Kasei/Pods/leveldb-library/db/db_impl.cc:1209-1220 | Appending a batch to the current log keeps the invariant. |
| `Durability.SwitchKeeps` | Kasei/Pods/leveldb-library/db/db_impl.cc:1347-1366 | Switching to a new log and memtable keeps the invariant. |
| `Durability.InstallFlushKeeps` | Kasei/Pods/leveldb-library/db/db_impl.cc:535-566 | Installing a flushed memtable and giving up its log loses nothing that is durable. |
| `Durability.InstallCompactionKeeps` | Kasei/Pods/leveldb-library/db/db_impl.cc:860-876 | Installing a compaction loses nothing durable but the entries its outputs leave out. |
| `Durability.FileStepKeeps` | Kasei/Pods/leveldb-library/db/db_impl.cc:223-278 | Writing tables that are not installed and deleting obsolete tables and logs changes nothing recovery needs and no table in use. |
| `Durability.ReplayKeeps` | Kasei/Pods/leveldb-library/db/db_impl.cc:371-489 | Replaying a log into tables, however it is cut, changes nothing durable before they are installed. |
| `Durability.FinishOpenKeeps` | Kasei/Pods/leveldb-library/db/db_impl.cc:1474-1512 | Once all logs are replayed, the opened database holds exactly what was durable. |
| `Durability.StepKeeps` | Kasei/Pods/leveldb-library/db/db_impl.cc:223-566 | Every step keeps the durability invariant. |
| `Durability.DurableRun` | Kasei/Pods/leveldb-library/db/db_impl.cc:223-566 | Over every run with any crashes: each acknowledged entry is in a table of the current version or in a log that recovery replays, unless a compaction left it out of its outputs; no table in use, built by a running compaction or about to be installed is deleted; no acknowledged sequence number is handed out again. |
| `Durability.RecoveryRestores` | Kasei/Pods/leveldb-library/db/db_impl.cc:280-489 | Crashes and recoveries, with any number of crashes during recovery, change nothing that is durable. |
| `Durability.MadeNext` | Kasei/Pods/leveldb-library/db/db_impl.cc:371-489 | The tables that recovery writes are numbered oldest entries first, across all logs and the pieces each is cut into. |
| `DiskSteps.StepAgrees` | Kasei/Pods/leveldb-library/db/db_impl.cc:491-1010 | Each single disk step of a write, a flush, a compaction or the deletion of files, whatever steps of others came in between, leaves tables, logs and a manifest that agree with the engine's state and with what is under way. |
| `DiskSteps.FilesAllow` | Kasei/Pods/leveldb-library/db/db_impl.cc:491-1010 | Whatever step the engine may take, its files allow. |
| `DiskSteps.Carried` | Kasei/Pods/leveldb-library/db/db_impl.cc:491-1010 | Every action of the engine can be carried out: steps on disk and in memory lead to its new state. |
| `CrashReads.OpenedVersion` | Kasei/Pods/leveldb-library/db/db_impl.cc:280-489 | The files that recovery makes may lie on level 0: the version it opens is well formed. |
| `CrashReads.CrashKeeps` | Kasei/Pods/leveldb-library/db/db_impl.cc:280-489 | A crash between any two steps, whatever is under way, and any more crashes during recovery, followed by recovery, give an engine in good shape whose history is what was written before and the batch in flight if its record was in the log. |
| `CrashReads.ReadsAfterCrashes` | Kasei/Pods/leveldb-library/db/db_impl.cc:280-566 | Over every run of the engine with any number of crashes, with compactions as for `Database.RunReadsHistory`: every readable snapshot reads the history, which only grows, and holds all that was ever acknowledged; what is stored, with the batch in flight, is what the next recovery would find. What the history reads is `CrashReads.ReadsOperations`. |
| `CrashReads.ReadsOperations` | Kasei/Pods/leveldb-library/db/db_impl.cc:280-566 | Over every such run a readable snapshot n reads the map from keys to values after the first n operations: those of the batches that reached the memtable, and of those whose record was in the log when the process stopped. |
| `CrashReads.CanRecover` | Kasei/Pods/leveldb-library/db/db_impl.cc:280-489 | Recovery never gets stuck: from every state, however far an earlier recovery came before it crashed, there is one that opens the database. |
| `HandleTable.HandleTable.FindPointer` | Kasei/Pods/leveldb-library/util/cache.cc:114-120 | Walking the links of a chain ends at the entry with the key, or at the end, with the pointer that leads there. |
| `HandleTable.HandleTable.Lookup` | Kasei/Pods/leveldb-library/util/cache.cc:74-76 | Finds the entry with the key, if any. |
| `HandleTable.HandleTable.Insert` | Kasei/Pods/leveldb-library/util/cache.cc:78-92 | Storing through the pointer found maps the key to the new entry, hands back the one it replaces, keeps all chains linked, and keeps them short by resizing. |
| `HandleTable.HandleTable.Remove` | Kasei/Pods/leveldb-library/util/cache.cc:94-102 | Storing through the pointer found unmaps the key and hands back its entry; all chains stay linked. |
| `HandleTable.HandleTable.Resize` | Kasei/Pods/leveldb-library/util/cache.cc:122-146 | Keeps the map and leaves at least as many buckets as entries. |
| `HandleTable.Rehash` | Kasei/Pods/leveldb-library/util/cache.cc:128-141 | Pushes every entry to the front of its new chain, each once, by relinking in place. |
| `CircularLists.UnlinkRing` | Kasei/Pods/leveldb-library/util/cache.cc:239-242 | Two stores take an entry out of its circular list and leave the rest linked both ways. |
| `CircularLists.AppendRing` | Kasei/Pods/leveldb-library/util/cache.cc:244-250 | Four stores make an entry the newest of a circular list. |
| `CircularLists.UnlinkOther` | Kasei/Pods/leveldb-library/util/cache.cc:239-242 | Taking an entry out of one list leaves the other list alone, though they share the links. |
| `CircularLists.AppendOther` | Kasei/Pods/leveldb-library/util/cache.cc:244-250 | So does putting one in. |
| `LRUCache.RefKeeps` | Kasei/Pods/leveldb-library/util/cache.cc:217-223 | Taking a reference keeps the cache invariant. |
| `LRUCache.UnrefKeeps` | Kasei/Pods/leveldb-library/util/cache.cc:225-237 | Dropping a client's reference keeps the cache invariant. |
| `LRUCache.DetachKeeps` | Kasei/Pods/leveldb-library/util/cache.cc:307-316 | Taking an entry out of the cache keeps the invariant, its reference becoming the caller's. |
| `LRUCache.AllocateKeeps` | Kasei/Pods/leveldb-library/util/cache.cc:272-291 | A new entry, cached or not, keeps the invariant. |
| `LRUCache.LRUCache.constructor` | Kasei/Pods/leveldb-library/util/cache.cc:197-203 | A new cache is empty. |
| `LRUCache.LRUCache.Ref` | Kasei/Pods/leveldb-library/util/cache.cc:217-223 | An entry that only the cache refers to moves to the in-use list, both lists staying linked; its reference count grows. |
| `LRUCache.LRUCache.Unref` | Kasei/Pods/leveldb-library/util/cache.cc:225-237 | The last reference runs the deleter; an entry left to the cache alone becomes the newest of the LRU list, both lists staying linked. |
| `LRUCache.LRUCache.FinishErase` | Kasei/Pods/leveldb-library/util/cache.cc:307-316 | The entry leaves its list, which stays linked, and the usage, and the cache gives up its reference. |
| `LRUCache.LRUCache.Lookup` | Kasei/Pods/leveldb-library/util/cache.cc:252-259 | Hands out one reference more to the entry with the key, exactly if there is one, which then cannot be evicted. |
| `LRUCache.LRUCache.Release` | Kasei/Pods/leveldb-library/util/cache.cc:261-264 | Gives back one client reference and changes no mapping; an entry whose last client lets go becomes the newest of the LRU list. |
| `LRUCache.LRUCache.Insert` | Kasei/Pods/leveldb-library/util/cache.cc:266-305 | The client holds one reference to the new entry and no other reference changes; given any capacity it is what its key maps to; afterwards the usage is within capacity or the LRU list is empty, and only its oldest entries went, each while the usage was over capacity. Exactly their keys lose their mappings. |
| `LRUCache.LRUCache.EvictOldest` | Kasei/Pods/leveldb-library/util/cache.cc:293-302 | Evicts exactly the oldest entry of the LRU list, which no client holds, with its mapping, and touches no other. |
| `LRUCache.LRUCache.Erase` | Kasei/Pods/leveldb-library/util/cache.cc:318-321 | Removes the key's mapping and no other; clients keep their references. |
| `LRUCache.LRUCache.Prune` | Kasei/Pods/leveldb-library/util/cache.cc:323-333 | Empties the LRU list, and exactly its keys lose their mappings; clients keep their references. |
| `LRUCache.AllDeleted` | Kasei/Pods/leveldb-library/util/cache.cc:205-215 | Once clients hold nothing and the LRU list is empty, every entry ever made has had its deleter run, exactly once. |
| `PbVarint.DecodeVarint32` | Kasei/Pods/nanopb/pb_decode.c:187-247 | The loop of the 32-bit reader on any bytes, with its checks of what lies beyond 32 bits. |
| `PbVarint.ReadersAgree` | Kasei/Pods/nanopb/pb_decode.c:187-276 | Whenever the 32-bit and the 64-bit reader both accept an input, they take the same bytes and the first gives the low 32 bits of the second. |
| `PbVarint.Reads32Exactly` | Kasei/Pods/nanopb/pb_decode.c:187-252 | Whatever bytes the 32-bit reader accepts are a varint of the same length, and it gives the low 32 bits of that number if and only if no byte whose bit position has wrapped around brings in a bit that these 32 lack. |
| `PbVarint.ShortIsRight` | Kasei/Pods/nanopb/pb_decode.c:212-245 | An accepted varint of at most 37 bytes is always read right. |
| `PbVarint.LongVarintWraps` | Kasei/Pods/nanopb/pb_decode.c:212-245 | The 32-bit reader's bit position has eight bits: it takes a 38-byte varint whose only bit is in the last byte for 8, where the 64-bit reader refuses it. |
| `PbVarint.Dec32Back` | Kasei/Pods/nanopb/pb_decode.c:187-252 | The 32-bit reader reads back every 32-bit number, whatever follows. |
| `PbVarint.ZigZagBack` | Kasei/Pods/nanopb/pb_decode.c:1269-1281 | ZigZag is undone for every 64-bit number and sends numbers of either sign to small ones. |
| `Nanopb.NumBack` | Kasei/Pods/nanopb/pb_decode.c:1318-1429 | Every number that fits its field decodes from its encoding, for each integer type and size. |
| `Nanopb.PackedBack` | Kasei/Pods/nanopb/pb_decode.c:425-452 | A packed array within its bound decodes to its items. |
| `Nanopb.ValueBack` | Kasei/Pods/nanopb/pb_decode.c:1431-1525 | Every value within its declared bounds decodes from its encoding, whatever follows. |
| `Nanopb.EachBack` | Kasei/Pods/nanopb/pb_decode.c:406-480 | The values of a field that is not packed end up in the message in order. |
| `Nanopb.MsgBack` | Kasei/Pods/nanopb/pb_decode.c:925-1087 | Decoding the encoding of any message tree within its bounds into an empty message gives the message. |
| `Nanopb.SkipBack` | Kasei/Pods/nanopb/pb_decode.c:278-334 | The wire type alone tells how to pass over a value of any type. |
| `Nanopb.UnknownFieldSkipped` | Kasei/Pods/nanopb/pb_decode.c:956-983 | A field that the receiver's description does not have, packed or not, changes nothing in what it decodes. |
| `Nanopb.DecodePacked` | Kasei/Pods/nanopb/pb_decode.c:434-447 | The loop over packed items on any bytes; items beyond the array's bound are an error. |
| `Nanopb.DecodeMsg` | Kasei/Pods/nanopb/pb_decode.c:925-1073 | The loop over fields on any bytes: unknown fields are skipped, a zero tag ends the message, and required fields must have been seen. What it lets through is `PbRefusals.DecodedIsSound`. |
| `PbRefusals.DecodedIsSound` | Kasei/Pods/nanopb/pb_decode.c:925-1073 | Of any bytes, a message that decodes into an empty one holds exactly one value in each of its first 64 required fields, at most one in an optional field and at most its bound in a repeated one; numbers, byte strings and strings are within their declared sizes, and the messages within it are sound in the same way. |
| `PbRefusals.UnsignedExactly` | Kasei/Pods/nanopb/pb_decode.c:1366-1388 | An unsigned number is read if it fits its field and refused, not cut, if it does not. |
| `PbRefusals.ZigZagExactly` | Kasei/Pods/nanopb/pb_decode.c:1390-1412 | The same for a zigzag number. |
| `PbRefusals.SignedExactly` | Kasei/Pods/nanopb/pb_decode.c:1329-1364 | Of a signed number for a field of at most four bytes the low 32 bits count, as a signed number, and are refused if they do not fit the field. |
| `PbRefusals.ValueCut` | Kasei/Pods/nanopb/pb_decode.c:1318-1525 | A value that is cut short is refused, by the field it is for and by a receiver that skips it. |
| `PbRefusals.MessageCut` | Kasei/Pods/nanopb/pb_decode.c:925-1073 | A field whose value is cut short spoils the message, known to the receiver or not. |
| `PbRefusals.UnknownWireRefused` | Kasei/Pods/nanopb/pb_decode.c:321-334 | A field that the receiver does not have is refused if its wire type does not say how long it is. |
| `PbRefusals.ZeroEnds` | Kasei/Pods/nanopb/pb_decode.c:308-312 | A zero in place of a field ends the message, whatever stands behind it. |
| `PbEncode.Write` | Kasei/Pods/nanopb/pb_encode.c:103-126 | A sizing stream counts; a real stream takes the bytes if they fit and fails otherwise. |
| `PbEncode.EncodeVarint` | Kasei/Pods/nanopb/pb_encode.c:608-628 | Writes the base-128 digits. |
| `PbEncode.EncodeTag` | Kasei/Pods/nanopb/pb_encode.c:669-673 | Writes field number and wire type. |
| `PbEncode.EncodeString` | Kasei/Pods/nanopb/pb_encode.c:709-715 | Writes the length and the bytes. |
| `PbEncode.EncodeNum` | Kasei/Pods/nanopb/pb_encode.c:769-850 | Writes a number in the form of its type. |
| `PbEncode.PackedSize` | Kasei/Pods/nanopb/pb_encode.c:170-192 | The size of a packed array, computed or counted, is the length of its encoding. |
| `PbEncode.EncodePackedArray` | Kasei/Pods/nanopb/pb_encode.c:164-210 | Writes a packed array behind its size. |
| `PbEncode.EncodeSubmessage` | Kasei/Pods/nanopb/pb_encode.c:717-765 | Counts the message, writes that length, and writes the message into exactly that room; the size never changes between the passes. |
| `PbEncode.EncodeEach` | Kasei/Pods/nanopb/pb_encode.c:212-236 | Writes each value of a field behind its tag. |
| `PbEncode.EncodeField` | Kasei/Pods/nanopb/pb_encode.c:341-426 | Writes a required, optional or repeated field; an absent one leaves nothing. |
| `PbEncode.EncodeMsg` | Kasei/Pods/nanopb/pb_encode.c:528-550 | A sizing stream counts exactly the bytes of the encoding; a real stream receives exactly these if it has room for them, and otherwise the call fails. |
| `PbEncode.GetEncodedSize` | Kasei/Pods/nanopb/pb_encode.c:567-577 | The size found by counting is the length of what a real stream receives. |
| `PbEncode.EncodeToBuffer` | Kasei/Pods/nanopb/pb_encode.c:89-101 | Encoding into a buffer succeeds exactly if it is large enough, and then decoding gives back the message. |

## Left out

- Kasei's own screens, cells and Firebase calls: user interface and network glue.
- Firebase, GoogleUtilities and GTMSessionFetcher: only their headers are in the repository.
- Operating-system files, threads, mutexes and condition variables: files are byte sequences and each step under the mutex is atomic. I/O errors are modelled only where a contract mentions failure (`WriteQueue`, `PbEncode`).
- Checksum tables, the hash function and Snappy: parameters; compressing is any function that can be undone.
- The loss of bytes that were appended but not synced when the machine goes down: a crash loses the process and keeps the files. What a shorter log yields is `Log.CrashPrefix`.
- Failing writes to the manifest while the engine runs: stated in `VersionSets`, not in `Durability` and `CrashReads`.
- What follows part of a record that a failed append left in the log: `WriteQueue` says what comes before it.
- Memory ordering of atomics in the skip list: each store and each load is one step in a global order.
- Compaction scores, seek statistics, read sampling, properties, approximate sizes, repair, C bindings: heuristics or reporting.
- File names, the CURRENT file and the creation of a database: a manifest is its bytes.
- Compaction pointers in the manifest: encoded and decoded, but what recovery makes of them is not stated.
- Keys whose internal form does not parse: `DBIterator` and `Compaction` take well-formed entries.
- Failing writes to a table file, the block cache, and block handles whose size overflows when the trailer is added.
- The iterators as one stack of objects: each class walks a sequence of entries, and `Iteration` says that the sequence of one is what the ones below it list.
- The counters that an edit records are those at its write; the code takes them a moment earlier, before it releases the lock.
- A log reader that starts at an offset other than 0, and resynchronisation after it.
- Reusing the last log on opening (options.reuse_logs): recovery writes every log into tables.
- Pointer fields, callbacks, extensions, oneofs, fixed-count arrays, fixed-length bytes and fields without presence in nanopb.
- Block.DecodeEntry: adds the two lengths without 32-bit wrap-around, which only malformed blocks can reach.
- SkipList.SkipList.Insert: the node's height is a parameter, since the source draws it at random.
- LRUCache.LRUCache.Prune: the destructor, which visits the LRU list in the same way, has no member of its own.
