# Verified model of the storage and wire layers of ZipR

ZipR is an iOS app. Its own Swift code is user interface; the parts of it that have to keep promises are
two components compiled into it: LevelDB, which stores data, and nanopb, which encodes Protocol Buffers.
This project models both in Dafny and proves what they are relied on for.

`dafny verify dfyconfig.toml` checks everything.

## What is modelled

**The store as one machine** (`Store*.dfy`). The state is everything a LevelDB instance has: memtable and
immutable memtable, logs, tables, manifest, current version, snapshots, readers, writer queue, a running
compaction, a change that is in the manifest but not yet in memory. The steps are those of the source, split
wherever its mutex is released: a writer queues up, a leader builds its group, logs it, inserts operations one
by one, publishes; the memtable is switched; tables are built, committed and installed; compactions start, write
outputs, commit and install, with flushes in between; files are deleted; snapshots and readers come and go; the
process crashes and reopens. The reference is one plain map: operation number *n* gets sequence number *n*, and a
read at snapshot *s* must return what the map held after *s* operations. `StoreRuns.RunKeepsInv` shows the
invariant in every state of every run (a crash in the middle of a log append is a crash before it:
`LogReplay.TornAppend`); `Read`, `ReadLater`, `DiskAgreesWithMemory`, `NothingNeededIsDeleted`,
`RunRemembers` and `BatchRanges` say what it means. `StoreSync` adds which log records are synced, `StoreLoss` what
survives when the whole machine crashes and unsynced records are lost.

**What the store stands on.** `Keys` and `Versions` (internal key order, point reads through levels), `Inputs`
(choice of compaction inputs), `VersionBuilder` (edits and manifest replay), `Compaction` (what is dropped, and
when that changes a read), `Levels` (what flush, move and install do to the levels), `GapFlush` (memtables flushed
while a compaction runs).

**Iterators.** `DbIter`, `MergingIter`, `TwoLevelIter`, `BlockIter`: each is a cursor on a simple sequence or map,
under any mix of moves and changes of direction.

**Bytes.** `LogFormat`/`LogIo` (log framing, torn writes), `LogChecks` (what the log reader makes of arbitrary
bytes), `Blocks`, `Bloom`, `FilterBlock`, `Tables` (module `SortedTables`: separators and lookup), `EditCodec` and
`EditErrors` (manifest records, whole and damaged), `WriteBatches` and `BatchErrors`, `LogReplay` (from the bytes of a
torn log back to operations), `Varints` and `VarintAny` (varints written and arbitrary), `Layouts` (the formats spelt
out byte by byte, independently of the functions that write them).

**Memory structures.** `SkipList` (alone, and readers interleaved with an insertion at every load and store),
`HandleTable` and `LruCache`.

**nanopb.** `Proto` (descriptors, what is encoded, what decoding any bytes does), `ProtoRoundTrip`, `ProtoStream`
(the encoder on a stream, with its sizing pass), `ProtoInput` (the decoder on a stream), `ProtoTextFits` (which
messages decode again), `ProtoEvolution` (writer and reader with different descriptors), `ProtoRules` (repeated
occurrences, packed runs, refused values, examples of the wire format).

User keys are integers wherever only their order matters and bytes in the codecs. Values that the code
chooses by time, size or chance are free: when a memtable or an output is full, which level is compacted, a node's
height, file sizes.

## Where the code does less than it says

- `SetupOtherInputs` adds boundary files for the input level only. A deletion marker can then be dropped while an
  older value of its key stays behind in an unselected file of the output level, and the key comes back.
  `DeletedKeyReturns` has a version where the store's own pick does this; `CompactionPreservesReads` gives the exact
  condition. In the state machine a compaction starts only when its output level keeps no older entry for a selected
  key.
- A memtable may be flushed in the middle of a compaction. If the inputs of a manual range leave a gap, the flushed
  file can land inside it, and an output file can then begin before it and end after it. Files of the output level
  overlap, the binary search finds the output, and a key that was written is no longer read. `FlushedKeyLost` has a
  version, a manual range, a flush and a cut where this happens. `GapFlush.FlushIntoGap` gives the exact condition for
  every cut to be safe, `CutReads` the one for reads to stay right; to avoid the interval that the inputs span is
  sufficient, not necessary. `PickCompaction` never leaves a gap, and in the state machine a compaction starts only on
  inputs without one.
- A log that is switched out is closed without a sync. After a crash of the machine a sync write in the new log can
  survive while an earlier finished write in the old one is gone: `StoreLoss.LaterSurvivesAlone`, with the exact
  condition in `EveryLoss`.
- The compaction loop uses the largest sequence number to mean "no entry of this key yet". A smallest snapshot of that
  value would drop every entry; `Compactor.ShouldDrop` states both cases.
- A string that fills its array is encoded in full, and the decoder refuses it for lack of a terminator.
  `ProtoTextFits.RoundTripExactly` says exactly when a message comes back.
- `VersionEdit::Clear` does not reset compaction pointers, so decoding into a used edit keeps old ones in front.
  `EditRoundTrip` says exactly when the edit comes back.
- The comment in `db_iter.cc` says that a reversed iterator stands just before all entries of its key. Entries that
  its snapshot cannot see may lie in between; that nothing visible does is what the code needs and what is proved.

## Model

| member | source | states |
|---|---|---|
| `Keys.LookupKeyCuts` | ZipR/Pods/leveldb-library/db/dbformat.cc:51-67 | In the packed-tag order the lookup key of (k, s) separates exactly: before it lie the smaller user keys and those entries of k that snapshot s must not see |
| `Keys.LookupSameVisible` | ZipR/Pods/leveldb-library/db/memtable.cc:100-134 | Two entry sets with the same visible entries of a key answer a lookup alike |
| `Keys.AgreesRange` | ZipR/Pods/leveldb-library/db/db_impl.cc:1235-1252 | Adding the entries of a whole range of operations to a store that answers as the plain map up to its start makes it answer as the plain map up to its end, for every key and snapshot |
| `Keys.WholeHistoryAgrees` | ZipR/Pods/leveldb-library/db/db_impl.cc:1100-1145 | The complete history of entries answers every read at every snapshot as the plain map does |
| `Versions.SearchRunAnswers` | ZipR/Pods/leveldb-library/db/memtable.cc:100-134 | Seeking a sorted run to the lookup key and checking the user key finds the newest visible entry, or proves there is none |
| `Versions.FindFile` | ZipR/Pods/leveldb-library/db/version_set.cc:88-106 | Computes the binary search on any files; on a sorted level the index splits exactly the files that end before the key from those that do not |
| `Versions.SomeFileOverlapsRange` | ZipR/Pods/leveldb-library/db/version_set.cc:122-157 | Both search strategies decide exactly whether some file meets the range, for every pair of bounds, present or absent |
| `Versions.Candidates` | ZipR/Pods/leveldb-library/db/version_set.cc:338-378 | The files to look into, on any level; in a valid version they show an entry of the key at least as new as any visible one of the level, newest file first at level 0, at most one file below |
| `Versions.VersionGet` | ZipR/Pods/leveldb-library/db/version_set.cc:326-421 | Computes the level by level search on any version; on a valid one the result is the newest visible entry, or none if there is none |
| `Versions.ReadAnswers` | ZipR/Pods/leveldb-library/db/version_set.cc:326-421 | If the levels above show nothing of a key, the search from a level on answers for the whole valid version |
| `Versions.DbGet` | ZipR/Pods/leveldb-library/db/db_impl.cc:1100-1145 | Memtable, immutable memtable, then tables: the answer is the lookup in the union of all three, deletions answering not found |
| `Inputs.GetRange` | ZipR/Pods/leveldb-library/db/version_set.cc:1205-1224 | The user-key hull of a nonempty set of files |
| `Inputs.GetOverlappingInputs` | ZipR/Pods/leveldb-library/db/version_set.cc:519-559 | Despite restarts the scan ends, and returns exactly the files that meet the widened range, which is the least one that at level 0 no selected file leaves; above level 0 it is the range asked for |
| `Inputs.WithinIsClosed` | ZipR/Pods/leveldb-library/db/version_set.cc:537-558 | A level-0 range that no selected file leaves makes the selection closed under overlap |
| `Inputs.OverlappingIsSlice` | ZipR/Pods/leveldb-library/db/version_set.cc:519-559 | In a sorted level the selected files are contiguous |
| `Inputs.FindLargestKey` | ZipR/Pods/leveldb-library/db/version_set.cc:1326-1339 | Finds the largest internal key of the files, or reports that there are none |
| `Inputs.FindSmallestBoundaryFile` | ZipR/Pods/leveldb-library/db/version_set.cc:1344-1361 | Finds the least file that starts beyond a key with the same user key |
| `Inputs.AddBoundaryInputs` | ZipR/Pods/leveldb-library/db/version_set.cc:1378-1401 | The loop computes the boundary closure of its input files |
| `Inputs.BoundaryIsClosure` | ZipR/Pods/leveldb-library/db/version_set.cc:1363-1401 | On a contiguous selection the closure adds no duplicate, stays contiguous, and leaves no unselected file with an older entry for a selected user key |
| `Inputs.ChainIsConnected` | ZipR/Pods/leveldb-library/db/version_set.cc:1378-1401 | Boundary files leave no gap in the user-key interval of a connected selection |
| `Inputs.ClosedAtLevel0` | ZipR/Pods/leveldb-library/db/version_set.cc:1306-1316 | A level-0 selection closed under overlap leaves only files whose entries of a selected user key are newer |
| `Inputs.ClosedAboveLevel0` | ZipR/Pods/leveldb-library/db/version_set.cc:1403-1407 | A boundary-closed contiguous selection of a sorted level leaves only newer or disjoint files |
| `Inputs.SetupOtherInputs` | ZipR/Pods/leveldb-library/db/version_set.cc:1403-1462 | From a seed: its boundary closure, the files of the next level that meet it, and the larger selection exactly when it has more input files, stays below the byte limit and adds no file of the next level; closed, connected if the seed is, and the largest key of the inputs is what the pointer moves to |
| `Inputs.GrowInputs` | ZipR/Pods/leveldb-library/db/version_set.cc:1418-1447 | The expansion is taken if and only if it adds an input file, keeps below the byte limit and leaves the next level's files as they are |
| `Inputs.ReselectKeeps` | ZipR/Pods/leveldb-library/db/version_set.cc:1418-1447 | Selecting again over the whole range of a compaction loses none of its input-level files |
| `Inputs.PickCompaction` | ZipR/Pods/leveldb-library/db/version_set.cc:1270-1322 | An automatic pick starts from the first file behind the compaction pointer, or from the first of all if there is none, or from the file singled out by seeks; it is a closed selection whose key ranges form one interval without a gap |
| `Inputs.PickFile` | ZipR/Pods/leveldb-library/db/version_set.cc:1284-1296 | The first file that ends behind the pointer; the first file of all if there is no pointer or no such file |
| `Inputs.CutShort` | ZipR/Pods/leveldb-library/db/version_set.cc:1471-1487 | The files up to and with the one at which their sizes reach the limit |
| `Inputs.CompactRange` | ZipR/Pods/leveldb-library/db/version_set.cc:1464-1495 | A manual range gives a closed selection, or nothing if no file meets the range; above level 0, if the files that meet the range stay below the size limit, all of them are in it; no claim that it is without gaps |
| `VersionBuilder.Builder.Apply` | ZipR/Pods/leveldb-library/db/version_set.cc:650-700 | One edit is folded into the builder's per-level deleted and added sets |
| `VersionBuilder.Builder.SaveTo` | ZipR/Pods/leveldb-library/db/version_set.cc:702-754 | The builder's version is the merge of base and added files, level by level |
| `VersionBuilder.AddFiles` | ZipR/Pods/leveldb-library/db/version_set.cc:668-699 | Each added file leaves the deleted numbers of its level and joins its ordered set |
| `VersionBuilder.MergeFiles` | ZipR/Pods/leveldb-library/db/version_set.cc:706-733 | The nested scan merges two ordered lists and leaves out deleted files |
| `VersionBuilder.MergeOrdered` | ZipR/Pods/leveldb-library/db/version_set.cc:706-733 | The saved level is ordered by smallest key, ties by number |
| `VersionBuilder.BuilderIsReplay` | ZipR/Pods/leveldb-library/db/version_set.cc:650-754 | If no file number is added again at a level it left, one builder over a whole run of edits holds exactly the files of applying the edits one at a time to a plain set |
| `VersionBuilder.ManifestReplay` | ZipR/Pods/leveldb-library/db/version_set.cc:924-997 | Replaying a manifest yields, per level and in order, the files of the plain replay |
| `Compaction.Compactor.ScanLevel` | ZipR/Pods/leveldb-library/db/version_set.cc:1537-1549 | The monotone scan pointer of a level decides for ascending keys whether a file of the level covers the key |
| `Compaction.Compactor.IsBaseLevelForKey` | ZipR/Pods/leveldb-library/db/version_set.cc:1533-1552 | True exactly if no file two or more levels down covers the user key, although the pointers only move forward |
| `Compaction.Compactor.ShouldDrop` | ZipR/Pods/leveldb-library/db/db_impl.cc:920-960 | The incremental decision per entry, with its remembered key and last sequence, is the declarative one: hidden by a newer entry at or below the oldest snapshot, or an obsolete deletion marker; if the smallest snapshot is the largest sequence number, every entry is dropped |
| `Compaction.Compactor.DoCompactionWork` | ZipR/Pods/leveldb-library/db/db_impl.cc:878-999 | However outputs are cut, their concatenation is exactly the kept entries in order, and no output is empty; with a smallest snapshot of the largest sequence number nothing is kept |
| `Compaction.KeptSorted` | ZipR/Pods/leveldb-library/db/db_impl.cc:962-988 | The kept entries are sorted |
| `Compaction.HiddenByPredecessor` | ZipR/Pods/leveldb-library/db/db_impl.cc:934-942 | In sorted input an entry is hidden if and only if the entry before it for the same user key is at or below the oldest snapshot |
| `Compaction.CompactionPreservesReads` | ZipR/Pods/leveldb-library/db/db_impl.cc:920-999 | Every read at every snapshot from the oldest on is unchanged if and only if no dropped deletion marker uncovers a value in an unselected file of the output level |
| `Compaction.ReadChanged` | ZipR/Pods/leveldb-library/db/db_impl.cc:943-960 | When such a value exists, the read at the oldest snapshot changes from not found to that value |
| `Compaction.ClosedNothingResurrects` | ZipR/Pods/leveldb-library/db/version_set.cc:1403-1462 | A selection whose output level keeps no older entry for a selected user key uncovers nothing |
| `DeletedKeyReturns.Witness` | ZipR/Pods/leveldb-library/db/version_set.cc:1403-1422 | A concrete valid version in which every selection at level 1 brings a deleted key back, since boundary files are added for the input level only |
| `DeletedKeyReturns.PickAtLevelOne` | ZipR/Pods/leveldb-library/db/version_set.cc:1270-1322 | The store's own pick at that level is such a selection |
| `Levels.PickLevelForMemTableOutput` | ZipR/Pods/leveldb-library/db/version_set.cc:491-517 | The level chosen is the least one at which the search must stop, or 2 if there is none: for an overlap there or one level down, or too much overlap two levels down; if it is not 0 then no file from level 0 down to it overlaps the flushed file |
| `Levels.FlushKeepsGood` | ZipR/Pods/leveldb-library/db/version_set.cc:491-517 | Adding a flushed file at a level where it fits keeps levels disjoint, numbers unique and every entry above the older ones of its key |
| `Levels.FlushEntries` | ZipR/Pods/leveldb-library/db/db_impl.cc:505-527 | After a flush the version holds exactly the old entries and the file's |
| `Levels.SelectionIsInstallable` | ZipR/Pods/leveldb-library/db/version_set.cc:1403-1462 | The output files of a finished selection fit between the files it leaves at the output level |
| `Levels.InstallKeepsGood` | ZipR/Pods/leveldb-library/db/db_impl.cc:860-876 | Replacing the inputs by the outputs keeps levels disjoint, numbers unique and the newer-above-older order |
| `Levels.InstallReplaces` | ZipR/Pods/leveldb-library/db/version_set.cc:1525-1531 | The edit built from input deletions and output additions removes exactly the inputs and adds exactly the outputs |
| `Levels.InstallEntries` | ZipR/Pods/leveldb-library/db/db_impl.cc:860-876 | After the install the version holds exactly what the drop rules leave |
| `Levels.OneSide` | ZipR/Pods/leveldb-library/db/db_impl.cc:908-918 | A file that meets no input lies wholly on one side of a gapless set of inputs |
| `Levels.FlushKeepsPending` | ZipR/Pods/leveldb-library/db/db_impl.cc:908-918 | A flush in the middle of a gapless compaction leaves the compaction installable, still closed, and its base-level decisions unchanged |
| `GapFlush.ResumableAfterFlush` | ZipR/Pods/leveldb-library/db/db_impl.cc:908-918 | However many memtables are flushed in the middle of a compaction, with gaps or not, its inputs stay in place and no other file of the output level meets one |
| `GapFlush.CutDisjoint` | ZipR/Pods/leveldb-library/db/db_impl.cc:860-876 | For one cut of the outputs, the installed levels are disjoint if and only if no output begins before and ends after a file that stays at the output level |
| `GapFlush.EveryCut` | ZipR/Pods/leveldb-library/db/db_impl.cc:908-999 | Every cut leaves the installed levels disjoint if and only if the entries written do not lie on both sides of a file that stays |
| `GapFlush.FlushIntoGap` | ZipR/Pods/leveldb-library/db/db_impl.cc:908-999 | For a file flushed to the output level of a running compaction: every cut leaves the levels disjoint if and only if no two entries that the compaction keeps lie one before and one after the file |
| `GapFlush.SafeFlush` | ZipR/Pods/leveldb-library/db/db_impl.cc:908-918 | What a caller can test beforehand: a file outside the interval that the inputs span, or inputs without a gap, make every cut safe |
| `GapFlush.LandsOnStraddler` | ZipR/Pods/leveldb-library/db/version_set.cc:88-106 | In a level with an output over other files, the binary search for any entry of the first of them lands on the output |
| `GapFlush.EntryLost` | ZipR/Pods/leveldb-library/db/version_set.cc:326-421 | No entry of the first file under an output is found by a read at its own snapshot |
| `GapFlush.CutReads` | ZipR/Pods/leveldb-library/db/version_set.cc:326-421 | Reads of the installed version are right for every key and snapshot if and only if no output begins before and ends after a file that stays |
| `FlushedKeyLost.CompactAll` | ZipR/Pods/leveldb-library/db/version_set.cc:1464-1495 | The manual compaction of a concrete level selects its two files with a gap between them |
| `FlushedKeyLost.FlushLevel` | ZipR/Pods/leveldb-library/db/version_set.cc:491-517 | The code sends the flushed file into the gap, to the output level |
| `FlushedKeyLost.Witness` | ZipR/Pods/leveldb-library/db/db_impl.cc:908-999 | One output for both inputs then makes the output level overlap, and a key that was read before is not found, although its entry is still in the version |
| `Levels.DecisionsHold` | ZipR/Pods/leveldb-library/db/db_impl.cc:886-960 | The drop decisions taken on the version at the start are those of the version at the end |
| `Levels.ReplayOneMore` | ZipR/Pods/leveldb-library/db/version_set.cc:801-884 | Replaying a manifest with one more record equals applying that record to the version replayed so far |
| `Store.BuildBatchGroup` | ZipR/Pods/leveldb-library/db/db_impl.cc:1260-1306 | The group is the longest prefix of the queue whose every follower may join; its operations are the batches in order; a sync write is only in a group led by a sync write; it is no larger than 1 MiB, or than its leader plus 128 KiB if that is at most 128 KiB, unless it is the leader alone, and the next writer would have gone beyond that or waits for a sync |
| `Store.GroupBytesAdd` | ZipR/Pods/leveldb-library/db/db_impl.cc:1268-1297 | The size of a group is the sum of its batches' sizes, however it is split |
| `StoreWrites.EnqueueKeeps` | ZipR/Pods/leveldb-library/db/db_impl.cc:1185-1198 | A writer joining the queue keeps the invariant |
| `StoreWrites.LeadEmptyKeeps` | ZipR/Pods/leveldb-library/db/db_impl.cc:1200-1252 | A leader without a batch leaves the queue and keeps the invariant |
| `StoreWrites.SwitchMemTableKeeps` | ZipR/Pods/leveldb-library/db/db_impl.cc:1344-1367 | Switching memtable and log keeps the invariant: the old log is still replayed, readers keep their memtable |
| `StoreWrites.BuildGroupKeeps` | ZipR/Pods/leveldb-library/db/db_impl.cc:1260-1306 | Choosing a group keeps the invariant |
| `StoreWrites.AppendGroupKeeps` | ZipR/Pods/leveldb-library/db/db_impl.cc:1206-1222 | Logging the group as one record extends the history by its operations and keeps the invariant |
| `StoreWrites.InsertOneKeeps` | ZipR/Pods/leveldb-library/db/write_batch.cc:116-137 | Inserting one operation keeps the invariant, with readers sharing the memtable |
| `StoreWrites.ReaderSeesInsert` | ZipR/Pods/leveldb-library/db/db_impl.cc:1119-1131 | An insertion into a memtable that a reader shares changes nothing the reader sees at its snapshot |
| `StoreWrites.FinishGroupKeeps` | ZipR/Pods/leveldb-library/db/db_impl.cc:1232-1256 | Publishing the sequence number and popping exactly the group keeps the invariant |
| `StoreManifest.Committed` | ZipR/Pods/leveldb-library/db/version_set.cc:801-884 | A record whose files carry unused numbers turns a manifest that describes a version into one that describes the edited version |
| `StoreBackground.BuildTableKeeps` | ZipR/Pods/leveldb-library/db/db_impl.cc:491-509 | Building a table from the immutable memtable keeps the invariant |
| `StoreBackground.CommitFlushKeeps` | ZipR/Pods/leveldb-library/db/db_impl.cc:535-566 | Writing a flush to the manifest keeps the invariant: from then on the old log is not needed |
| `StoreBackground.CommitEmptyFlushKeeps` | ZipR/Pods/leveldb-library/db/db_impl.cc:512-527 | A flush that leaves no table keeps the invariant |
| `StoreBackground.StartJobKeeps` | ZipR/Pods/leveldb-library/db/db_impl.cc:878-904 | Starting a compaction keeps the invariant |
| `StoreBackground.OldestIsLeast` | ZipR/Pods/leveldb-library/db/db_impl.cc:890-894 | The sequence number up to which a compaction may drop is the least that a snapshot or a new read sees |
| `StoreBackground.OpenOutputKeeps` | ZipR/Pods/leveldb-library/db/db_impl.cc:786-809 | Opening an output takes its number, which stays its own although logs and flushed tables take numbers before it is finished |
| `StoreBackground.WriteOutputKeeps` | ZipR/Pods/leveldb-library/db/db_impl.cc:811-858 | Finishing the open output table keeps the invariant |
| `StoreBackground.CommitJobKeeps` | ZipR/Pods/leveldb-library/db/db_impl.cc:860-876 | Writing a finished compaction to the manifest keeps the invariant |
| `StoreBackground.CommitMoveKeeps` | ZipR/Pods/leveldb-library/db/db_impl.cc:718-728 | Writing a trivial move to the manifest keeps the invariant |
| `StoreBackground.DeleteTableKeeps` | ZipR/Pods/leveldb-library/db/db_impl.cc:223-278 | Deleting a table that no version in use and no running compaction names keeps the invariant |
| `StoreBackground.DeleteLogKeeps` | ZipR/Pods/leveldb-library/db/db_impl.cc:243-246 | Deleting a log below the log number keeps the invariant |
| `StoreInstall.DurableAlways` | ZipR/Pods/leveldb-library/db/version_set.cc:849-884 | At every moment, also between the manifest write and the install, the version the manifest describes serves every read the history promises and its tables are on disk |
| `StoreInstall.CompactInstalls` | ZipR/Pods/leveldb-library/db/db_impl.cc:860-876 | A compaction installed on the current version, after any flushes in between, serves every read from the oldest snapshot on |
| `StoreInstall.FlushInstalls` | ZipR/Pods/leveldb-library/db/db_impl.cc:535-566 | A flushed version is good and serves every read up to the end of the memtable |
| `StoreInstall.MoveInstalls` | ZipR/Pods/leveldb-library/db/db_impl.cc:718-728 | A trivial move keeps a good version with the same entries |
| `StoreInstall.InstallKeeps` | ZipR/Pods/leveldb-library/db/version_set.cc:784-799 | Installing any committed change keeps the invariant, a compaction running beside a flush included |
| `StoreRecovery.TakeSnapshotKeeps` | ZipR/Pods/leveldb-library/db/db_impl.cc:1166-1169 | A new snapshot keeps the invariant |
| `StoreRecovery.ReleaseSnapshotKeeps` | ZipR/Pods/leveldb-library/db/db_impl.cc:1171-1174 | Releasing any snapshot keeps the invariant |
| `StoreRecovery.BeginReadKeeps` | ZipR/Pods/leveldb-library/db/db_impl.cc:1100-1118 | A read at the latest or a registered snapshot takes hold of memtables and version that answer as the plain map |
| `StoreRecovery.EndReadKeeps` | ZipR/Pods/leveldb-library/db/db_impl.cc:1137-1144 | Ending a read keeps the invariant |
| `StoreRecovery.CrashKeeps` | ZipR/Pods/leveldb-library/db/db_impl.cc:280-369 | A crash of the process at any moment leaves a disk from which the history can be recovered; for crashes that lose unsynced log records see StoreLoss |
| `StoreRecovery.FailedReopenKeeps` | ZipR/Pods/leveldb-library/db/db_impl.cc:1474-1515 | An attempt to reopen that dies halfway leaves the disk recoverable |
| `StoreRecovery.PiecesHold` | ZipR/Pods/leveldb-library/db/db_impl.cc:371-489 | The tables made from replayed logs hold exactly the replayed operations, later tables the later ones |
| `StoreRecovery.ReopenKeeps` | ZipR/Pods/leveldb-library/db/db_impl.cc:1474-1515 | Reopening establishes the invariant with exactly the history, and the recovered sequence number is its length |
| `StoreRecovery.SnapshotDescribes` | ZipR/Pods/leveldb-library/db/version_set.cc:1088-1116 | A manifest that lists all files of a version describes that version |
| `StoreRuns.InitHolds` | ZipR/Pods/leveldb-library/db/db_impl.cc:182-212 | A new database satisfies the invariant |
| `StoreRuns.StepKeeps` | ZipR/Pods/leveldb-library/db/db_impl.cc:182-1515 | Every step of every kind keeps the invariant |
| `StoreRuns.RunKeepsInv` | ZipR/Pods/leveldb-library/db/db_impl.cc:182-1515 | Every state of every run satisfies the invariant |
| `StoreRuns.Read` | ZipR/Pods/leveldb-library/db/db_impl.cc:1100-1145 | In every reachable state a read at the latest or a registered snapshot returns what the plain map held after that many operations |
| `StoreRuns.ReadLater` | ZipR/Pods/leveldb-library/db/db_impl.cc:1119-1135 | A reader that began earlier still reads its snapshot exactly, whatever was written, flushed, compacted or deleted since, and its tables are still on disk |
| `StoreRuns.IteratorSeesSnapshot` | ZipR/Pods/leveldb-library/db/db_impl.cc:1147-1157 | The entries an iterator merges form a run whose visible map is the plain map of its snapshot |
| `StoreRuns.DiskAgreesWithMemory` | ZipR/Pods/leveldb-library/db/db_impl.cc:280-489 | In every reachable state manifest tables plus replay of the needed logs answer every published snapshot as memtables plus current version do |
| `StoreRuns.NothingNeededIsDeleted` | ZipR/Pods/leveldb-library/db/db_impl.cc:223-278 | In every reachable state all tables of the current and of the manifest's version are on disk, and the logs from the manifest's log number on replay the rest of the history |
| `StoreRuns.RunRemembers` | ZipR/Pods/leveldb-library/db/db_impl.cc:1185-1258 | Over every run, crashes included, the history only grows and finished writers stay finished in their order |
| `StoreRuns.BatchRanges` | ZipR/Pods/leveldb-library/db/db_impl.cc:1211-1252 | Each finished batch occupies its own contiguous range of sequence numbers, in queue order, exactly once |
| `StoreSync.FinishTracked` | ZipR/Pods/leveldb-library/db/db_impl.cc:1213-1252 | A group led by a sync writer is done only after its record is synced, so each of its sync writes is in a synced record |
| `StoreSync.RunTracked` | ZipR/Pods/leveldb-library/db/db_impl.cc:1213-1252 | In every state of every run, with flushes, switches, deletions and crashes in between, each operation of a finished sync write is in a table that the version names or in a synced record of a log that is still needed |
| `StoreLoss.FoundIffKept` | ZipR/Pods/leveldb-library/db/db_impl.cc:371-440 | After a crash that loses unsynced records, recovery finds an operation in the logs exactly if its record was kept |
| `StoreLoss.SyncedSurvives` | ZipR/Pods/leveldb-library/db/db_impl.cc:1217-1222 | Every operation of a finished sync write survives every such crash, in a table of the manifest or in a log |
| `StoreLoss.PrefixIffGapless` | ZipR/Pods/leveldb-library/db/db_impl.cc:1356-1358 | What the logs have left is a prefix of the history if and only if no log that lost an operation is followed by one that kept one |
| `StoreLoss.EveryLoss` | ZipR/Pods/leveldb-library/db/db_impl.cc:1356-1358 | Every crash leaves a prefix of the history if and only if no needed log with unsynced operations is followed by a log with any |
| `StoreLoss.EveryCrash` | ZipR/Pods/leveldb-library/db/db_impl.cc:1356-1358 | The same for every state of a run, at every moment of a flush |
| `StoreLoss.RecoveredReads` | ZipR/Pods/leveldb-library/db/db_impl.cc:280-369 | If a prefix of m operations is left, the reopened store reads as the plain map after m operations, and every finished sync write is among them |
| `StoreLoss.LaterSurvivesAlone` | ZipR/Pods/leveldb-library/db/db_impl.cc:1344-1367 | From every quiet state there is a run in which a write without sync, a switch of logs and a sync write all finish, and a crash that loses the first and keeps the second |
| `StoreMethods.LeadGroup` | ZipR/Pods/leveldb-library/db/db_impl.cc:1185-1258 | The leader's whole path goes from invariant to invariant, extends the history by exactly its group and pops exactly its group |
| `StoreMethods.RecoverLogs` | ZipR/Pods/leveldb-library/db/db_impl.cc:371-489 | The replay loop cuts the log into sorted tables that meet the conditions of reopening, under rising numbers |
| `StoreMethods.DeleteObsoleteFiles` | ZipR/Pods/leveldb-library/db/db_impl.cc:223-278 | Exactly the tables in use and the logs from the log number on survive, and the invariant holds |
| `DbIter.ShownIsInView` | ZipR/Pods/leveldb-library/db/db_iter.cc:168-198 | An entry the iterator may yield is the value of its key in the plain map at the sequence number |
| `DbIter.ViewIsShown` | ZipR/Pods/leveldb-library/db/db_iter.cc:168-198 | Every key of the plain map has such an entry |
| `DbIter.DBIter.FindNextUserEntry` | ZipR/Pods/leveldb-library/db/db_iter.cc:168-198 | The forward scan stops at the least key of the plain map above its bound, or shows there is none |
| `DbIter.DBIter.FindPrevUserEntry` | ZipR/Pods/leveldb-library/db/db_iter.cc:227-267 | The backward scan stops at the greatest key of the plain map below its bound, or shows there is none |
| `DbIter.DBIter.Next` | ZipR/Pods/leveldb-library/db/db_iter.cc:141-166 | Moves to the next greater key of the plain map, also after a change of direction |
| `DbIter.DBIter.Prev` | ZipR/Pods/leveldb-library/db/db_iter.cc:200-225 | Moves to the next smaller key of the plain map, also after a change of direction |
| `DbIter.DBIter.Seek` | ZipR/Pods/leveldb-library/db/db_iter.cc:269-281 | Moves to the least key at or above the target |
| `DbIter.DBIter.SeekToFirst` | ZipR/Pods/leveldb-library/db/db_iter.cc:283-292 | Moves to the least key |
| `DbIter.DBIter.SeekToLast` | ZipR/Pods/leveldb-library/db/db_iter.cc:294-299 | Moves to the greatest key |
| `DbIter.DBIter.CursorInView` | ZipR/Pods/leveldb-library/db/db_iter.cc:64-71 | Wherever the cursor stands, key and value are those of the plain map |
| `MergingIter.RanksExist` | ZipR/Pods/leveldb-library/table/merger.cc:15-25 | Children with distinct keys partition their sorted union |
| `MergingIter.MergingIterator.SeekToFirst` | ZipR/Pods/leveldb-library/table/merger.cc:31-37 | Moves to the first entry of the sorted union |
| `MergingIter.MergingIterator.SeekToLast` | ZipR/Pods/leveldb-library/table/merger.cc:39-45 | Moves to the last entry of the sorted union |
| `MergingIter.MergingIterator.Seek` | ZipR/Pods/leveldb-library/table/merger.cc:47-53 | Moves to the first entry of the union at or after the target |
| `MergingIter.MergingIterator.Next` | ZipR/Pods/leveldb-library/table/merger.cc:55-79 | Moves one entry on in the sorted union, after a direction switch too |
| `MergingIter.MergingIterator.Prev` | ZipR/Pods/leveldb-library/table/merger.cc:81-108 | Moves one entry back in the sorted union, after a direction switch too |
| `MergingIter.MergingIterator.FindSmallest` | ZipR/Pods/leveldb-library/table/merger.cc:148-161 | If every child stands at or after a place of the union, the child chosen stands at that place |
| `MergingIter.MergingIterator.FindLargest` | ZipR/Pods/leveldb-library/table/merger.cc:163-176 | If every child stands last before a place of the union, the child chosen stands right before it |
| `TwoLevelIter.SeekComposes` | ZipR/Pods/leveldb-library/table/two_level_iterator.cc:82-87 | Seeking in the index and then in the block it names finds the place in the concatenation of the blocks |
| `TwoLevelIter.TwoLevelIterator.Seek` | ZipR/Pods/leveldb-library/table/two_level_iterator.cc:82-87 | Moves to the first entry of the concatenation at or after the target |
| `TwoLevelIter.TwoLevelIterator.SeekToFirst` | ZipR/Pods/leveldb-library/table/two_level_iterator.cc:89-94 | Moves to the first entry, past empty blocks |
| `TwoLevelIter.TwoLevelIterator.SeekToLast` | ZipR/Pods/leveldb-library/table/two_level_iterator.cc:96-101 | Moves to the last entry, past empty blocks |
| `TwoLevelIter.TwoLevelIterator.Next` | ZipR/Pods/leveldb-library/table/two_level_iterator.cc:103-107 | Moves one entry on in the concatenation |
| `TwoLevelIter.TwoLevelIterator.Prev` | ZipR/Pods/leveldb-library/table/two_level_iterator.cc:109-113 | Moves one entry back in the concatenation |
| `TwoLevelIter.TwoLevelIterator.SkipEmptyDataBlocksForward` | ZipR/Pods/leveldb-library/table/two_level_iterator.cc:115-126 | Moves over exhausted and empty blocks without losing its place in the concatenation |
| `TwoLevelIter.TwoLevelIterator.SkipEmptyDataBlocksBackward` | ZipR/Pods/leveldb-library/table/two_level_iterator.cc:128-139 | The same towards the front |
| `TwoLevelIter.TwoLevelIterator.InitDataBlock` | ZipR/Pods/leveldb-library/table/two_level_iterator.cc:146-161 | Opens the block the index names, or keeps it open |
| `LogFormat.UnmaskMask` | ZipR/Pods/leveldb-library/util/crc32c.h:29-38 | Unmasking undoes masking on every 32-bit checksum |
| `LogFormat.ParseWritten` | ZipR/Pods/leveldb-library/db/log_reader.cc:189-271 | A physical record written in place is parsed back to its type and payload; if any byte of it is missing the end of file is reported and nothing else |
| `LogFormat.RecordRead` | ZipR/Pods/leveldb-library/db/log_reader.cc:56-174 | A logical record whose bytes are all there is read back whole through its fragments; with bytes missing the reader reports the end and no corruption |
| `LogFormat.SurvivingIs` | ZipR/Pods/leveldb-library/db/log_reader.cc:56-174 | The count of surviving records is the number of record ends within the prefix |
| `LogFormat.TornLogReads` | ZipR/Pods/leveldb-library/db/log_reader.cc:56-174 | Reading any byte prefix of any log delivers exactly the records whose bytes all survive, in order, and reports no corruption |
| `LogFormat.LogRoundTrip` | ZipR/Pods/leveldb-library/db/log_writer.cc:34-80 | Reading a whole log returns exactly the records written |
| `LogIo.LogWriter.AddRecord` | ZipR/Pods/leveldb-library/db/log_writer.cc:34-80 | The fragment loop leaves the file as the layout of the old records and the new one |
| `LogIo.LogWriter.EmitPhysicalRecord` | ZipR/Pods/leveldb-library/db/log_writer.cc:82-110 | Header, checksum and payload are appended and the block offset follows the file length |
| `Layouts.RecordLayout` | ZipR/Pods/leveldb-library/db/log_writer.cc:82-110 | A short record is masked checksum of type and payload, length low byte first, type 1, payload |
| `Layouts.PieceFills` | ZipR/Pods/leveldb-library/db/log_writer.cc:45-62 | A fragment that is not the last fills its block, and a new block starts only when less than a header is left |
| `LogIo.LogReader.ReadPhysicalRecord` | ZipR/Pods/leveldb-library/db/log_reader.cc:189-271 | On every file: any code but end and bad is a record whose stored word unmasks to the checksum of its type and payload, and the reader stands behind it; a whole record whose word does not is reported with the rest of its block and skipped with it; and the block buffer is never seen, the outcome is that of reading at a position |
| `LogIo.LogReader.ReadRecord` | ZipR/Pods/leveldb-library/db/log_reader.cc:56-174 | On every file: a record returned is exactly the fragments of consecutive checked physical records, one full one or a first, middle ones and a last; position and reports are those of the position-based reader, and the reader stops |
| `LogChecks.PhysicalOutcome` | ZipR/Pods/leveldb-library/db/log_reader.cc:189-271 | At any position of any file one of three things happens: a whole record whose checksum holds is delivered, the rest of the block is dropped and reported unless it is preallocated zeros, or the file ends inside the record |
| `LogChecks.PhysicalMeans` | ZipR/Pods/leveldb-library/db/log_reader.cc:238-271 | A record delivered has a checksum that holds; a whole one whose checksum does not hold is reported with the rest of its block |
| `LogChecks.ChecksIffWritten` | ZipR/Pods/leveldb-library/db/log_writer.cc:82-110 | The checksum of a record holds if and only if its bytes are those that the writer emits for its type and payload |
| `LogChecks.RecordIsWhole` | ZipR/Pods/leveldb-library/db/log_reader.cc:56-174 | On every file, a logical record is the concatenation of consecutive checked fragments that belong together |
| `LogChecks.DeliveredOrReported` | ZipR/Pods/leveldb-library/db/log_reader.cc:56-174 | On every file, each payload byte and each byte of a dropped block passed over is either in the record delivered or reported as lost |
| `LogFormat.MaskUnmask` | ZipR/Pods/leveldb-library/util/crc32c.h:24-38 | Masking undoes unmasking, so both are one to one |
| `LogIo.LogReader.ReadWholeLog` | ZipR/Pods/leveldb-library/db/db_impl.cc:416-455 | The recovery loop delivers every record up to the end |
| `SkipList.List.FindGreaterOrEqual` | ZipR/Pods/leveldb-library/db/skiplist.h:260-281 | Returns the first node at or after the key, and on every level the last node before it |
| `SkipList.List.FindLessThan` | ZipR/Pods/leveldb-library/db/skiplist.h:285-304 | Returns the last node before the key, or the head |
| `SkipList.List.FindLast` | ZipR/Pods/leveldb-library/db/skiplist.h:307-323 | Returns the last node, or the head of an empty list |
| `SkipList.List.Insert` | ZipR/Pods/leveldb-library/db/skiplist.h:337-368 | Every level stays a sorted sublist of the level below and the contents grow by the key |
| `SkipList.NodeLinked` | ZipR/Pods/leveldb-library/db/skiplist.h:362-367 | The two stores of one level insert the node into that level's sorted list |
| `SkipList.PrivateLink` | ZipR/Pods/leveldb-library/db/skiplist.h:363-365 | The store into the new node changes no list, since nobody can reach the node at that level yet |
| `SkipList.PublishKeeps` | ZipR/Pods/leveldb-library/db/skiplist.h:366-366 | The store into the predecessor keeps every level a sorted sublist of the level below, for the writer and all readers |
| `SkipList.LoadKeeps` | ZipR/Pods/leveldb-library/db/skiplist.h:260-281 | Each pointer load of a reader keeps its place on its level; the load that ends its search returns the first node at or after its key of the bottom list of that moment |
| `SkipList.RunLayered` | ZipR/Pods/leveldb-library/db/skiplist.h:260-368 | In every interleaving, between any two stores, every level is a sorted sublist of the level below |
| `SkipList.RunAnswers` | ZipR/Pods/leveldb-library/db/skiplist.h:260-281 | In every interleaving, a finished search answers from the bottom list of that moment |
| `SkipList.StepGrows` | ZipR/Pods/leveldb-library/db/skiplist.h:337-368 | The bottom list only ever grows, by the key being inserted |
| `HandleTable.Table.FindPointer` | ZipR/Pods/leveldb-library/util/cache.cc:114-120 | Finds the key's place in its chain exactly if the plain map has the key |
| `HandleTable.Table.Lookup` | ZipR/Pods/leveldb-library/util/cache.cc:74-76 | Answers as the plain map |
| `HandleTable.Table.Insert` | ZipR/Pods/leveldb-library/util/cache.cc:78-92 | Updates the plain map and returns the handle it replaced |
| `HandleTable.Table.Remove` | ZipR/Pods/leveldb-library/util/cache.cc:94-101 | Removes from the plain map and returns the handle |
| `HandleTable.Table.Resize` | ZipR/Pods/leveldb-library/util/cache.cc:122-147 | Rehashing keeps the plain map and makes the table at least as long as its contents |
| `LruCache.RefKeeps` | ZipR/Pods/leveldb-library/util/cache.cc:217-223 | Taking a reference keeps lists, counts, table and charge consistent, moving the entry to the in-use list when needed |
| `LruCache.UnrefKeeps` | ZipR/Pods/leveldb-library/util/cache.cc:225-237 | Dropping a client reference keeps them consistent; the deleter runs when and only when the last reference goes |
| `LruCache.EraseKeeps` | ZipR/Pods/leveldb-library/util/cache.cc:307-316 | Erasing a cached entry keeps them consistent and lowers the charge by the entry's |
| `LruCache.AddEraseCommute` | ZipR/Pods/leveldb-library/util/cache.cc:282-287 | Adding the new entry before erasing the one it replaces gives the same cache as the other order |
| `LruCache.Cache.Lookup` | ZipR/Pods/leveldb-library/util/cache.cc:252-259 | Returns the plain map's handle with one more reference, the entry being in use from then on; a miss changes nothing |
| `LruCache.Cache.Release` | ZipR/Pods/leveldb-library/util/cache.cc:261-264 | The entry is deleted exactly if this was its last reference; if only the cache holds it, it becomes the newest unreferenced one |
| `LruCache.Cache.Insert` | ZipR/Pods/leveldb-library/util/cache.cc:266-303 | The new entry is the map's answer with the charge given, one cache and one client reference; the charge in use is the old one plus the new less that of a replaced entry and of those evicted, and evicted are exactly the oldest unreferenced entries needed; without capacity the entry belongs to the client alone |
| `LruCache.Cache.InsertCached` | ZipR/Pods/leveldb-library/util/cache.cc:282-287 | Adds the entry with its charge and erases the one it replaces, whose charge is given back |
| `LruCache.Cache.Evict` | ZipR/Pods/leveldb-library/util/cache.cc:291-300 | Evicts exactly the oldest unreferenced entries that are needed, in age order, each deleted once and its charge given back |
| `LruCache.Cache.Erase` | ZipR/Pods/leveldb-library/util/cache.cc:318-321 | The key leaves the plain map and its charge is given back; client handles stay valid; a missing key changes nothing |
| `LruCache.Cache.Prune` | ZipR/Pods/leveldb-library/util/cache.cc:323-333 | All unreferenced entries are deleted in age order, those in use stay |
| `Varints.DecodeVarint` | ZipR/Pods/nanopb/pb_decode.c:250-270 | The shift-and-add loop computes the 64-bit value of the varint, or fails beyond ten bytes |
| `Varints.Decode64Reads` | ZipR/Pods/nanopb/pb_decode.c:250-270 | Decoding undoes encoding on every 64-bit number |
| `Varints.Decode32Reads` | ZipR/Pods/nanopb/pb_decode.c:182-242 | The 32-bit decoder undoes encoding on every 32-bit number |
| `Varints.DecodeVarint32` | ZipR/Pods/nanopb/pb_decode.c:182-242 | The loop with its overflow and sign-extension rules is the 32-bit decoder |
| `VarintAny.Decode32Bytes` | ZipR/Pods/nanopb/pb_decode.c:182-242 | On any bytes, however many: the value below 2 to the 32 is taken; beyond it the lowest 32 bits are, exactly if every further byte adds nothing or continues the sign; otherwise, or if no byte ends the number, it fails |
| `VarintAny.Decode32Any` | ZipR/Pods/nanopb/pb_decode.c:182-242 | A 64-bit number is read as itself if it fits, as its lowest 32 bits if bit 31 is set and the bits from 35 up look like a sign, and otherwise refused |
| `VarintAny.NegativeNarrows` | ZipR/Pods/nanopb/pb_decode.c:206-224 | The ten-byte encoding of a negative 32-bit number is accepted and comes back as that number |
| `VarintAny.Decode64Any` | ZipR/Pods/nanopb/pb_decode.c:250-270 | On any bytes: seven bits a byte, least significant first, up to ten bytes, modulo 2 to the 64; otherwise it fails |
| `Blocks.GetVarint32Reads` | ZipR/Pods/leveldb-library/util/coding.cc:112-140 | The five-byte decoder undoes encoding on every 32-bit number |
| `VarintAny.GetVarint32Any` | ZipR/Pods/leveldb-library/util/coding.cc:112-140 | On any bytes: seven bits a byte up to five bytes, modulo 2 to the 32; otherwise it fails |
| `Layouts.EntryLayout` | ZipR/Pods/leveldb-library/table/block_builder.cc:88-97 | An entry is shared length, own length, value length, the key's own bytes, the value |
| `Layouts.TrailerLayout` | ZipR/Pods/leveldb-library/table/block_builder.cc:62-70 | A block ends with its restart points and their number, four bytes each, low byte first |
| `Blocks.CommonPrefix` | ZipR/Pods/leveldb-library/table/block_builder.cc:80-85 | The scan finds the longest common prefix |
| `Blocks.BlockBuilder.Add` | ZipR/Pods/leveldb-library/table/block_builder.cc:72-106 | The buffer is the prefix-compressed layout of the old entries and the new one, with a restart point at every entry whose number is a multiple of the restart interval and at no other |
| `Blocks.BlockBuilder.Finish` | ZipR/Pods/leveldb-library/table/block_builder.cc:62-70 | The finished bytes are a block of exactly the entries added, restart points at every interval |
| `BlockIter.EntryDecodes` | ZipR/Pods/leveldb-library/table/block.cc:54-74 | A written entry decodes to its three lengths on the fast and on the slow path |
| `BlockIter.BlockIsLaid` | ZipR/Pods/leveldb-library/table/block.cc:19-41 | The trailer of a finished block names its entries' end and every restart point |
| `BlockIter.EntryParses` | ZipR/Pods/leveldb-library/table/block.cc:224-251 | From a key that has the shared prefix, parsing an entry rebuilds its key and finds its value and end |
| `BlockIter.Iter.ParseNextKey` | ZipR/Pods/leveldb-library/table/block.cc:224-251 | On a finished block moves to the next entry or ends; on any bytes it advances or stops |
| `BlockIter.Iter.Next` | ZipR/Pods/leveldb-library/table/block.cc:137-140 | Moves one entry on |
| `BlockIter.Iter.Prev` | ZipR/Pods/leveldb-library/table/block.cc:142-161 | Moves one entry back, across restart points, and off the front from the first |
| `BlockIter.Iter.Seek` | ZipR/Pods/leveldb-library/table/block.cc:163-201 | Lands on the first entry at or after the target, by binary search over restart points and a scan |
| `BlockIter.Iter.SeekToFirst` | ZipR/Pods/leveldb-library/table/block.cc:203-206 | Lands on the first entry |
| `BlockIter.Iter.SeekToLast` | ZipR/Pods/leveldb-library/table/block.cc:208-213 | Lands on the last entry |
| `BlockIter.Open` | ZipR/Pods/leveldb-library/table/block.cc:24-41 | Opens exactly if the bytes have room for the restart points they claim and claim at least one; every finished block does |
| `EditCodec.EncodeTo` | ZipR/Pods/leveldb-library/db/version_edit.cc:41-85 | Appends the fields in the source's order |
| `EditCodec.DecodeFrom` | ZipR/Pods/leveldb-library/db/version_edit.cc:107-205 | The parse loop on arbitrary bytes: the edit, or corruption for an unknown tag, a bad field or trailing bytes |
| `EditCodec.EditRoundTrip` | ZipR/Pods/leveldb-library/db/version_edit.cc:41-205 | Decoding an encoded edit gives the edit back if and only if the destination held no compaction pointers; otherwise they stay in front |
| `EditErrors.PrefixParsed` | ZipR/Pods/leveldb-library/db/version_edit.cc:107-205 | Whole fields in front of anything are taken in, in order, and parsing goes on behind them |
| `EditErrors.UnknownTagFails` | ZipR/Pods/leveldb-library/db/version_edit.cc:190-197 | A tag that no field has is corruption, behind any whole fields |
| `EditErrors.NoSuchLevelFails` | ZipR/Pods/leveldb-library/db/version_edit.cc:97-105 | So is a level that does not exist |
| `EditErrors.CutFieldFails` | ZipR/Pods/leveldb-library/db/version_edit.cc:107-205 | So is a last field cut at any byte |
| `Layouts.FieldLayout` | ZipR/Pods/leveldb-library/db/version_edit.cc:14-73 | The tag and layout of each field |
| `Layouts.FileLayout` | ZipR/Pods/leveldb-library/db/version_edit.cc:75-84 | A new file is tag 7, level, number, size, smallest and largest key |
| `Bloom.CreateFilter` | ZipR/Pods/leveldb-library/util/bloom.cc:28-54 | The filter has at least 64 bits, the bits per key rounded up to bytes, and the probe count behind; a bit is set if and only if it is a probe of some key |
| `Bloom.ProbeIs` | ZipR/Pods/leveldb-library/util/bloom.cc:45-51 | The j-th probe of a key is its hash plus j times its hash rotated by 17 bits, modulo 2 to the 32 |
| `Bloom.KeyMayMatch` | ZipR/Pods/leveldb-library/util/bloom.cc:56-80 | Answers true exactly if the filter is long enough and all probes hit set bits, or the probe count is reserved |
| `Bloom.NeverRejected` | ZipR/Pods/leveldb-library/util/bloom.cc:28-80 | No key of a filter is rejected by it |
| `FilterBlock.BloomIsComplete` | ZipR/Pods/leveldb-library/db/dbformat.cc:105-119 | The bloom policy meets what filter blocks ask of a policy |
| `FilterBlock.FilterBlockBuilder.StartBlock` | ZipR/Pods/leveldb-library/table/filter_block.cc:21-27 | Filters are generated until the one for the block's offset is next |
| `FilterBlock.FilterBlockBuilder.AddKey` | ZipR/Pods/leveldb-library/table/filter_block.cc:29-33 | The key waits for the filter of the current block's offset |
| `FilterBlock.FilterBlockBuilder.GenerateFilter` | ZipR/Pods/leveldb-library/table/filter_block.cc:51-75 | The waiting keys get their filter; earlier filters are untouched |
| `FilterBlock.FilterBlockBuilder.Finish` | ZipR/Pods/leveldb-library/table/filter_block.cc:35-49 | The finished bytes hold every filter where the reader will look |
| `FilterBlock.KeyMayMatch` | ZipR/Pods/leveldb-library/table/filter_block.cc:77-104 | A key added for a data block matches under that block's offset; on any bytes a key is rejected exactly if the two words for the offset name an empty range or a range of the filters that the policy rejects |
| `SortedTables.SeparatorParts` | ZipR/Pods/leveldb-library/db/dbformat.cc:69-86 | The shortened separator is the last key itself or the earliest position of a user key strictly between the two blocks |
| `SortedTables.WellIndexedIndexes` | ZipR/Pods/leveldb-library/table/table_builder.cc:94-123 | The separators index the blocks: each is at or after its block and before everything later |
| `SortedTables.TableBuilder.Add` | ZipR/Pods/leveldb-library/table/table_builder.cc:94-123 | The delayed index entry is written once the next key is known, and the key goes into the filter of its block |
| `SortedTables.TableBuilder.Flush` | ZipR/Pods/leveldb-library/table/table_builder.cc:125-139 | The data block is written and its index entry left pending |
| `SortedTables.TableBuilder.Finish` | ZipR/Pods/leveldb-library/table/table_builder.cc:198-253 | The finished table holds exactly the entries added, well indexed and filtered |
| `SortedTables.LookupInBlock` | ZipR/Pods/leveldb-library/table/table.cc:216-244 | The one block the index names decides the lookup, although separators are shortened |
| `SortedTables.InternalGet` | ZipR/Pods/leveldb-library/table/table.cc:216-244 | Index, filter and block give exactly the answer of a linear search of the whole table |
| `WriteBatches.WriteBatch.Add` | ZipR/Pods/leveldb-library/db/write_batch.cc:98-109 | The count goes up by one and the update is appended |
| `WriteBatches.WriteBatch.Append` | ZipR/Pods/leveldb-library/db/write_batch.cc:144-148 | Counts add up and the updates are concatenated, the sequence number kept |
| `WriteBatches.WriteBatch.RoundTrip` | ZipR/Pods/leveldb-library/db/write_batch.cc:42-80 | Iterating over a batch gives the updates put into it |
| `WriteBatches.InsertInto` | ZipR/Pods/leveldb-library/db/write_batch.cc:42-137 | Replay numbers the updates consecutively from the sequence number in the header; it fails exactly on a malformed batch, and then the updates before the error stay inserted |
| `BatchErrors.UnknownKindStops` | ZipR/Pods/leveldb-library/db/write_batch.cc:72-74 | An unknown kind of update is corruption, and exactly the whole updates before it are inserted |
| `BatchErrors.CutUpdateStops` | ZipR/Pods/leveldb-library/db/write_batch.cc:52-71 | So is an update cut at any byte |
| `BatchErrors.WrongCountRefused` | ZipR/Pods/leveldb-library/db/write_batch.cc:75-79 | A count in the header that is not the number of updates is corruption, found only after all of them are inserted |
| `Layouts.UpdateLayout` | ZipR/Pods/leveldb-library/db/write_batch.cc:98-109 | A put is 1, key, value, a deletion is 0, key, each with its length before it |
| `LogReplay.RepIsBatch` | ZipR/Pods/leveldb-library/db/write_batch.cc:82-109 | The bytes a write batch has built are determined by its sequence number and its updates |
| `LogReplay.RecoverLogFile` | ZipR/Pods/leveldb-library/db/db_impl.cc:412-453 | The recovery loop inserts what the records that the log reader delivers put into a memtable; from a log cut at any byte these are the operations of the whole records, and the largest sequence number found is the greater of the one before and that of the last operation inserted |
| `LogReplay.MaxIsEnd` | ZipR/Pods/leveldb-library/db/db_impl.cc:435-438 | Over whole batches the largest sequence number is that of the last operation of the last one, not its first |
| `LogReplay.ReplayedIsRange` | ZipR/Pods/leveldb-library/db/db_impl.cc:412-453 | Replaying whole batches gives exactly the entries of their operations |
| `LogReplay.TornLogRange` | ZipR/Pods/leveldb-library/db/db_impl.cc:371-453 | For every byte prefix of a log, reading it and inserting its batches gives exactly the entries of the operations whose records are whole: a prefix of what was logged, cut where a group ends |
| `LogReplay.TornAppend` | ZipR/Pods/leveldb-library/db/db_impl.cc:1213-1216 | A crash in the middle of appending a record is a crash before it |
| `ProtoRoundTrip.NumReads` | ZipR/Pods/nanopb/pb_decode.c:1289-1372 | Every integer and fixed-width value comes back, at every size, sign extension and zigzag included |
| `ProtoRoundTrip.PackedReads` | ZipR/Pods/nanopb/pb_decode.c:416-446 | A packed array is read back item by item up to its end |
| `ProtoRoundTrip.ZeroIsDefault` | ZipR/Pods/nanopb/pb_encode.c:215-303 | A submessage that counts as zero is the default message, so leaving it out loses nothing present |
| `ProtoRoundTrip.ImplicitScalarKept` | ZipR/Pods/nanopb/pb_encode.c:215-303 | An implicit number or string that is not sent is the default it comes back as |
| `ProtoRoundTrip.ZeroIsUnset` | ZipR/Pods/nanopb/pb_encode.c:215-303 | A number or string counts as zero, and is not sent when implicit, exactly if it is what an unset member holds; fixed-length bytes count as nonzero whatever they hold |
| `ProtoRoundTrip.OneStep` | ZipR/Pods/nanopb/pb_decode.c:918-1000 | A tagged field at the front of the input is decoded into its member and the loop goes on behind it |
| `ProtoRoundTrip.ValueReads` | ZipR/Pods/nanopb/pb_decode.c:1391-1507 | Every present value comes back, nested submessages included |
| `ProtoRoundTrip.MessageReads` | ZipR/Pods/nanopb/pb_decode.c:901-1049 | Members decoded in order fill the destination, the rest at their defaults; required fields are all seen |
| `ProtoRoundTrip.MessageRoundTrip` | ZipR/Pods/nanopb/pb_decode.c:1051-1063 | Decoding an encoded message gives it back: presence flags, counts, oneof choices and present values |
| `ProtoTextFits.EncodedStorable` | ZipR/Pods/nanopb/pb_encode.c:831-853 | A message that encodes can be stored by the decoder exactly if each present string leaves room for its terminator |
| `ProtoTextFits.RoundTripExactly` | ZipR/Pods/nanopb/pb_decode.c:1428-1459 | Decoding an encoded message gives it back if and only if every present string is shorter than its member; otherwise the decoder reports an error |
| `ProtoEvolution.UnknownSkipped` | ZipR/Pods/nanopb/pb_decode.c:316-326 | A field that the descriptor does not have, of any of the four wire types, is passed over as if it were not there |
| `ProtoEvolution.OddWireFails` | ZipR/Pods/nanopb/pb_decode.c:316-326 | With any other wire type it is an error |
| `ProtoEvolution.FieldSkipped` | ZipR/Pods/nanopb/pb_decode.c:918-960 | Every encoded field whose tag the reading descriptor does not have is passed over, repeated and packed ones included |
| `ProtoEvolution.DecodesCommon` | ZipR/Pods/nanopb/pb_decode.c:901-1063 | A message encoded under one descriptor and decoded under another that agrees on shared tags gives exactly the shared fields, the rest at defaults; it fails if and only if a required field of the second, among its first 64, is not in the first |
| `ProtoEvolution.RequiredCounts` | ZipR/Pods/nanopb/pb_decode.c:1012-1046 | A required field is looked for exactly if fewer than 64 required ones come before it |
| `ProtoRules.LastOneCounts` | ZipR/Pods/nanopb/pb_decode.c:401-475 | Of several occurrences of a field that holds no message the last one counts |
| `ProtoRules.UnpackedItem` | ZipR/Pods/nanopb/pb_decode.c:449-458 | An unpacked item of a packable array is appended, or refused if the array is full |
| `ProtoRules.PackedRun` | ZipR/Pods/nanopb/pb_decode.c:416-446 | A packed run appends its items one by one and fails beyond the array's end |
| `ProtoRules.ZeroTagEnds` | ZipR/Pods/nanopb/pb_decode.c:305-309 | A zero tag ends the message |
| `ProtoRules.NumberRefused` | ZipR/Pods/nanopb/pb_decode.c:1289-1372 | A number that does not fit its member is an error |
| `ProtoRules.BytesRefused` | ZipR/Pods/nanopb/pb_decode.c:1391-1507 | So are bytes too long for their member, a string without room for its terminator, and a fixed-length field of another length, which may only be empty |
| `ProtoRules.FullText` | ZipR/Pods/nanopb/pb_decode.c:1428-1459 | A string that fills its member is encoded in full and then refused by the decoder |
| `ProtoRules.NumberSizes` | ZipR/Pods/nanopb/pb_decode.c:1289-1372 | Integer members of one, two, four and eight bytes hold exactly the numbers that so many bytes can, signed or unsigned |
| `ProtoRules.WireExamples` | ZipR/Pods/nanopb/pb_encode.c:596-680 | Tags, varints, zigzag and fixed-width numbers are laid out as the Protocol Buffers encoding guide shows them |
| `ProtoRoundTrip.NormalKeeps` | ZipR/Pods/nanopb/pb_decode.c:401-475 | What comes back has the same presence flags, oneof choices and counts, and the same present values |
| `ProtoRoundTrip.StorableEncodes` | ZipR/Pods/nanopb/pb_encode.c:494-516 | A message whose present values fit their members encodes without error |
| `ProtoStream.VarintBytes` | ZipR/Pods/nanopb/pb_encode.c:574-594 | The encoding loop produces the varint |
| `ProtoStream.VarintFits` | ZipR/Pods/nanopb/pb_encode.c:574-594 | The ten-byte buffer holds every 64-bit varint |
| `ProtoStream.OStream.Write` | ZipR/Pods/nanopb/pb_encode.c:101-119 | Succeeds exactly if the bytes fit; a sizing stream only counts |
| `ProtoStream.OStream.EncodePacked` | ZipR/Pods/nanopb/pb_encode.c:126-180 | The size written before a packed array is the size of what follows, on sizing and writing streams |
| `ProtoStream.OStream.EncodeSubmessage` | ZipR/Pods/nanopb/pb_encode.c:682-730 | The real pass writes exactly the bytes the sizing pass counted, so the size check behind it never fails; succeeds exactly if they fit |
| `ProtoStream.OStream.EncodeFieldTo` | ZipR/Pods/nanopb/pb_encode.c:307-392 | Emits exactly the field's encoding, or fails exactly on an oversized value or a full stream |
| `ProtoStream.OStream.EncodeMessage` | ZipR/Pods/nanopb/pb_encode.c:494-516 | Emits exactly the message's encoding, or fails exactly on an oversized value or a full stream, at every depth |
| `ProtoStream.GetEncodedSize` | ZipR/Pods/nanopb/pb_encode.c:533-542 | The size reported is the length of the encoding |
| `ProtoStream.EncodeToBuffer` | ZipR/Pods/nanopb/pb_encode.c:84-99 | A buffer of at least that size receives the whole encoding, a smaller one is refused |
| `ProtoInput.IStream.MakeSubstream` | ZipR/Pods/nanopb/pb_decode.c:367-397 | The substream is the length-prefixed run and the parent goes on behind it |
| `ProtoInput.IStream.ReadPacked` | ZipR/Pods/nanopb/pb_decode.c:416-446 | Items until the substream is empty; more than the array holds is an error |
| `ProtoInput.IStream.ReadField` | ZipR/Pods/nanopb/pb_decode.c:401-475 | On every input the member changes as the decoding function says |
| `ProtoInput.IStream.ReadMessage` | ZipR/Pods/nanopb/pb_decode.c:901-1049 | On every input the loop over tags, with unknown fields skipped and the required check at the end, gives the decoding function's message or its failure |

## Left out

- The Swift code of the app and TagListView: user interface and Firebase calls, no property of this kind.
- AppAuth, GTMAppAuth, GTMSessionFetcher and Firebase: headers only.
- `repair.cc`: it puts every table at level 0, outside the order that reads rely on.
- `c.cc`, `dumpfile.cc`, `filename.cc`, `table_cache.cc`, environments and ports: wrappers and I/O. Files are byte or entry sequences.
- I/O errors, background errors, `paranoid_checks` and `reuse_logs`.
- StoreRecovery.CrashKeeps: a crash of the process, after which every write to a log is still there. Loss of unsynced records is the subject of StoreLoss, which ends with what the reopened store reads; runs that go on after such a loss are not modelled, since sequence numbers then have gaps.
- Loss of unsynced tables, manifest records or directory entries: the source syncs tables and manifest before it relies on them.
- Corrupt internal keys inside compactions and iterators; corruption is modelled for logs, blocks, manifest records, batches and filters.
- Scores, seek statistics, read sampling, delays and stop triggers: which compaction runs, and when, is a free choice.
- The place where a compaction output is cut (`ShouldStopBefore`, target size) is a free choice; every cut is covered.
- CRC32C and the bloom and cache hashes are arbitrary functions; the checksum composes over concatenation. Snappy is taken as absent.
- Block handles, footer and metaindex of a table: `SortedTables` works on lists of blocks whose byte form is proved in `Blocks`.
- Weak memory ordering: skip-list loads and stores interleave one at a time.
- The circular links of the snapshot list and of the two LRU lists are sequences here; update of the links in place is not captured.
- StoreRuns.RunKeepsInv: ranges over runs whose compactions start on inputs without a gap and leave no older entry for a selected key at the output level, because without either the property is false; the exact conditions are GapFlush.EveryCut and CompactionPreservesReads.
- StoreBackground.StartJobKeeps: for such compactions only, for the same reason.
- StoreRuns.StepKeeps: likewise.
- The four iterators are proved each over the sequence below it; that a table's bytes, opened block by block under a merging iterator, are that sequence is not composed into one statement.
- LogIo.LogReader.ReadRecord: starts at the beginning of the file; reading from a later initial offset, with its resynchronisation, is not modelled.
- BlockIter.EntryDecodes: the 32-bit wrap-around of corrupt lengths in a block entry is not modelled.
- Varints.DecodeVarint32: the source counts bits in a type that may be eight bits wide, which would wrap around after 36 continuation bytes; the model counts without bound.
- ProtoRoundTrip.MessageRoundTrip: for encodings below 4 GiB, since lengths are read as 32-bit numbers.
- nanopb callbacks, extensions, pointer fields, fixed-count arrays and struct offsets: a message is a typed tree that follows its descriptor.
- Sharding of the cache by hash bits, and the key encoding inside memtable entries: they would only add easy members.
