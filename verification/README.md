# LevelDB and nanopb, modelled and proved

The application carries two C and C++ libraries with it. It keeps its data through a
storage engine, LevelDB (`tasker/Pods/leveldb-library`), of which this project proves what
its users rely on: a read at a snapshot gives what their own writes up to it give, after
any mixture of flushes, compactions, file deletions and crashes. It exchanges messages
through a protobuf codec, nanopb (`tasker/Pods/nanopb`), of which it proves that the
decoder gives back what the encoder was given.

## The engine

An entry is a user key, a sequence number, a kind (value or deletion) and a value. What a
read means needs no storage layout (`Visibility`): of the entries of a key no newer than
the snapshot the newest decides, and a deletion means absent. Everything below is proved
against that.

* **Tables in levels.** `Versions` has the seven levels, the tree invariant (levels 1 and
  up are sorted and disjoint; for one user key everything in a shallower level, or in a
  level-0 table with a higher number, is newer than everything deeper) and the read with
  its early exit. `CompactionInputs` picks and widens inputs, `CompactionWork` merges,
  drops and cuts them, `VersionSteps` says what that does to the tree and to reads,
  `FlushAndMove` covers the two cheaper changes, `VersionEdits` the builder,
  `InputMerge` the scan that merges the inputs, `RunningCompaction` what may be flushed
  between a compaction's start and its end.
* **The database.** `Database` is the state: memtables, logs, tables, manifest, snapshots,
  iterators and pending outputs, and its invariant. `WriteSteps`, `BackgroundSteps` and
  `RecoverySteps` show that every step keeps it, `Runs` puts them together, and `Engine`
  and `Recovery` are the algorithms of `DBImpl` that perform the steps.
* **Iterators.** `DbIterator`, `Merger` and the two-level iterator of `Tables` are cursors
  that may turn round at any time; `DbScan` puts the first two together over a database.
* **Files.** `LogFormat` and `LogReader` (the framed log), `Blocks` (prefix compression and
  restart points), `Tables` (shortened index keys), `Filters` (Bloom filters), `EditCodec`
  (manifest records), `WriteBatches`, `Coding`, `Crc32c`. `StoredTables` shows that blocks of
  bytes answer as their entries and that the default comparator shortens as `Tables` asks,
  `TableFormat` and `TableFiles` that whole table files do, `StoredFiles` that log and
  manifest files, cut anywhere, read as the batches and edits the database is stated over.
  `DamagedLog` and `LogLosses` are about files changed in other ways, `AcceptedBytes` says
  which bytes are a batch or a manifest record at all, and `KnownBytes` has examples of every
  format byte by byte.
* **Sharing.** `WriterQueue` and `QueueProgress` (group commit, one step per critical
  section), `SkipList` (one writer and any number of readers, one step per store or load),
  `Cache` and its `HandleTable`.

## The codec

`PbTypes` has descriptors, the structs they describe and the field iterator; `PbVarints`
single numbers; `PbEncode` what a message is on the wire and the stream methods that write
it, with a counting pass before every submessage and packed array; `PbDecode` the decoder and
its stream methods; `PbMeaning` says what bytes the decoder takes and what they mean,
without the decoder's own functions. `PbReading` has the encodings of a struct, with
whatever fields the descriptor does not know, and shows that they are read; `PbRoundTrip`
applies that to what the encoder writes, for the same descriptor and for one that lacks
some of its fields. `PbAccepted` and `PbMerge` are about decoding anything at all.

## What came out

Reads are preserved by a compaction if and only if it exposes no key
(`VersionSteps.ReadsPreservedIff`). A key is exposed when a deletion of it is dropped
while an older value stays behind in a table of the lower level that shares the boundary
user key with an input but is not an input itself. The comment at
`db/version_set.cc:1364-1377` asks for such tables to be drawn in, and the code does it
for the upper level only: `SetupOtherInputs` calls `AddBoundaryInputs` on the upper inputs
(lines 1407 and 1422) and never on the lower ones. `BoundaryDefect` is a store that meets
every invariant and on which such a compaction, written out step by step, makes a deleted
value readable again, and `DefectRun` reaches that store from a new database.
`VersionSteps.WidenedInputsPreserveReads` shows that widening the lower inputs as well
excludes it: for every store and every choice of inputs made that way nothing is exposed,
all reads are preserved and the tree invariant is kept; `BoundaryDefect.DeletedValueStaysDeleted`
is the case of the store above.

A compaction lets a flush in while it runs (`db/db_impl.cc:909-922`), and the flushed table
may sink as deep as level 2 past everything it does not overlap. Installing the compaction
keeps the levels sorted if and only if none of its outputs overlaps a table flushed to
their level meanwhile (`RunningCompaction.InstallKeepsTreeIff`). Inputs that leave no gap
rule that out, and every compaction the engine picks by itself has such inputs
(`CompactionInputs.PickCompaction`, `Runs.GaplessRunsNeverClash`). One asked for by hand
may take two tables that lie apart. `ClashRun.WrittenKeyIsLost` is a run from a new
database in which a key is written and flushed into the gap, the output then reaches over
it, and the search of the level no longer finds the key; a debug build would stop at the
check in `db/version_set.cc:723-737`.

The theorem about the reads of whole runs assumes that no compaction of the run exposes
anything or clashes, and nothing else about which compactions run. `DefectRun.DeletedValueIsRead`
and `ClashRun.WrittenKeyIsLost` show that it needs both.

`VersionEdit::Clear` leaves the compaction pointers in place (`db/version_edit.cc:28-39`),
so an edit decoded into an object that has some keeps them in front of its own;
`EditCodec.DecodeRecovers` says that this is the only way an edit of existing levels does not come back.

nanopb writes a string that fills its array without a terminator and refuses to read it
back (`pb_encode.c:875-899`, `pb_decode.c:1476-1496`). `PbRoundTrip.RoundTrip` says that
this is the only way a struct that can be encoded, in less than 4 GiB, does not come back.
Its reader for 32-bit varints keeps the bit position in eight bits, so the 38th byte of one
varint lands in the value again (`PbVarints.LongVarintWraps`).

The log reader marks the end of a file and a bad record with the two numbers after the last
fragment type (`db/log_reader.h:64-72`), and compares the type byte of a fragment with
them. A fragment of type 5 therefore ends reading wherever it stands, and one of type 6 is
passed over without a report. No writer produces them; `DamagedLog.DamageIsConfined` needs
that damaged blocks do not contain the first, and `DamagedLog.FalseEndHidesTheRest` shows why.

A merging iterator that turns round skips the copies of the current key in other children;
`Merger.TurnForwardIff` and `Merger.TurnBackIff` say exactly when that happens.

## How the model reads

* A user key is a real number: its position in the comparator's order. The engine looks at
  user keys only through the comparator, and any total preorder on byte strings has such
  positions; `Comparators` gives them for the bytewise one. Values are bytes.
* Bits of 32-bit words are sequences in `Crc32c`; elsewhere 32-bit numbers are integers in
  range, with wrap-around written out.
* Methods that loop or assign in the source are methods here, on classes where the source
  has objects. Fields marked ghost, and the fields called history, are looked at by no step.
* Which level or range a compaction is asked for, when a memtable is full and how large a
  table becomes are parameters, so the theorems hold for every choice.
* Sequence numbers stay below 2^56 - 1. `kMaxSequenceNumber` marks "no earlier entry of this
  key" in the compaction loop, so a snapshot with that number would be misread.

## Model

| member | source | states |
|---|---|---|
| `InternalKeys.CompareIsLess` | tasker/Pods/leveldb-library/db/dbformat.cc:51-67 | comparing user keys and then packed tags downwards is exactly: smaller key, or same key and newer; only identical internal keys compare equal |
| `InternalKeys.SeekSkipsTooNew` | tasker/Pods/leveldb-library/db/dbformat.h:53-60 | a seek for a key at a snapshot skips exactly the smaller keys and the entries too new to see |
| `Comparators.PositionIsOrder` | tasker/Pods/leveldb-library/util/comparator.cc:25-27 | the position standing for a user key orders byte strings as the bytewise comparator does, and keeps different strings apart |
| `Comparators.FindShortestSeparator` | tasker/Pods/leveldb-library/util/comparator.cc:29-50 | the separator lies in [start, limit) whenever start is before limit; it is start itself, or, if the first differing byte can go up by one and stay below limit's, the key that ends there, than which no separator is shorter |
| `Comparators.NoneShorterBetween` | tasker/Pods/leveldb-library/util/comparator.cc:29-50 | no string that ends at or before the first difference of two keys lies between them |
| `Comparators.FindShortSuccessor` | tasker/Pods/leveldb-library/util/comparator.cc:52-64 | the first byte other than 0xff goes up by one and ends the successor, which is at or after the key; a run of 0xff bytes is its own |
| `Versions.FindFile` | tasker/Pods/leveldb-library/db/version_set.cc:88-106 | binary search; on a sorted level it finds the first table whose largest key is at or after the target |
| `Versions.SearchSortedLevel` | tasker/Pods/leveldb-library/db/version_set.cc:365-379 | the one table a read looks into decides what a sorted level says |
| `Versions.TableGetFindsNewest` | tasker/Pods/leveldb-library/db/version_set.cc:263-276 | the entry a seek into a sorted table lands on decides the newest visible entry of that table for the key |
| `Versions.OverlappingNewestFirst` | tasker/Pods/leveldb-library/db/version_set.cc:349-363 | exactly the level-0 tables whose range holds the key are searched, highest number first |
| `Versions.FirstHitIsNewest` | tasker/Pods/leveldb-library/db/version_set.cc:336-421 | under the tree invariant a hit in a level is newer than anything in deeper levels, so the search may stop |
| `Versions.Get` | tasker/Pods/leveldb-library/db/version_set.cc:326-421 | under the tree invariant the level-by-level search with early exit answers as the newest visible one of all entries of the version does |
| `CompactionInputs.GetOverlappingInputs` | tasker/Pods/leveldb-library/db/version_set.cc:519-559 | the restarting search terminates and returns, in order, the tables of the least range that holds the given one and, at level 0, every table it overlaps |
| `CompactionInputs.WideningIsNeeded` | tasker/Pods/leveldb-library/db/version_set.cc:537-553 | each restart widens the range only as far as any overlap-closed range has to go |
| `CompactionInputs.GetRange` | tasker/Pods/leveldb-library/db/version_set.cc:1205-1224 | the range returned is the smallest and the largest internal key of the inputs |
| `CompactionInputs.FindLargestKey` | tasker/Pods/leveldb-library/db/version_set.cc:1326-1340 | the largest key of the tables, if there are any |
| `CompactionInputs.FindSmallestBoundaryFile` | tasker/Pods/leveldb-library/db/version_set.cc:1344-1362 | the table with the smallest start among those that begin right after a key with the same user key; None only if there is none |
| `CompactionInputs.AddBoundaryInputs` | tasker/Pods/leveldb-library/db/version_set.cc:1378-1401 | the loop terminates, keeps the given inputs, adds only level tables, and leaves none that continues the largest user key |
| `CompactionInputs.AfterBoundary` | tasker/Pods/leveldb-library/db/version_set.cc:1364-1401 | in a sorted level the widened inputs are isolated: no table left behind shares a user key with them |
| `CompactionInputs.ExpandInputs` | tasker/Pods/leveldb-library/db/version_set.cc:1419-1422 | the upper tables overlapping the range of all inputs, widened to their boundary tables, include the inputs and leave no neighbour sharing a user key |
| `CompactionInputs.GrowInputs` | tasker/Pods/leveldb-library/db/version_set.cc:1417-1447 | the upper inputs become the boundary closure of the tables overlapping the whole range exactly if that has more tables, stays within the size limit and draws in no further lower table; otherwise they stay as they are |
| `CompactionInputs.FindGrandparents` | tasker/Pods/leveldb-library/db/version_set.cc:1449-1454 | the tables two levels down that overlap the whole range |
| `CompactionInputs.SetupOtherInputs` | tasker/Pods/leveldb-library/db/version_set.cc:1403-1462 | from any starting inputs: the upper inputs are widened to their boundary tables, the lower ones are those overlapping their range, and the upper ones then grow exactly when the limits allow it; the choice is well chosen |
| `CompactionInputs.WellChosenIsCompactable` | tasker/Pods/leveldb-library/db/version_set.cc:1403-1462 | what the lower level keeps lies wholly before or wholly after the inputs: the choice the code makes can be compacted |
| `CompactionInputs.WidenedIsCompactable` | tasker/Pods/leveldb-library/db/version_set.cc:1364-1401 | so can the choice with the lower inputs widened too, and no table left behind shares a user key with those |
| `CompactionInputs.PickFile` | tasker/Pods/leveldb-library/db/version_set.cc:1282-1297 | a size-triggered compaction starts from the first table past the pointer, or wraps to the first table |
| `CompactionInputs.TablesTakeTurns` | tasker/Pods/leveldb-library/db/version_set.cc:1456-1461 | size-triggered compactions of a level go round: where the last one ended the next table is picked, and after the last table the first |
| `CompactionInputs.ClosureJoins` | tasker/Pods/leveldb-library/db/version_set.cc:519-559 | the tables of the least closed range around tables without gaps leave no gap either: no key between two of them is outside all of them |
| `CompactionInputs.BoundaryJoins` | tasker/Pods/leveldb-library/db/version_set.cc:1378-1401 | adding boundary tables leaves no gap |
| `CompactionInputs.PickCompaction` | tasker/Pods/leveldb-library/db/version_set.cc:1270-1322 | whatever triggers it, a picked compaction starts from the table the trigger names, at level 0 with all it overlaps, and is set up from there; its inputs are well chosen and leave no gap |
| `CompactionInputs.SizeLimitedPrefix` | tasker/Pods/leveldb-library/db/version_set.cc:1472-1487 | a manual compaction of a deep level takes the shortest prefix that reaches the size limit; level 0 is never cut |
| `CompactionInputs.CompactRange` | tasker/Pods/leveldb-library/db/version_set.cc:1464-1495 | a manual compaction starts from the tables in the range, cut at the size limit below level 0, and its inputs are well chosen; or there is nothing in the range |
| `CompactionWork.KeptMembers` | tasker/Pods/leveldb-library/db/db_impl.cc:929-962 | what survives a compaction is exactly the input entries that neither drop rule names |
| `CompactionWork.KeptExactly` | tasker/Pods/leveldb-library/db/db_impl.cc:942-962 | an entry survives if and only if no newer one of its key is old enough for every snapshot, and, if it is a deletion every snapshot sees, some table two or more levels further down has its key between its smallest and largest keys |
| `CompactionWork.HiddenMeans` | tasker/Pods/leveldb-library/db/db_impl.cc:929-945 | comparing with the entry before is asking whether any newer entry of the key is visible to every snapshot |
| `CompactionWork.KeptSorted` | tasker/Pods/leveldb-library/db/db_impl.cc:906-999 | what survives is still in internal key order |
| `CompactionWork.CutTablesAreDisjoint` | tasker/Pods/leveldb-library/db/db_impl.cc:970-1006 | tables cut from one sorted run do not overlap, and each is well formed |
| `CompactionWork.CompactionJob.IsBaseLevelForKey` | tasker/Pods/leveldb-library/db/version_set.cc:1533-1552 | with pointers that only move forward, the answer is whether any deeper table covers the key, for keys asked in ascending order |
| `CompactionWork.CompactionJob.ShouldStopBefore` | tasker/Pods/leveldb-library/db/version_set.cc:1554-1576 | the pointer into the grandparents only moves forward and the running overlap is what was passed since the last cut |
| `CompactionWork.CompactionJob.ShouldDrop` | tasker/Pods/leveldb-library/db/db_impl.cc:936-963 | an entry is dropped exactly if a newer one is visible to every snapshot, or it is a visible-to-all deletion with no table below whose range has its key |
| `CompactionWork.CompactionJob.Run` | tasker/Pods/leveldb-library/db/db_impl.cc:878-1036 | the tables hold exactly the entries that must stay, in order, with fresh numbers; each was cut as soon as it was big enough, overlaps at most ten target sizes of grandparents, and except the last was closed for one of these reasons |
| `VersionSteps.ReadsPreserved` | tasker/Pods/leveldb-library/db/db_impl.cc:942-962 | a compaction leaves the answer for a key at every live snapshot as it was, if it exposes nothing of the key |
| `VersionSteps.ExposedReadChanges` | tasker/Pods/leveldb-library/db/version_set.cc:1403-1462 | if it does expose the key, the read at the oldest snapshot changes |
| `VersionSteps.ReadsPreservedIff` | tasker/Pods/leveldb-library/db/db_impl.cc:878-1036 | all reads at and above the oldest snapshot are preserved if and only if no key has a dropped deletion with an older value left behind in a lower-level table that was not an input |
| `VersionSteps.IsolatedInputsExposeNothing` | tasker/Pods/leveldb-library/db/version_set.cc:1364-1377 | if no table left behind in the output level continues the largest user key of the inputs from it, no key is exposed |
| `VersionSteps.WidenedInputsPreserveReads` | tasker/Pods/leveldb-library/db/version_set.cc:1364-1401 | with the lower inputs widened to their boundary tables like the upper ones, no key is exposed, the tree invariant is kept and every read at and above the oldest snapshot is preserved |
| `VersionSteps.ReplaceKeepsTree` | tasker/Pods/leveldb-library/db/version_set.cc:1403-1462 | replacing the inputs, chosen either way, by sorted outputs with only their entries keeps every clause of the tree invariant |
| `VersionSteps.CompactionGivesGoodOutputs` | tasker/Pods/leveldb-library/db/db_impl.cc:878-1036 | the tables a compaction writes are disjoint, sorted and hold only input entries |
| `VersionSteps.CompactionGivesCompactedStore` | tasker/Pods/leveldb-library/db/db_impl.cc:860-876 | installing them gives the store that the read theorems speak of |
| `RunningCompaction.InstallKeepsTreeIff` | tasker/Pods/leveldb-library/db/db_impl.cc:860-876 | tables may have been flushed while the compaction ran; installing keeps the tree invariant if and only if no output overlaps one flushed to its level |
| `RunningCompaction.JoinedNeverClashes` | tasker/Pods/leveldb-library/db/db_impl.cc:909-922 | inputs that leave no gap give no output that overlaps such a table |
| `RunningCompaction.InstallGivesCompactedStore` | tasker/Pods/leveldb-library/db/db_impl.cc:909-922 | to reads, what was flushed meanwhile is as if it had not reached the tables, so the read theorems hold of the version the compaction started from |
| `BoundaryDefect.StoreIsGood` | tasker/Pods/leveldb-library/db/version_set.cc:1403-1462 | a concrete store that meets the whole tree invariant |
| `BoundaryDefect.DeletedValueReturns` | tasker/Pods/leveldb-library/db/version_set.cc:1403-1462 | on that store every compaction of level 2 the code can choose, cut into tables in any way, makes a deleted key readable again |
| `BoundaryDefect.DefectHappens` | tasker/Pods/leveldb-library/db/version_set.cc:1403-1462 | one such compaction written out, from its inputs to the version installed: the key is absent before and has its old value after |
| `BoundaryDefect.NeighbourIsTaken` | tasker/Pods/leveldb-library/db/version_set.cc:1364-1401 | on that store widening the lower inputs takes the table left behind |
| `BoundaryDefect.DeletedValueStaysDeleted` | tasker/Pods/leveldb-library/db/version_set.cc:1364-1401 | and after every compaction of level 2 with widened lower inputs the key is still absent |
| `FlushAndMove.SomeFileOverlapsRange` | tasker/Pods/leveldb-library/db/version_set.cc:122-157 | true exactly if some table overlaps the range, by scan or by binary search |
| `FlushAndMove.PickLevelForMemTableOutput` | tasker/Pods/leveldb-library/db/version_set.cc:491-516 | the level chosen for a flushed memtable is at most 2, and no table of that level or above overlaps it unless it is level 0 |
| `FlushAndMove.FlushKeepsTree` | tasker/Pods/leveldb-library/db/db_impl.cc:491-533 | adding a flushed table at such a level keeps the tree invariant and adds exactly its entries |
| `FlushAndMove.TrivialMoveKeepsTree` | tasker/Pods/leveldb-library/db/db_impl.cc:718-735 | moving the only input down a level keeps the tree invariant and every entry |
| `VersionEdits.OrderedLevelIsUnique` | tasker/Pods/leveldb-library/db/version_set.cc:592-604 | two levels with the same tables in the builder's order are equal |
| `VersionEdits.Builder.Apply` | tasker/Pods/leveldb-library/db/version_set.cc:650-692 | an edit's deletions and additions are recorded against what was recorded before |
| `VersionEdits.Builder.SaveLevel` | tasker/Pods/leveldb-library/db/version_set.cc:694-738 | the merge of base and added tables is ordered and holds exactly the tables not deleted |
| `VersionEdits.Replay` | tasker/Pods/leveldb-library/db/version_set.cc:886-1011 | one builder fed a whole edit history gives the version that a fresh builder per edit gives, if no level and number pair is added twice |
| `VersionEdits.ApplyEdit` | tasker/Pods/leveldb-library/db/version_set.cc:801-827 | applying one edit gives the version the edit describes |
| `WriteSteps.WriteKeepsInv` | tasker/Pods/leveldb-library/db/db_impl.cc:1200-1237 | logging and applying a group keeps the database invariant |
| `WriteSteps.WriteStaysFaithful` | tasker/Pods/leveldb-library/db/db_impl.cc:1200-1237 | and the store still answers every live snapshot as the history of writes does |
| `WriteSteps.SwitchKeepsInv` | tasker/Pods/leveldb-library/db/db_impl.cc:1345-1366 | switching to a new memtable and log keeps the invariant |
| `WriteSteps.GetSnapshotKeepsInv` | tasker/Pods/leveldb-library/db/db_impl.cc:1166-1169 | taking a snapshot keeps the invariant |
| `WriteSteps.ReleaseSnapshotKeepsInv` | tasker/Pods/leveldb-library/db/db_impl.cc:1171-1175 | releasing one keeps it |
| `WriteSteps.HoldKeepsInv` | tasker/Pods/leveldb-library/db/db_impl.cc:1062-1087 | an iterator that holds on to the current version keeps it |
| `WriteSteps.OpenOutputKeepsInv` | tasker/Pods/leveldb-library/db/db_impl.cc:786-809 | numbering and protecting a new output table keeps it |
| `WriteSteps.DeleteKeepsInv` | tasker/Pods/leveldb-library/db/db_impl.cc:223-278 | deleting whatever the number rules allow keeps the invariant: no table of a live version, held iterator or pending output goes, nor any log still needed |
| `BackgroundSteps.FlushKeepsInv` | tasker/Pods/leveldb-library/db/db_impl.cc:535-566 | installing a flushed memtable keeps the invariant and the entries, also while a compaction runs |
| `BackgroundSteps.FlushKeepsRunning` | tasker/Pods/leveldb-library/db/db_impl.cc:909-922 | a table flushed while a compaction runs is newer than all that started from, and has passed over no input it overlaps |
| `BackgroundSteps.StartKeepsInv` | tasker/Pods/leveldb-library/db/db_impl.cc:878-895 | setting a compaction up and noting the oldest snapshot keeps the invariant |
| `BackgroundSteps.MoveKeepsInv` | tasker/Pods/leveldb-library/db/db_impl.cc:718-735 | a trivial move keeps the invariant and the entries |
| `BackgroundSteps.CompactionKeepsInv` | tasker/Pods/leveldb-library/db/db_impl.cc:860-1036 | installing a compaction keeps the invariant if and only if no output overlaps a table flushed to its level since the start |
| `BackgroundSteps.CompactionKeepsReads` | tasker/Pods/leveldb-library/db/db_impl.cc:878-1036 | and the answers from the oldest snapshot noted at the start on exactly if nothing is exposed |
| `BackgroundSteps.JoinedCompactionIsSafe` | tasker/Pods/leveldb-library/db/db_impl.cc:878-1036 | inputs without gaps keep the invariant whatever is flushed meanwhile |
| `BackgroundSteps.RecordKeepsManifest` | tasker/Pods/leveldb-library/db/version_set.cc:801-884 | an edit appended to the manifest leaves a manifest that replays to the version installed |
| `RecoverySteps.ReplaysLiveLogs` | tasker/Pods/leveldb-library/db/db_impl.cc:316-351 | what recovery replays is the logs holding entries no table has, oldest first; any other log it finds is empty |
| `RecoverySteps.RecoveryKeepsInv` | tasker/Pods/leveldb-library/db/db_impl.cc:280-369 | a crash and recovery keep the invariant, the stored entries and the last sequence number |
| `RecoverySteps.RecoveryAgainKeepsInv` | tasker/Pods/leveldb-library/db/db_impl.cc:280-489 | so they do when recovery itself crashes, any number of times, after writing tables or the new log and before its record |
| `RecoverySteps.NoTableIsMissing` | tasker/Pods/leveldb-library/db/db_impl.cc:330-348 | every table of the current version is on disk, so recovery never finds one missing |
| `Runs.StepKeepsInv` | tasker/Pods/leveldb-library/db/db_impl.cc:1310-1370 | every step of the database keeps the invariant, except that installing a compaction whose output overlaps a table flushed meanwhile breaks it |
| `Runs.NewDbIsGood` | tasker/Pods/leveldb-library/db/db_impl.cc:182-212 | a new database meets it |
| `Runs.AnswerIsMap` | tasker/Pods/leveldb-library/db/db_impl.cc:1100-1145 | the newest visible entry of a key is what replaying the writes in order gives it |
| `Runs.RunKeepsInv` | tasker/Pods/leveldb-library/db/db_impl.cc:688-767 | every run without such a clash keeps the invariant; while nothing is exposed the store stays faithful to the writes |
| `Runs.GaplessRunsNeverClash` | tasker/Pods/leveldb-library/db/db_impl.cc:688-767 | a run all of whose compactions have inputs without gaps, as every automatic one has, never clashes |
| `Runs.EveryReadIsRight` | tasker/Pods/leveldb-library/db/db_impl.cc:1100-1145 | after any run, with crashes anywhere and flushes during compactions, whose compactions neither clash nor expose anything, every read at a live snapshot gives what the user's own writes up to it give |
| `DefectRun.StoreIsReachable` | tasker/Pods/leveldb-library/db/db_impl.cc:688-767 | a run of writes, snapshots, flushes and one compaction takes a new database to the store of BoundaryDefect |
| `DefectRun.DeletedValueIsRead` | tasker/Pods/leveldb-library/db/version_set.cc:1403-1462 | one compaction later a read at the latest sequence number finds a value whose key the user's writes leave deleted, so the theorem about reads needs its assumption |
| `ClashRun.ByHandHasGap` | tasker/Pods/leveldb-library/db/version_set.cc:1464-1495 | a compaction by hand whose inputs leave a gap |
| `ClashRun.LevelOneIsPicked` | tasker/Pods/leveldb-library/db/version_set.cc:491-516 | the tables to be compacted are flushed to level 1 because level 2 overlaps them |
| `ClashRun.SearchMissesKey` | tasker/Pods/leveldb-library/db/version_set.cc:88-106 | with the flushed table in the gap and the output over it, the binary search looks into the output, which does not have the key |
| `ClashRun.WrittenKeyIsLost` | tasker/Pods/leveldb-library/db/db_impl.cc:909-922 | a run from a new database to there: the invariant is broken, and a key that was written is stored but not found |
| `InputMerge.FlattenIsSorted` | tasker/Pods/leveldb-library/db/version_set.cc:1252-1258 | the tables of a sorted level one after the other are one sorted run |
| `InputMerge.ScanIsMergedInput` | tasker/Pods/leveldb-library/db/version_set.cc:1237-1268 | the merging iterator's order over the inputs, one child per level-0 table and one per deeper level, holds every input entry once, in internal key order |
| `InputMerge.MergeInputs` | tasker/Pods/leveldb-library/db/version_set.cc:1237-1268 | scanning the merging iterator from its first entry to its last gives the merged input of the compaction |
| `EditCodec.ItemReads` | tasker/Pods/leveldb-library/db/version_edit.cc:120-194 | each tagged field of a manifest record reads back, whatever follows it |
| `EditCodec.DecodeGivesBack` | tasker/Pods/leveldb-library/db/version_edit.cc:41-205 | decoding an encoded edit gives the edit, with the compaction pointers the object had before in front of its own |
| `EditCodec.DecodeRecovers` | tasker/Pods/leveldb-library/db/version_edit.cc:28-39 | so the object equals the edit if and only if it had no compaction pointers |
| `EditCodec.VersionEdit.EncodeTo` | tasker/Pods/leveldb-library/db/version_edit.cc:41-85 | appends the fields of the edit, deleted files in ascending order of level and number |
| `EditCodec.VersionEdit.DecodeFrom` | tasker/Pods/leveldb-library/db/version_edit.cc:107-205 | on any bytes, what the object is left with and whether it is an error |
| `AcceptedBytes.EditIsAccepted` | tasker/Pods/leveldb-library/db/version_edit.cc:107-205 | any bytes are decoded without an error if and only if they are items of known tags at levels that exist, and then the edit holds what they say, in their order |
| `EditCodec.SortDeleted` | tasker/Pods/leveldb-library/db/version_edit.cc:70-75 | the order of the set: all its members, ascending |
| `WriteBatches.BatchReads` | tasker/Pods/leveldb-library/db/write_batch.cc:42-80 | the bytes of a batch are iterated as the operations it was made of, in order, without error |
| `WriteBatches.BytesTell` | tasker/Pods/leveldb-library/db/write_batch.cc:42-97 | no two different batches have the same bytes |
| `WriteBatches.WriteBatch.PutEntry` | tasker/Pods/leveldb-library/db/write_batch.cc:98-103 | one more operation at the end, and counted |
| `WriteBatches.WriteBatch.DeleteEntry` | tasker/Pods/leveldb-library/db/write_batch.cc:105-109 | likewise for a deletion |
| `WriteBatches.WriteBatch.Append` | tasker/Pods/leveldb-library/db/write_batch.cc:144-148 | the operations of the other batch follow, and are counted |
| `WriteBatches.Iterate` | tasker/Pods/leveldb-library/db/write_batch.cc:42-80 | on any bytes, which operations the handler is told before which error |
| `WriteBatches.WrongCountIsFound` | tasker/Pods/leveldb-library/db/write_batch.cc:75-79 | a batch whose header counts another number of operations is reported after they have been handed over |
| `AcceptedBytes.BatchIsAccepted` | tasker/Pods/leveldb-library/db/write_batch.cc:42-80 | iteration over any bytes ends without an error if and only if they are a header and as many operations as it counts, written as the writer does except that lengths may take more bytes than they need |
| `WriteBatches.InsertInto` | tasker/Pods/leveldb-library/db/write_batch.cc:115-137 | operations get consecutive sequence numbers from the batch's own on |
| `Engine.MemTableGet` | tasker/Pods/leveldb-library/db/memtable.cc:100-136 | the memtable's answer is that of its newest visible entry |
| `Engine.InsertInto` | tasker/Pods/leveldb-library/db/write_batch.cc:115-137 | a batch enters the memtable in order with consecutive sequence numbers |
| `Engine.NewerPartDecides` | tasker/Pods/leveldb-library/db/db_impl.cc:1122-1137 | asking newer parts first and stopping at the first that knows the key answers for the whole |
| `Engine.DBImpl.Get` | tasker/Pods/leveldb-library/db/db_impl.cc:1100-1145 | the read through memtable, immutable memtable and tables answers for everything stored |
| `Engine.DBImpl.Write` | tasker/Pods/leveldb-library/db/db_impl.cc:1200-1237 | one group is logged as one record and applied, and the invariant is kept |
| `Engine.DBImpl.SwitchMemTable` | tasker/Pods/leveldb-library/db/db_impl.cc:1345-1366 | the full memtable becomes the immutable one and a new log is begun |
| `Engine.DBImpl.GetSnapshot` | tasker/Pods/leveldb-library/db/db_impl.cc:1166-1169 | the snapshot is the last sequence number |
| `Engine.DBImpl.CompactMemTable` | tasker/Pods/leveldb-library/db/db_impl.cc:535-566 | the immutable memtable becomes one table at the deepest level it may sink to, through an edit recorded first; contents and invariant are kept |
| `Engine.DBImpl.DeleteObsoleteFiles` | tasker/Pods/leveldb-library/db/db_impl.cc:223-278 | exactly the tables and logs that no rule keeps are deleted: logs from the log number on stay, and tables that are pending outputs or in the current or a held version |
| `Engine.DBImpl.MoveTable` | tasker/Pods/leveldb-library/db/db_impl.cc:718-735 | the lone input moves down through a recorded edit; contents and invariant are kept |
| `Engine.DBImpl.BeginCompaction` | tasker/Pods/leveldb-library/db/db_impl.cc:878-895 | the compaction is set up and the oldest snapshot noted, or the last sequence number if there is none |
| `Engine.DBImpl.FinishCompaction` | tasker/Pods/leveldb-library/db/db_impl.cc:897-1036 | whatever has happened since, the input is merged, dropped from and cut as CompactionWork says, and installing it keeps the invariant exactly if no output overlaps a table flushed to its level, and the answers exactly if nothing is exposed |
| `Engine.DBImpl.RunCompaction` | tasker/Pods/leveldb-library/db/db_impl.cc:878-1036 | a whole compaction is a start, the flush its loop lets in and an install; it keeps the invariant if its inputs leave no gap, and the answers exactly if nothing is exposed |
| `Engine.DBImpl.BackgroundCompaction` | tasker/Pods/leveldb-library/db/db_impl.cc:688-767 | an immutable memtable is flushed first; otherwise the compaction the trigger asks for is moved, if it is one table with few grandparents, or run; the invariant is kept, and the answers if nothing is exposed |
| `Recovery.ReadCounters` | tasker/Pods/leveldb-library/db/version_set.cc:946-981 | the counters recovered are the last ones any edit of the manifest carries |
| `Recovery.SortNumbers` | tasker/Pods/leveldb-library/db/db_impl.cc:332-351 | the logs to replay are put in ascending order, none lost or repeated |
| `Recovery.RecoverLogFile` | tasker/Pods/leveldb-library/db/db_impl.cc:371-489 | replaying one log fills level-0 tables with all its entries in order, one more exactly whenever the memtable is full and one at the end if any are left, and raises the sequence counter |
| `Recovery.RecoverLogs` | tasker/Pods/leveldb-library/db/db_impl.cc:350-367 | all logs are replayed, each once, oldest first |
| `Recovery.OpenAfterCrash` | tasker/Pods/leveldb-library/db/db_impl.cc:1474-1517 | opening after a crash at any point gives a database with the same contents that meets the invariant |
| `DbIterator.ShownIsTheMap` | tasker/Pods/leveldb-library/db/db_iter.cc:141-299 | the entries the iterator may show are exactly the keys with a value at its sequence number, with that value |
| `DbIterator.ShownInKeyOrder` | tasker/Pods/leveldb-library/db/db_iter.cc:141-299 | one per key, in key order |
| `DbIterator.NextIsNextKey` | tasker/Pods/leveldb-library/db/db_iter.cc:141-198 | the next entry shown has the least key above the current one that has a value, or there is none |
| `DbIterator.PrevIsPrevKey` | tasker/Pods/leveldb-library/db/db_iter.cc:200-267 | the previous entry shown has the greatest key below that has a value, or there is none |
| `DbIterator.MovesUndoEachOther` | tasker/Pods/leveldb-library/db/db_iter.cc:141-267 | Prev undoes Next and Next undoes Prev |
| `DbIterator.DBIter.Next` | tasker/Pods/leveldb-library/db/db_iter.cc:141-166 | from either direction, Next lands on the next entry to show |
| `DbIterator.DBIter.Prev` | tasker/Pods/leveldb-library/db/db_iter.cc:200-225 | from either direction, Prev lands on the previous entry to show |
| `DbIterator.DBIter.CurrentValue` | tasker/Pods/leveldb-library/db/db_iter.cc:68-71 | the value shown is that of the current entry, in either direction |
| `DbIterator.DBIter.FindNextUserEntry` | tasker/Pods/leveldb-library/db/db_iter.cc:168-198 | the forward scan skips what is hidden, deleted or too new and stops at the first entry to show |
| `DbIterator.DBIter.FindPrevUserEntry` | tasker/Pods/leveldb-library/db/db_iter.cc:227-267 | the backward scan stops with key and value of the last entry to show and stands before its key |
| `DbIterator.DBIter.Seek` | tasker/Pods/leveldb-library/db/db_iter.cc:269-281 | Seek lands on the first entry to show at or after the target |
| `DbIterator.DBIter.SeekToFirst` | tasker/Pods/leveldb-library/db/db_iter.cc:283-292 | the first entry to show |
| `DbIterator.DBIter.SeekToLast` | tasker/Pods/leveldb-library/db/db_iter.cc:294-299 | the last entry to show |
| `DbScan.MergedIsStored` | tasker/Pods/leveldb-library/db/db_impl.cc:1062-1087 | the children of the internal iterator (memtables, level-0 tables, deeper levels) merged are the sorted run of everything stored, no entry twice |
| `DbScan.ScanIsRight` | tasker/Pods/leveldb-library/db/db_iter.cc:141-299 | after any run that neither clashes nor exposes anything, what a database iterator shows at a live sequence number is the user's own map, in key order |
| `DbScan.InternalIterator.constructor` | tasker/Pods/leveldb-library/db/db_impl.cc:1062-1087 | the internal iterator is made over all that is stored |
| `DbScan.InternalIterator.Show` | tasker/Pods/leveldb-library/table/merger.cc:110-118 | it shows the entry of the run it stands at |
| `DbScan.InternalIterator.Seek` | tasker/Pods/leveldb-library/table/merger.cc:47-53 | it lands on the first entry of the run at or after the target |
| `DbScan.InternalIterator.Next` | tasker/Pods/leveldb-library/table/merger.cc:55-79 | from either direction it goes one entry on along the run |
| `DbScan.InternalIterator.Prev` | tasker/Pods/leveldb-library/table/merger.cc:81-108 | and one back |
| `Merger.OrderExists` | tasker/Pods/leveldb-library/table/merger.cc:31-176 | all entries of all children can be put in one order, by key and then by child |
| `Merger.MergedIsSortedUnion` | tasker/Pods/leveldb-library/table/merger.cc:31-176 | with keys distinct across children that order is the sorted union |
| `Merger.StepForward` | tasker/Pods/leveldb-library/table/merger.cc:55-79 | going on forwards is one step along that order, so a forward scan yields a shared key once per child |
| `Merger.StepBack` | tasker/Pods/leveldb-library/table/merger.cc:81-108 | going on backwards is one step the other way |
| `Merger.SeekLands` | tasker/Pods/leveldb-library/table/merger.cc:47-53 | a seek lands on the first entry at or after the target |
| `Merger.TurnForwardIff` | tasker/Pods/leveldb-library/table/merger.cc:63-75 | turning forward goes to the next entry of the order if and only if no later child holds the current key; otherwise its copies are skipped |
| `Merger.TurnBackIff` | tasker/Pods/leveldb-library/table/merger.cc:89-104 | turning back goes to the previous entry if and only if no earlier child holds the current key |
| `Merger.MergingIterator.Next` | tasker/Pods/leveldb-library/table/merger.cc:55-79 | Next shows the next spot of the order, or after a turn the first spot of a greater key |
| `Merger.MergingIterator.Prev` | tasker/Pods/leveldb-library/table/merger.cc:81-108 | Prev shows the previous spot, or after a turn the last spot of a smaller key |
| `Merger.MergingIterator.Seek` | tasker/Pods/leveldb-library/table/merger.cc:47-53 | Seek shows the first spot at or after the target |
| `Merger.MergingIterator.FindSmallest` | tasker/Pods/leveldb-library/table/merger.cc:148-161 | the smallest of the children's entries, the first child on ties |
| `Merger.MergingIterator.FindLargest` | tasker/Pods/leveldb-library/table/merger.cc:163-176 | the largest of the children's entries, the last child on ties |
| `Filters.CreateFilter` | tasker/Pods/leveldb-library/util/bloom.cc:28-54 | for any hash function, a bit is set if and only if some key's probes land on it; the size is the bits asked for, at least 64, rounded up to bytes |
| `Filters.SetProbes` | tasker/Pods/leveldb-library/util/bloom.cc:42-52 | the loop adds exactly the bits one key's double hashing lands on |
| `Filters.FilterAdmitsItsKeys` | tasker/Pods/leveldb-library/util/bloom.cc:28-80 | so every key a filter was made for matches it |
| `Filters.FilterExcludes` | tasker/Pods/leveldb-library/util/bloom.cc:56-80 | any key matches a filter if and only if each of its probes goes where a probe of some added key does |
| `Filters.KeyMayMatch` | tasker/Pods/leveldb-library/util/bloom.cc:56-80 | the answer is whether all probed bits are set |
| `Filters.FilterBlockBuilder.StartBlock` | tasker/Pods/leveldb-library/table/filter_block.cc:21-27 | from here on keys belong to the filter of this offset, and earlier promises are kept |
| `Filters.FilterBlockBuilder.Finish` | tasker/Pods/leveldb-library/table/filter_block.cc:35-49 | each filter is the one for exactly the keys added at its offsets, and none where there were no keys; so every key added after a block start matches at that block's offset |
| `Filters.BlockKeyMayMatch` | tasker/Pods/leveldb-library/table/filter_block.cc:90-104 | the filter of the stretch of 2048 offsets the block's falls in decides; past the last filter everything may match |
| `Tables.SeparatorCuts` | tasker/Pods/leveldb-library/db/dbformat.cc:69-86 | the shortened key between two blocks is at or after everything before it, before everything after it, and either an entry's own key or of a user key nobody has |
| `Tables.SuccessorCuts` | tasker/Pods/leveldb-library/db/dbformat.cc:88-101 | likewise for the key after the last block |
| `Tables.TableBuilder.Add` | tasker/Pods/leveldb-library/table/table_builder.cc:94-123 | an entry is appended, the delayed index entry is made with it, and the block is written exactly when its size estimate reaches the limit |
| `Tables.TableBuilder.Flush` | tasker/Pods/leveldb-library/table/table_builder.cc:125-139 | a block with entries is written where the file ends and its filter stretch begun; contents stay the same |
| `Tables.TableBuilder.Finish` | tasker/Pods/leveldb-library/table/table_builder.cc:198-253 | the table holds exactly what was added, each index key is the separator between its block and the next or the successor of the last key and cuts at its block's end, and every filter admits its block's keys |
| `Tables.BlockDecides` | tasker/Pods/leveldb-library/table/table.cc:216-244 | if the block the index names has no entry at or after the target, the next entry of the table is of another user key |
| `Tables.InternalGet` | tasker/Pods/leveldb-library/table/table.cc:216-244 | through index, filter and one block, the entry handed over is the table's own for the key whenever the key has a visible one |
| `Tables.GetFromTable` | tasker/Pods/leveldb-library/table/table.cc:216-244 | so a table built this way answers as the sorted run of its entries does |
| `Tables.TwoLevelIterator.Seek` | tasker/Pods/leveldb-library/table/two_level_iterator.cc:82-87 | Seek lands on the first entry of all blocks at or after the target |
| `Tables.TwoLevelIterator.Next` | tasker/Pods/leveldb-library/table/two_level_iterator.cc:103-126 | one step along the concatenated blocks, empty ones skipped |
| `Tables.TwoLevelIterator.Prev` | tasker/Pods/leveldb-library/table/two_level_iterator.cc:109-139 | one step back, empty ones skipped |
| `Tables.TwoLevelIterator.SeekToLast` | tasker/Pods/leveldb-library/table/two_level_iterator.cc:96-101 | the last entry of all |
| `StoredTables.BytewiseShortens` | tasker/Pods/leveldb-library/util/comparator.cc:29-64 | the bytewise separator and successor are a shortening the theorems about index keys hold of |
| `StoredTables.BytewiseIsTheComparator` | tasker/Pods/leveldb-library/util/comparator.cc:29-64 | on positions of strings that shortening is what the comparator computes on the strings |
| `StoredTables.OrderIsKept` | tasker/Pods/leveldb-library/db/dbformat.cc:51-67 | encoded internal keys compare, by user key bytes and then packed tag, as the internal keys do |
| `StoredTables.BuildBlock` | tasker/Pods/leveldb-library/table/block_builder.cc:62-106 | the builder makes of any entries a block of bytes that holds them |
| `StoredTables.SeekBlock` | tasker/Pods/leveldb-library/table/block.cc:163-201 | looked up for an internal key, a block of bytes hands over the entry a search of the sorted entries finds |
| `TableFormat.HandleReads` | tasker/Pods/leveldb-library/table/format.cc:15-29 | a block handle is read back |
| `TableFormat.FooterReads` | tasker/Pods/leveldb-library/table/format.cc:31-62 | a footer is read back: padding, magic number and both handles |
| `TableFormat.SealedReads` | tasker/Pods/leveldb-library/table/format.cc:66-141 | a block written with its type and checksum is read back, the checksum verified or not |
| `TableFormat.OnlySealedReads` | tasker/Pods/leveldb-library/table/format.cc:66-141 | with checksums verified, bytes are read as a block if and only if they are that block sealed |
| `TableFormat.NoMagicNoFooter` | tasker/Pods/leveldb-library/table/format.cc:42-62 | nothing that does not end with the magic number is taken for a footer |
| `TableFiles.IndexIsSorted` | tasker/Pods/leveldb-library/table/table_builder.cc:94-123 | the shortened keys of the index are in strict order, so the index block is one |
| `TableFiles.WriteTable` | tasker/Pods/leveldb-library/table/table_builder.cc:141-253 | however the entries are cut into blocks, the file has data blocks, index block and footer in the places its handles name |
| `TableFiles.GetFromFile` | tasker/Pods/leveldb-library/table/table.cc:216-244 | opened and looked up in bytes, such a file never fails and answers as the sorted run of its entries does |
| `Coding.Fixed32RoundTrip` | tasker/Pods/leveldb-library/util/coding.h:60-72 | a fixed32 reads back |
| `Coding.Fixed64RoundTrip` | tasker/Pods/leveldb-library/util/coding.h:75-101 | a fixed64 reads back |
| `Coding.VarintRoundTrip` | tasker/Pods/leveldb-library/util/coding.cc:112-157 | a varint reads back with either reader whose word holds it, and reading stops right after it |
| `Coding.LengthPrefixedRoundTrip` | tasker/Pods/leveldb-library/util/coding.cc:170-190 | a length-prefixed slice reads back, whatever follows it |
| `Coding.VarintMeans` | tasker/Pods/leveldb-library/util/coding.cc:112-157 | which bytes are read as a number and what number: groups of seven bits up to the first byte without the high bit, if it is among the first five or ten; what is shifted out of the word is lost |
| `KnownBytes.FixedBytes` | tasker/Pods/leveldb-library/util/coding.h:60-101 | words are stored lowest byte first |
| `KnownBytes.VarintBytes` | tasker/Pods/leveldb-library/util/coding.cc:47-72 | varints written out |
| `KnownBytes.BatchBytes` | tasker/Pods/leveldb-library/db/write_batch.cc:5-14 | a batch with a value and a deletion, written out |
| `KnownBytes.EditBytes` | tasker/Pods/leveldb-library/db/version_edit.cc:16-26 | each kind of item of a manifest record, written out |
| `KnownBytes.InternalKeyBytes` | tasker/Pods/leveldb-library/db/dbformat.cc:14-22 | an internal key, written out: type lowest, sequence number above it |
| `KnownBytes.BlockBytes` | tasker/Pods/leveldb-library/table/block_builder.cc:5-27 | two entries of a block, written out |
| `KnownBytes.RestartBytes` | tasker/Pods/leveldb-library/table/block_builder.cc:5-27 | a restart array, written out |
| `KnownBytes.FooterBytes` | tasker/Pods/leveldb-library/table/format.cc:31-41 | a footer is 48 bytes and ends with the magic number, written out |
| `KnownBytes.FragmentBytes` | tasker/Pods/leveldb-library/db/log_format.h:15-33 | a fragment, written out: masked checksum, length, type, payload |
| `KnownBytes.LongRecord` | tasker/Pods/leveldb-library/db/log_writer.cc:34-80 | a record of 40000 bytes is a first fragment that fills a block of 32768 and a last one |
| `KnownBytes.ProbePlaces` | tasker/Pods/leveldb-library/util/bloom.cc:42-52 | the probes of a hash value, written out |
| `KnownBytes.IndexKeys` | tasker/Pods/leveldb-library/table/table_builder.cc:94-123 | index keys are shortened: between "hello" and "jelly" and after "hello" it is "i" |
| `Blocks.EntryRoundTrip` | tasker/Pods/leveldb-library/table/block.cc:54-74 | an encoded entry decodes to its parts, on the fast path and on the slow one |
| `Blocks.NoLongerPrefix` | tasker/Pods/leveldb-library/table/block_builder.cc:72-86 | the prefix left out is all the key shares with the one before |
| `Blocks.BlockBuilder.Add` | tasker/Pods/leveldb-library/table/block_builder.cc:72-106 | each entry is laid down with the longest prefix it shares with the key before, and a restart point with the whole key every interval entries |
| `Blocks.BlockBuilder.Finish` | tasker/Pods/leveldb-library/table/block_builder.cc:62-70 | the finished bytes hold the entries, the restart offsets and their number |
| `Blocks.BlockIter.ParseNextKey` | tasker/Pods/leveldb-library/table/block.cc:224-251 | parsing from the end of the value held gives the next entry, key put together again |
| `Blocks.BlockIter.Next` | tasker/Pods/leveldb-library/table/block.cc:137-140 | Next goes to the next entry |
| `Blocks.BlockIter.Prev` | tasker/Pods/leveldb-library/table/block.cc:142-161 | Prev goes to the entry before, by way of a restart point |
| `Blocks.BlockIter.Seek` | tasker/Pods/leveldb-library/table/block.cc:163-201 | binary search over restart points and a linear search land on the first key not before the target |
| `Blocks.BlockIter.SeekToLast` | tasker/Pods/leveldb-library/table/block.cc:208-213 | the last entry |
| `LogFormat.UnmaskMask` | tasker/Pods/leveldb-library/util/crc32c.h:29-38 | a masked checksum unmasks |
| `LogFormat.Writer.EmitPhysicalRecord` | tasker/Pods/leveldb-library/db/log_writer.cc:82-108 | a fragment is header and payload, and stays within its block |
| `LogFormat.Writer.AddRecord` | tasker/Pods/leveldb-library/db/log_writer.cc:34-80 | a record is appended in fragments; a file of records becomes the file of those and this one, also for a writer reopened at its length |
| `LogReader.Reader.ReadPhysicalRecord` | tasker/Pods/leveldb-library/db/log_reader.cc:189-271 | on any bytes, what one call returns, consumes and reports |
| `LogReader.Reader.ReadRecord` | tasker/Pods/leveldb-library/db/log_reader.cc:56-174 | on any bytes, what one call returns, consumes and reports |
| `LogReader.ReadsFragment` | tasker/Pods/leveldb-library/db/log_reader.cc:189-271 | a fragment wholly in the file is read back; one cut off reads as the end of the file |
| `LogReader.ReadsRecord` | tasker/Pods/leveldb-library/db/log_reader.cc:56-174 | a record wholly in the file is read back, however many fragments; of one cut off nothing is seen or reported |
| `LogReader.CutLogReadsBack` | tasker/Pods/leveldb-library/db/log_reader.cc:56-174 | a log cut at any byte gives exactly the records that end before the cut, and reports no corruption |
| `DamagedLog.DamageIsConfined` | tasker/Pods/leveldb-library/db/log_reader.cc:56-174 | however the blocks between two boundaries are changed, the records that end before them are read first and those that begin behind them last, if nothing changed passes for a fragment of type 5 |
| `DamagedLog.FalseEndHidesTheRest` | tasker/Pods/leveldb-library/db/log_reader.h:64-72 | a fragment of type 5 with a fitting checksum ends reading, whatever is behind it |
| `DamagedLog.NothingUncheckedIsRead` | tasker/Pods/leveldb-library/db/log_reader.cc:229-245 | of any file, with checksums on, every record read is put together from fragments of the file whose checksums fit |
| `LogLosses.EveryByteIsAccounted` | tasker/Pods/leveldb-library/db/log_reader.cc:56-271 | of any file, every byte is in a record read, reported as dropped, or silently passed over as a header, a block trailer, zeros, a fragment of type 6, or what is left at the end |
| `StoredFiles.RecordReads` | tasker/Pods/leveldb-library/db/db_impl.cc:410-446 | iterating over a log record's bytes gives the entries of its batch, and its header their first sequence number |
| `StoredFiles.RecordTells` | tasker/Pods/leveldb-library/db/db_impl.cc:410-446 | a record stands for one batch only |
| `StoredFiles.CutLogGivesBatches` | tasker/Pods/leveldb-library/db/db_impl.cc:371-489 | a log file cut at any byte reads as the batches that end before the cut, with no corruption reported |
| `StoredFiles.CutManifestGivesEdits` | tasker/Pods/leveldb-library/db/version_set.cc:932-981 | a manifest file cut at any byte reads as the edits that end before the cut, each decoded without error |
| `StoredFiles.RecordIsOneEdit` | tasker/Pods/leveldb-library/db/version_edit.cc:41-85 | with the tables at hand a manifest record describes one edit only |
| `Crc32c.ExtendJoins` | tasker/Pods/leveldb-library/util/crc32c.h:14-17 | extending by one piece and then another is extending by both |
| `Crc32c.ZeroIsLinear` | tasker/Pods/leveldb-library/util/crc32c.cc:286-291 | a zero byte through the register is XOR-linear |
| `Crc32c.WordStep` | tasker/Pods/leveldb-library/util/crc32c.cc:312-320 | four bytes are one word added to the register and four zero bytes |
| `Crc32c.StrideIsZeros` | tasker/Pods/leveldb-library/util/crc32c.cc:293-300 | the four stride lookups move a lane sixteen bytes on |
| `Crc32c.LaneWord` | tasker/Pods/leveldb-library/util/crc32c.cc:349-358 | a word read moves every lane up and the advanced first lane becomes the last |
| `Crc32c.NestedIsLanes` | tasker/Pods/leveldb-library/util/crc32c.cc:360-365 | folding the four lanes gives the register |
| `Crc32c.Extend` | tasker/Pods/leveldb-library/util/crc32c.cc:276-377 | the four-lane form computes the byte-at-a-time checksum for every buffer, length and alignment |
| `Crc32c.ByteIsEightSteps` | tasker/Pods/leveldb-library/util/crc32c.cc:286-291 | a byte goes through the register with the table as it does in eight steps of the division, bit by bit |
| `Crc32c.LastOfTable` | tasker/Pods/leveldb-library/util/crc32c.cc:42-42 | entry 128 of the byte table is the generator 0x82f63b78 |
| `Crc32c.ChecksumOfFF` | tasker/Pods/leveldb-library/util/crc32c.cc:276-377 | the checksum of one byte 0xff is 0xff000000 |
| `WriterQueue.BuildBatchGroup` | tasker/Pods/leveldb-library/db/db_impl.cc:1260-1306 | the group is the longest prefix of the queue that may join the first writer, and its batch is theirs joined in order; it stops only at a sync writer behind one that is not, or where the batch would pass 1 MiB, or 128 KiB more than a small first one |
| `WriterQueue.StepKeepsInv` | tasker/Pods/leveldb-library/db/db_impl.cc:1185-1256 | every action of every writer, failing ones included, keeps the queue invariant |
| `WriterQueue.OneLeader` | tasker/Pods/leveldb-library/db/db_impl.cc:1193-1212 | never do two writers log or apply at once |
| `WriterQueue.OkMeansCommitted` | tasker/Pods/leveldb-library/db/db_impl.cc:1210-1247 | a writer answered with success is in a group that is one log record made of the group's batches in queue order and wholly applied; a sync writer's record is on disk, so its leader was one |
| `WriterQueue.AnsweredOnceInOrder` | tasker/Pods/leveldb-library/db/db_impl.cc:1239-1248 | each writer is answered once, in order of arrival |
| `WriterQueue.MemtableNumbersRise` | tasker/Pods/leveldb-library/db/db_impl.cc:1206-1236 | the memtable receives ever higher sequence numbers, also past failed groups |
| `WriterQueue.SyncErrorIsFinal` | tasker/Pods/leveldb-library/db/db_impl.cc:1227-1232 | after a failed sync no later writer is answered with success |
| `QueueProgress.NobodyIsStuck` | tasker/Pods/leveldb-library/db/db_impl.cc:1185-1256 | at every point of every run all writers have returned or a step is possible that needs no new writer |
| `QueueProgress.StepsRunOut` | tasker/Pods/leveldb-library/db/db_impl.cc:1185-1256 | without new writers there are only so many steps, seven at most for each writer, so all are answered |
| `SkipList.BeginKeepsInv` | tasker/Pods/leveldb-library/db/skiplist.h:346-361 | announcing a greater height and making a node disturbs nothing a reader can see |
| `SkipList.OwnLinkKeepsInv` | tasker/Pods/leveldb-library/db/skiplist.h:363-365 | setting the new node's own link keeps every level well linked |
| `SkipList.PublishKeepsInv` | tasker/Pods/leveldb-library/db/skiplist.h:366-366 | publishing the node at a level keeps every level sorted and a sublist of the one below |
| `SkipList.LoadIsDefined` | tasker/Pods/leveldb-library/db/skiplist.h:153-158 | no reader ever loads an uninitialised link |
| `SkipList.TurnIsCorrect` | tasker/Pods/leveldb-library/db/skiplist.h:261-322 | one turn of a search goes on as it should whatever the writer is in the middle of, and ends with the right node for the list at that load |
| `SkipList.SearchIsRight` | tasker/Pods/leveldb-library/db/skiplist.h:261-322 | in every interleaving a search that ends is right for the list at the moment of its last load |
| `SkipList.NothingIsMissed` | tasker/Pods/leveldb-library/db/skiplist.h:261-281 | and misses no node linked at the bottom level before |
| `SkipList.RunGrows` | tasker/Pods/leveldb-library/db/skiplist.h:336-368 | nodes are never unlinked |
| `SkipList.SkipList.FindGreaterOrEqual` | tasker/Pods/leveldb-library/db/skiplist.h:260-281 | the first node at or after the key, and on every level the node to link from |
| `SkipList.SkipList.Insert` | tasker/Pods/leveldb-library/db/skiplist.h:336-368 | the key is added on the levels below its height and nothing else changes; the invariant holds between any two stores |
| `SkipList.SkipList.Contains` | tasker/Pods/leveldb-library/db/skiplist.h:370-378 | whether a node has this key |
| `HandleTables.HandleTable.FindPointer` | tasker/Pods/leveldb-library/util/cache.cc:113-119 | the place of the key in its chain, or the end of the chain exactly if the key is not in the table |
| `HandleTables.HandleTable.Lookup` | tasker/Pods/leveldb-library/util/cache.cc:73-75 | the lookup of a map |
| `HandleTables.HandleTable.Insert` | tasker/Pods/leveldb-library/util/cache.cc:77-91 | the update of a map, handing back what the key had; there are never more entries than chains |
| `HandleTables.HandleTable.Remove` | tasker/Pods/leveldb-library/util/cache.cc:93-101 | the removal from a map, handing back what the key had |
| `HandleTables.HandleTable.Resize` | tasker/Pods/leveldb-library/util/cache.cc:121-145 | the map stays the same, and the number of chains is the least power of two, from 4 on, that is no less than the number of entries |
| `HandleTables.HandleTable.Rehash` | tasker/Pods/leveldb-library/util/cache.cc:126-141 | every entry is moved to its chain in the new list, and as many are moved as there are |
| `HandleTables.HandleTable.MoveNode` | tasker/Pods/leveldb-library/util/cache.cc:132-139 | one entry goes to the front of its new chain and the other chains stay as they are |
| `Cache.ReffedKeeps` | tasker/Pods/leveldb-library/util/cache.cc:217-223 | taking a reference keeps the cache invariant |
| `Cache.ReleasedKeeps` | tasker/Pods/leveldb-library/util/cache.cc:225-237 | dropping one keeps it, and moves or ends the entry as its count says |
| `Cache.ErasedKeeps` | tasker/Pods/leveldb-library/util/cache.cc:307-316 | ending an entry that has left the table keeps it |
| `Cache.EvictedIs` | tasker/Pods/leveldb-library/util/cache.cc:293-300 | eviction deletes a stretch of the oldest unused entries in order, touches nothing in use, stops as soon as usage is within capacity, and ends there or with nothing to evict |
| `Cache.InsertMeans` | tasker/Pods/leveldb-library/util/cache.cc:266-303 | after Insert the new entry is in the table; of the unused entries exactly the oldest are gone, and each of them only because without it usage would still be over capacity; every other entry is where it was |
| `Cache.FittingInsertKeepsAll` | tasker/Pods/leveldb-library/util/cache.cc:293-300 | an insertion that fits makes no other key disappear |
| `Cache.LookupsAfterStep` | tasker/Pods/leveldb-library/util/cache.cc:252-264 | looking up, releasing and erasing change the table by the erased key only |
| `Cache.UnusedByLastUse` | tasker/Pods/leveldb-library/util/cache.cc:225-237 | in every run the evictable entries are in the order of their last release, so the least recently used goes first |
| `Cache.StepKeeps` | tasker/Pods/leveldb-library/util/cache.cc:149-195 | every operation keeps the invariant: usage is the cost of what is cached, the table agrees with the handles, and counts decide the lists |
| `Cache.DeletedOnce` | tasker/Pods/leveldb-library/util/cache.cc:225-237 | in every run each handle is either there or was deleted exactly once |
| `Cache.HeldStays` | tasker/Pods/leveldb-library/util/cache.cc:261-316 | no operation of others frees or changes a handle a client holds |
| `Cache.LRUCache.Insert` | tasker/Pods/leveldb-library/util/cache.cc:266-303 | links the new entry, ends the one it displaces from the table, and evicts while usage is over capacity; the state is the run step's |
| `Cache.LRUCache.Lookup` | tasker/Pods/leveldb-library/util/cache.cc:252-259 | returns the handle the table has, with one more reference and out of the evictable list |
| `Cache.LRUCache.Release` | tasker/Pods/leveldb-library/util/cache.cc:261-264 | gives one reference back; the last one of an uncached entry ends it, of a cached one makes it the newest evictable |
| `Cache.LRUCache.Erase` | tasker/Pods/leveldb-library/util/cache.cc:318-321 | takes the key's entry out of the cache, and ends it if no client holds it |
| `Cache.PrunedKeeps` | tasker/Pods/leveldb-library/util/cache.cc:323-333 | pruning deletes exactly the unused entries, oldest first |
| `Cache.LRUCache.Prune` | tasker/Pods/leveldb-library/util/cache.cc:323-333 | the loop does so |
| `PbTypes.FieldIter.Next` | tasker/Pods/nanopb/pb_common.c:20-76 | the iterator goes round in a circle and counts the required fields before it |
| `PbTypes.FieldIter.Find` | tasker/Pods/nanopb/pb_common.c:78-97 | from wherever the iterator stands it finds a field of the tag if there is one, and otherwise is back where it was |
| `PbTypes.ZeroIsDefault` | tasker/Pods/nanopb/pb_encode.c:240-337 | what proto3's zero test leaves out is what an unset field holds, at every depth |
| `PbVarints.Varint32RoundTrip` | tasker/Pods/nanopb/pb_decode.c:187-247 | a varint below 2^32 is read back by the reader for 32 bits |
| `PbVarints.LongVarintWraps` | tasker/Pods/nanopb/pb_decode.c:207-236 | the bit position is kept in eight bits: a bit behind up to 36 bytes of padding is refused, behind 37 it is read into the value |
| `PbVarints.SignedUndoesUnsigned` | tasker/Pods/nanopb/pb_decode.c:1329-1364 | a number of 1, 2, 4 or 8 bytes comes back from its 64-bit two's complement |
| `PbVarints.ZigZagRoundTrip` | tasker/Pods/nanopb/pb_encode.c:630-639 | zigzag comes back, keeps 64 bits and orders numbers by magnitude |
| `PbEncode.OStream.PutVarint` | tasker/Pods/nanopb/pb_encode.c:608-628 | the buffer loop writes the base 128 varint |
| `PbEncode.OStream.PutSvarint` | tasker/Pods/nanopb/pb_encode.c:630-639 | shifting and complementing the 64-bit word is zigzag |
| `PbEncode.EncodeValue` | tasker/Pods/nanopb/pb_encode.c:769-913 | each field encoder writes its value's wire form, or fails exactly if there is none or no room |
| `PbEncode.EncodeArray` | tasker/Pods/nanopb/pb_encode.c:147-236 | packed or not, an array writes its wire form, or fails exactly if it is too long, an item has none, or there is no room |
| `PbEncode.EncodePacked` | tasker/Pods/nanopb/pb_encode.c:158-196 | the size counted first is the size of the items written after it |
| `PbEncode.EncodeSubmessage` | tasker/Pods/nanopb/pb_encode.c:717-765 | the counting pass tells the size of the submessage exactly, so the second pass never writes another number of bytes |
| `PbEncode.EncodeField` | tasker/Pods/nanopb/pb_encode.c:341-426 | a field is written, left out or refused as its kind and contents say |
| `PbEncode.Encode` | tasker/Pods/nanopb/pb_encode.c:528-550 | a message writes its wire form, or fails exactly if it has none or there is no room, and a counting stream counts what another would write |
| `PbEncode.EncodedSize` | tasker/Pods/nanopb/pb_encode.c:567-577 | the size told is the length of the encoding |
| `PbEncode.EncodeToBuffer` | tasker/Pods/nanopb/pb_encode.c:86-125 | a buffer takes the message if and only if it is at least as long as the encoding |
| `PbDecode.IStream.GetVarint32` | tasker/Pods/nanopb/pb_decode.c:187-247 | on any bytes, the value and the bytes taken, with sign bits accepted past the 32nd and the bit position wrapping round |
| `PbDecode.IStream.GetVarint` | tasker/Pods/nanopb/pb_decode.c:255-276 | on any bytes, the 64-bit value and the bytes taken |
| `PbDecode.IStream.MakeSubstream` | tasker/Pods/nanopb/pb_decode.c:372-385 | the substream is the next so many bytes, taken from the parent |
| `PbDecode.IStream.CloseSubstream` | tasker/Pods/nanopb/pb_decode.c:387-400 | the parent goes on behind the substream, however much of it was read |
| `PbDecode.IStream.Skip` | tasker/Pods/nanopb/pb_decode.c:321-331 | on any bytes, what an unknown field takes by its wire type; PbReading.ValueIsSkipped and PbMeaning.UnknownMeans say what that is |
| `PbDecode.ReadNumber` | tasker/Pods/nanopb/pb_decode.c:1318-1428 | on any bytes, the number read, or an error if the field's type cannot hold it |
| `PbDecode.ReadBytes` | tasker/Pods/nanopb/pb_decode.c:1431-1548 | on any bytes, the string or byte array read into the field, or an error if it has no room |
| `PbDecode.ReadSubmessage` | tasker/Pods/nanopb/pb_decode.c:1503-1525 | on any bytes, the submessage merged into the one that is there |
| `PbDecode.ReadPacked` | tasker/Pods/nanopb/pb_decode.c:419-446 | on any bytes, the items of a packed array, or an error if there are more than fit |
| `PbDecode.ReadField` | tasker/Pods/nanopb/pb_decode.c:406-480 | on any bytes, what one occurrence of a field does to the struct |
| `PbDecode.DecodeNoinit` | tasker/Pods/nanopb/pb_decode.c:925-1073 | on any bytes, the struct that is left, or an error, missing required fields included |
| `PbDecode.Decode` | tasker/Pods/nanopb/pb_decode.c:1075-1087 | on any bytes, decoding into a struct set to its defaults gives the message they mean, or an error; PbMeaning.BytesMean says what bytes mean |
| `PbDecode.AllBits` | tasker/Pods/nanopb/pb_decode.c:1030-1070 | comparing words of seen bits with all ones is asking for each of the first 64 required fields |
| `PbMeaning.NumberMeans` | tasker/Pods/nanopb/pb_decode.c:1318-1428 | on any bytes, a number is read exactly where there is one: of which bytes and which value each type takes it, and when it is out of range |
| `PbMeaning.UnknownMeans` | tasker/Pods/nanopb/pb_decode.c:321-331 | on any bytes, an unknown field is passed over exactly as its wire type says: up to a byte below 128, 8 bytes, a length and so many bytes, or 4 bytes |
| `PbMeaning.BytesMean` | tasker/Pods/nanopb/pb_decode.c:925-1073 | on any bytes and any struct, decoding gives a struct if and only if the bytes are occurrences of fields, in any order and number, with room for each value and every required field among them, and then it is the one that was there changed by each of them in turn |
| `PbMeaning.OrderDoesNotMatter` | tasker/Pods/nanopb/pb_decode.c:925-1030 | occurrences of different fields may change places, unless both are of one oneof |
| `PbMeaning.PackedOrNot` | tasker/Pods/nanopb/pb_decode.c:419-457 | a packed run of numbers means what the numbers mean one by one |
| `PbMeaning.LastDecides` | tasker/Pods/nanopb/pb_decode.c:404-417 | of a number that is no array the last occurrence decides |
| `PbMerge.MergeIsConcatenation` | tasker/Pods/nanopb/pb_decode.h:70-80 | reading one message into a struct and then another is reading the bytes of both at once, if the first is read to its end |
| `PbMerge.Merging` | tasker/Pods/nanopb/pb_decode.h:70-80 | and then the required fields the first had need not be in the second |
| `PbMerge.NothingBehindTheEnd` | tasker/Pods/nanopb/pb_decode.c:298-319 | if a key of 0 ends the first before, the second is lost without an error |
| `PbReading.ValueReads` | tasker/Pods/nanopb/pb_decode.c:1318-1548 | a value is read from any of its encodings, with unknown fields at whatever depth, if all its strings are terminated, and not at all otherwise |
| `PbReading.PackedSlotReads` | tasker/Pods/nanopb/pb_decode.c:419-446 | a packed array is read back item by item |
| `PbReading.FieldsRead` | tasker/Pods/nanopb/pb_decode.c:925-1030 | after the fields before i, the loop reads the rest of any encoding, whatever unknown fields are in between |
| `PbReading.ValueIsSkipped` | tasker/Pods/nanopb/pb_decode.c:278-331 | a value of any wire type, whatever it is, is skipped to right behind it |
| `PbReading.OthersAreSkipped` | tasker/Pods/nanopb/pb_decode.c:952-1000 | any run of unknown fields is passed over and changes nothing |
| `PbReading.EncodingReads` | tasker/Pods/nanopb/pb_decode.c:925-1087 | any encoding of a struct, with unknown fields before, between and behind its fields at any depth, is decoded as the struct if and only if every string that was written is terminated |
| `PbRoundTrip.RoundTrip` | tasker/Pods/nanopb/pb_decode.c:925-1087 | decoding the encoding of a struct gives the struct up to the contents of unset fields if and only if every string that was written is terminated |
| `PbRoundTrip.NarrowerReads` | tasker/Pods/nanopb/pb_decode.c:925-1087 | a reader whose descriptor lacks some of the fields, at any depth, decodes what the writer wrote, if the strings it knows of are terminated, and gets the fields it knows |
| `PbRoundTrip.LacksNothing` | tasker/Pods/nanopb/pb_decode.c:925-1087 | the descriptor itself is one that lacks nothing |
| `PbRoundTrip.FieldBegins` | tasker/Pods/nanopb/pb_encode.c:670-713 | what is written of a field begins with its tag times eight plus its kind on the wire: 0, 1, 2 or 5 by its type, 2 for a packed array; for tags below 16 that is the first byte |
| `PbRoundTrip.NothingIsWritten` | tasker/Pods/nanopb/pb_encode.c:240-337 | nothing is written exactly of options that are not set, branches that are not chosen and arrays without items; required fields are always written |
| `PbRoundTrip.ZeroIsNotWritten` | tasker/Pods/nanopb/pb_encode.c:240-337 | a zero in a field without a flag is not written |
| `PbRoundTrip.ValueIsWireValue` | tasker/Pods/nanopb/pb_encode.c:769-913 | what is written of a value is one of its kind on the wire |
| `PbRoundTrip.WrittenIsOthers` | tasker/Pods/nanopb/pb_decode.c:952-1000 | what is written of any field is unknown fields to a reader that does not have it, so such a reader lands right behind it |
| `PbRoundTrip.WordIsSkipped` | tasker/Pods/nanopb/pb_decode.c:321-331 | a message with one more fixed32 field, written out and read without it |
| `PbRoundTrip.UnterminatedIsLost` | tasker/Pods/nanopb/pb_encode.c:875-899 | a string that fills its array is encoded and not decoded |
| `PbAccepted.AcceptedIsEncodable` | tasker/Pods/nanopb/pb_decode.c:1075-1087 | whatever bytes are decoded, the struct fits its arrays, is encoded, and that is decoded as the same struct |
| `PbAccepted.UnmentionedStays` | tasker/Pods/nanopb/pb_decode.h:70-80 | decoding into a struct leaves a field that the bytes do not mention as it is, except that a chosen branch of a oneof gives way to another |
| `PbAccepted.UnmentionedIsDefault` | tasker/Pods/nanopb/pb_decode.c:836-923 | so after decoding into a fresh struct it holds its default |
| `PbAccepted.RequiredOccurs` | tasker/Pods/nanopb/pb_decode.c:1030-1070 | bytes are accepted only if each of the first 64 required fields occurs in them |

## Left out

- The CURRENT file, lock and temporary files. The database state has the manifest as a sequence of edits and a log as a sequence of batches; `StoredFiles` shows what stands for them in bytes, file by file, and a file system whose files lose their unsynced ends is not modelled.
- `Engine.DBImpl.FinishCompaction`: reads its input and opens its outputs after what happened meanwhile; that outputs are opened at any time in between is a matter of steps, in `Runs`. A compaction given up after an error is not modelled.
- `DbScan.InternalIterator.constructor`: takes the memtables as they are then; what is written later has higher sequence numbers than the iterator looks at.
- Input and output errors, except failing log appends and syncs in `WriterQueue`; a damaged internal key is not modelled.
- Reopening a log or manifest in place of starting a new one (`reuse_logs`, `ReuseManifest`), and `db/repair.cc`.
- Compaction scores, seek sampling, write delays and the size limits that only decide when to compact: the trigger is a parameter.
- `LogReader.Reader.ReadRecord`: starts at the beginning of the file, as every caller in the repository does; resynchronising from an offset is not modelled.
- `Filters.CreateFilter`: keeps bits as a sequence, eight to a byte only in number; the number of probes is given, not computed from 0.69 times the bits per key.
- `TableFiles.GetFromFile`: is for tables without a filter, which is the default, and without compression; the bytes of a filter block and the block cache in front of the file are not modelled.
- `TableFiles.WriteTable`: is for blocks and an index of less than 4 GiB each, restart offsets being 32 bits wide, and files of less than 8 EiB.
- `StoredTables.BuildBlock`: is for entries that take less than 4 GiB together.
- `Blocks.DecodeEntry`: adds two 32-bit lengths without wrapping round, which matters only for bytes no builder wrote.
- `Cache.LRUCache.Insert`: the hash table is a map here, which `HandleTable` shows it to be, and the linked lists are sequences, so list surgery is not modelled.
- `HandleTables.HandleTable.Insert`: a chain is a sequence, not nodes linked in place, and masking a hash with the length less one is written as a remainder, the length being a power of two.
- `SkipList.SkipList.Insert`: nodes are numbered and never reclaimed, and each atomic load or store is one step in one order, so weaker memory orders are not modelled.
- `Crc32c.Extend`: the literal table entries are not compared with what they are generated from.
- `Engine.MemTableEntries`: a memtable is the set of its entries; that the skip list holds them in order is `SkipList`'s part.
- nanopb's callbacks, extensions, pointer fields and arrays of a fixed count; struct offsets and padding, so a struct is its fields' contents. A string or oneof member is read into cleared memory where the source leaves what was there, which only shows behind a string's end.
- `PbEncode.OStream.PutVarint`: sizes do not wrap round `size_t`, and streams are buffers or only count.
- `PbDecode.DecodeNoinit`: in an empty message the write to the terminator that takes a key with tag 0 is outside the struct, and only the bytes it takes are modelled.
- The Swift application, which has no invariants of this kind.
