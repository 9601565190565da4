# LevelDB and nanopb, modelled

This project models the storage engine LevelDB and the Protocol Buffers codec nanopb, both vendored in an iOS
application, and proves what they are for.

A LevelDB database is a memtable, an immutable memtable and seven levels of sorted table files, with write-ahead logs and
a MANIFEST on disk. `Engine` is a state machine over all of it: writes, snapshots, memtable switches, flushes, trivial
moves, compactions, deletion of obsolete files, and a crash with recovery at any point. Beside the state it carries the
history of acknowledged operations. `EngineTheorems` proves what every run keeps and refines it to a plain map per
snapshot. `DbImpl`, `Reopen`, `Inputs`, `FileSearch`, `CompactionLoop` and `Manifest` are the code itself, loop by loop,
proved to take those steps. User keys are positions in the comparator's order, real numbers; `DbFormat.PositionOrder`
shows the bytewise comparator fits.

Below the engine: the byte formats (`Coding`, `Batch`, `LogFormat`, `LogFile`, `EditCodec`, `ManifestBytes`,
`BlockFormat`, `Block`, `Bloom`, `FilterBlock`, `Separators`, `Table`, `TableFile`, `TableBuild`), the cursors
(`Merging`, `DbIter`, `Iterators`), the structures (`SkipList`, `LruCache`), the writer queue (`GroupCommit`) and the
checksum (`Crc32c`, section 12.1 of RFC 3720). `RecoverBytes` joins MANIFEST and log bytes to the engine's recovery, and
`CommitSteps` the writer queue to the engine's writes. `Protobuf` and `ProtobufStream` are nanopb (Protocol Buffers
encoding guide, "Base 128 Varints" and "Message Structure").

Beside the round trips stand laws over everything a reader may meet: `LogDamage` for damaged logs, `ProtobufLaws` for
messages from other writers, `Lifetimes` for how long files, versions and snapshots last. `Crc32cCheck` and
`FormatExamples` hold the constants and the bytes the formats are known by.

`dafny verify dfyconfig.toml` checks everything.

## Findings

Four promises do not hold of the code as it is. Each has a concrete counterexample and the exact condition under which
it does hold.

- Dropping a deletion can bring an older value back. AddBoundaryInputs is applied to the inputs of `level` only
  (`db/version_set.cc:1407` and `1422`), so a user key can continue into a `level+1` file that is left out.
  `UnclosedInputs.DeletedKeyComesBack` is a run from a new database that does it, and `UnclosedInputs.PickExample` shows
  the picker cannot choose otherwise there. `SafeCompaction.CompactionKeepsReadsExactly` is the exact condition on one
  file, its neighbour and one lookup; `SafeCompaction.ClosedIsSafe` says a boundary step at `level+1` would settle it.
  Shape, age order and durability hold all the same (`EngineTheorems.RunKeeps`, `RunIsDurable`), and a run reads as a
  plain map exactly as long as its compactions are safe (`EngineTheorems.RunRefinesMapExactly`).
- VersionEdit::Clear leaves the compaction pointers in place (`db/version_edit.cc:26-39`), so decoding into an edit that
  holds some does not restore the encoded edit: exactly then (`EditCodec.RoundTripIff`).
- Replaying a MANIFEST through one Builder need not give what installing its edits one by one gives: a file number that
  leaves a level and comes back naming another file can bring the first one back (`Manifest.ReplayNeedsNames`). Replay is
  exact if and only if no file returns so (`Manifest.ReplayExactly`). Only a foreign MANIFEST can break it: no run of the
  engine writes one that does (`EngineTheorems.RunReplaysExactly`).
- nanopb encodes a string that fills its buffer and refuses to decode it (`Protobuf.FullStringIsLost`);
  `Protobuf.MsgTrip` says exactly which messages come back.

## Model

| member | source | states |
|---|---|---|
| `EngineTheorems.StepKeeps` | Firebase/FinalProject/Pods/leveldb-library/db/db_impl.cc:535-876 | every step (write, snapshot, memtable switch, flush, output reservation, trivial move, compaction, file deletion, crash with recovery) keeps the whole invariant; only a compaction drops entries, and only what its loop drops from its inputs |
| `EngineTheorems.RunKeeps` | Firebase/FinalProject/Pods/leveldb-library/db/version_set.cc:491-516 | in every state of every run, unsafe compactions and crashes included: levels 1 and up are sorted with disjoint ranges, sequence numbers of a user key fall from level 0 newest to oldest and down the levels, and logs, tables and MANIFEST agree with memory |
| `EngineTheorems.RunIsDurable` | Firebase/FinalProject/Pods/leveldb-library/db/db_impl.cc:223-278 | in every state of every run the logs at or above LogNumber hold, in order, exactly the acknowledged operations not yet flushed; tables hold only flushed ones; and no table that a live version or a pending output names is missing |
| `EngineTheorems.RunIsDurableMap` | Firebase/FinalProject/Pods/leveldb-library/db/db_impl.cc:280-369 | with safe compactions the current tables and those logs together answer every read, at any live snapshot, as a plain map would |
| `EngineTheorems.RunRefinesMap` | Firebase/FinalProject/Pods/leveldb-library/db/db_impl.cc:1100-1145 | in every state of every run of safe steps, reading any user key at any live snapshot or now gives what a plain map updated by the acknowledged operations held then |
| `EngineTheorems.RunRefinesMapExactly` | Firebase/FinalProject/Pods/leveldb-library/db/db_impl.cc:1100-1145 | all states up to one of a run read as the plain map did if and only if every step before it is safe |
| `EngineTheorems.StepIsFaithful` | Firebase/FinalProject/Pods/leveldb-library/db/db_impl.cc:878-1018 | every safe step keeps all reads at or after the oldest snapshot |
| `EngineTheorems.CompactionExact` | Firebase/FinalProject/Pods/leveldb-library/db/db_impl.cc:930-963 | a compaction of any state satisfying the invariant keeps every read at or after the oldest snapshot if and only if no dropped deletion has, next below it outside the inputs, a value |
| `SafeCompaction.SafeExactly` | Firebase/FinalProject/Pods/leveldb-library/db/version_set.cc:1378-1446 | that holds if and only if no file a boundary step at level+1 would add starts with a value which a deletion in the neighbouring input, the entry the oldest snapshot reads for that key, hides |
| `SafeCompaction.CompactionKeepsReadsExactly` | Firebase/FinalProject/Pods/leveldb-library/db/version_set.cc:1378-1446 | so a compaction keeps every read at or after the oldest snapshot exactly under that condition on two files and one lookup |
| `SafeCompaction.ClosedIsSafe` | Firebase/FinalProject/Pods/leveldb-library/db/version_set.cc:1378-1401 | inputs user-key closed at level+1 make every compaction safe |
| `UnclosedInputs.PickExample` | Firebase/FinalProject/Pods/leveldb-library/db/version_set.cc:1270-1322 | on a reachable version whose level 3 splits one user key over two files, PickCompaction takes only the first of them, whatever the pointer and limits |
| `UnclosedInputs.DeletedKeyComesBack` | Firebase/FinalProject/Pods/leveldb-library/db/version_set.cc:1403-1422 | a run from a new database ends in that compaction: a deleted key reads as absent before it and as its old value after it, with nothing written |
| `EngineRecovery.ReplayGivesCurrent` | Firebase/FinalProject/Pods/leveldb-library/db/version_set.cc:886-1000 | one Builder over the whole MANIFEST rebuilds exactly the version that was current |
| `EngineRecovery.RecoverKeeps` | Firebase/FinalProject/Pods/leveldb-library/db/db_impl.cc:280-489 | a crash at any point followed by recovery keeps the history and every entry of the database |
| `EngineRecovery.WrittenCovers` | Firebase/FinalProject/Pods/leveldb-library/db/db_impl.cc:371-489 | the level-0 tables recovery writes hold exactly the operations of the logs, later tables strictly newer ones |
| `Visibility.CompactionPreservesReadsIff` | Firebase/FinalProject/Pods/leveldb-library/db/db_impl.cc:946-960 | over bare sets of entries: dropping hidden entries and base-level deletions preserves every read at or after the oldest snapshot if and only if no dropped deletion uncovers a value |
| `Visibility.KeptExactly` | Firebase/FinalProject/Pods/leveldb-library/db/db_impl.cc:930-963 | the entries a compaction keeps are those someone can still read among its inputs, obsolete deletions apart |
| `Visibility.SeekFindsNewest` | Firebase/FinalProject/Pods/leveldb-library/db/memtable.cc:100-134 | seeking a sorted run to the lookup key finds the newest matching entry, or shows there is none |
| `History.HistoryIsMap` | Firebase/FinalProject/Pods/leveldb-library/db/db_impl.cc:1185-1256 | reading the entries of a history at a sequence number is looking the key up in the map built by that many operations |
| `LevelSteps.CompactionKeepsShape` | Firebase/FinalProject/Pods/leveldb-library/db/version_set.cc:1403-1462 | replacing chosen inputs by sorted disjoint outputs keeps levels sorted, disjoint and file numbers unique |
| `LevelSteps.CompactionKeepsAge` | Firebase/FinalProject/Pods/leveldb-library/db/version_set.cc:1403-1462 | and keeps entries of a user key getting older down the levels |
| `LevelSteps.FlushKeepsAge` | Firebase/FinalProject/Pods/leveldb-library/db/version_set.cc:491-516 | a flushed table put at a level no file above or at which meets its range keeps the age order |
| `FileSearch.FindFile` | Firebase/FinalProject/Pods/leveldb-library/db/version_set.cc:88-106 | the binary search splits a level at the first file whose largest key is not before the target |
| `FileSearch.SomeFileOverlapsRange` | Firebase/FinalProject/Pods/leveldb-library/db/version_set.cc:122-155 | true exactly when some file of the level meets the user-key range, both for disjoint and for level-0 files |
| `FileSearch.SearchVersion` | Firebase/FinalProject/Pods/leveldb-library/db/version_set.cc:326-421 | the early-stopping search by levels returns exactly the newest matching entry over all the tables, or none if there is none |
| `FileSearch.SearchLevelZero` | Firebase/FinalProject/Pods/leveldb-library/db/version_set.cc:346-366 | level 0, newest file first, the first hit is the newest in the level |
| `Inputs.GetOverlappingInputs` | Firebase/FinalProject/Pods/leveldb-library/db/version_set.cc:519-559 | ends with exactly the files meeting the widened range; at level 0 that range is the least one, from the range asked for on, that no file left out meets |
| `Inputs.AddBoundaryInputs` | Firebase/FinalProject/Pods/leveldb-library/db/version_set.cc:1378-1401 | the files taken, followed by the chain of boundary files: each the one of least smallest key that continues the user key of the largest key before it, until no file of the level does |
| `Inputs.CompleteInputs` | Firebase/FinalProject/Pods/leveldb-library/db/version_set.cc:1403-1407 | exactly the choice and its boundary chain; nothing older than a chosen entry of the same user key is left in the level |
| `Inputs.SetupOtherInputs` | Firebase/FinalProject/Pods/leveldb-library/db/version_set.cc:1403-1462 | the inputs are the choice with its boundary chain, or its expansion exactly when that takes more files, keeps the level+1 files and the byte limit; the level+1 inputs are exactly what meets the user-key range of the final level inputs, whose ends are the range given |
| `Inputs.TryExpand` | Firebase/FinalProject/Pods/leveldb-library/db/version_set.cc:1417-1446 | the expansion is taken exactly when it has more files, its bytes with those of level+1 are below the limit, and the level+1 files stay the same |
| `Inputs.PickCompaction` | Firebase/FinalProject/Pods/leveldb-library/db/version_set.cc:1270-1322 | without a file worn out by seeks, it starts from the first file that ends after the compaction pointer, the first of the level if none does, else from the worn-out one; the inputs are exactly what follows from that start: at level 0 the least closed range around it, then the boundary chain and the expansion; the largest key is the next compaction pointer |
| `Inputs.CompactRange` | Firebase/FinalProject/Pods/leveldb-library/db/version_set.cc:1464-1507 | finds a selection exactly when some file of the level meets the manual range, and then the first that does is in it; deeper than level 0 the files meeting the range are taken in order up to the first at which the size limit is reached |
| `Inputs.PickLevelForMemTableOutput` | Firebase/FinalProject/Pods/leveldb-library/db/version_set.cc:491-517 | the level chosen is at most 2, and deeper than 0 only if no file down to it meets the range; it stops above 2 only for a file of level 0 or of the next level that meets the range, or for too much overlap two levels down |
| `CompactionLoop.Compaction.IsBaseLevelForKey` | Firebase/FinalProject/Pods/leveldb-library/db/version_set.cc:1533-1552 | for ascending user keys the advancing level cursors agree with a full scan of the deeper levels |
| `CompactionLoop.DoCompactionWork` | Firebase/FinalProject/Pods/leveldb-library/db/db_impl.cc:878-1018 | the outputs, in order, are exactly the input entries that are neither hidden nor obsolete deletions, in sorted disjoint files that begin exactly where an output was full or was to stop before an entry in between |
| `CompactionLoop.KeptSeqIsKept` | Firebase/FinalProject/Pods/leveldb-library/db/db_impl.cc:930-963 | the running variables of the loop decide exactly the set of entries to keep |
| `Manifest.ReplayExactly` | Firebase/FinalProject/Pods/leveldb-library/db/version_set.cc:650-754 | folding all edits through one Builder and saving once gives what installing them one by one gives if and only if, for every number under which a file was added after its last deletion, all files ever added under it were |
| `Manifest.ReplayIsInstall` | Firebase/FinalProject/Pods/leveldb-library/db/version_set.cc:650-754 | in particular when no number names two files |
| `Manifest.ReplayNeedsNames` | Firebase/FinalProject/Pods/leveldb-library/db/version_set.cc:650-754 | without the condition it is false: edits are given for which a removed file comes back |
| `EngineTheorems.RunReplaysExactly` | Firebase/FinalProject/Pods/leveldb-library/db/version_set.cc:650-754 | no run of the engine writes such a MANIFEST, so one Builder over it always gives the current version |
| `Manifest.Builder.Apply` | Firebase/FinalProject/Pods/leveldb-library/db/version_set.cc:650-692 | applies one edit to the deleted and added sets of every level |
| `Manifest.Builder.SaveTo` | Firebase/FinalProject/Pods/leveldb-library/db/version_set.cc:695-739 | merges added files into the base, without the deleted ones, in order |
| `DbImpl.DBImpl.constructor` | Firebase/FinalProject/Pods/leveldb-library/db/db_impl.cc:182-212 | a new database satisfies the invariant and stands for the empty map |
| `DbImpl.DBImpl.Get` | Firebase/FinalProject/Pods/leveldb-library/db/db_impl.cc:1100-1145 | memtable, immutable memtable, then tables, stopping at the first hit, returns what all entries together answer; and what the plain map held while compactions have been safe |
| `DbImpl.DBImpl.NewIterator` | Firebase/FinalProject/Pods/leveldb-library/db/db_impl.cc:1147-1157 | an iterator whose entries are exactly those of the database, at the snapshot |
| `DbImpl.DBImpl.Write` | Firebase/FinalProject/Pods/leveldb-library/db/db_impl.cc:1201-1237 | appends the batch to the log and the memtable at consecutive sequence numbers: a Write step |
| `DbImpl.DBImpl.SwitchMemTable` | Firebase/FinalProject/Pods/leveldb-library/db/db_impl.cc:1346-1366 | a SwitchMemTable step |
| `DbImpl.DBImpl.CompactMemTable` | Firebase/FinalProject/Pods/leveldb-library/db/db_impl.cc:535-566 | a Flush step at a level clear down to it, no deeper one of which would do |
| `DbImpl.DBImpl.CompactLevel` | Firebase/FinalProject/Pods/leveldb-library/db/db_impl.cc:688-767 | a Move step, exactly for one input file alone where a move is allowed, or ReserveOutput steps and a Compact step; its inputs hold the first file of the level past the pointer, or the one worn out by seeks, and are exactly those that follow from it; the compaction pointer becomes the largest key of the inputs |
| `DbImpl.DBImpl.CompactManually` | Firebase/FinalProject/Pods/leveldb-library/db/db_impl.cc:688-767 | done, with nothing changed, exactly when no file of the level meets the range; else ReserveOutput steps and a Compact step on exactly the inputs CompactRange promises, the first file meeting the range among them |
| `DbImpl.MergesDownKeeps` | Firebase/FinalProject/Pods/leveldb-library/db/db_impl.cc:860-876 | the latter keep the invariant, and the reads if the compaction is safe |
| `DbImpl.RunCompaction` | Firebase/FinalProject/Pods/leveldb-library/db/db_impl.cc:878-1018 | merging the inputs and running the loop writes exactly the kept entries |
| `DbImpl.InstallEdit` | Firebase/FinalProject/Pods/leveldb-library/db/version_set.cc:801-884 | a Builder run on the current version installs the edit |
| `Reopen.ReplayManifest` | Firebase/FinalProject/Pods/leveldb-library/db/version_set.cc:886-1000 | the loop over the edits rebuilds the version and the last value of each counter |
| `Reopen.RecoverLogFile` | Firebase/FinalProject/Pods/leveldb-library/db/db_impl.cc:371-489 | the records read are exactly those written out as level-0 tables, each table a stretch of records that ends where the memtable was full or with the log, and nowhere else |
| `Reopen.Recover` | Firebase/FinalProject/Pods/leveldb-library/db/db_impl.cc:280-369 | computes everything a CrashAndRecover step needs, with no table missing |
| `Reopen.Open` | Firebase/FinalProject/Pods/leveldb-library/db/db_impl.cc:1474-1506 | reopening after a crash is a CrashAndRecover step |
| `Reopen.DeleteObsoleteFiles` | Firebase/FinalProject/Pods/leveldb-library/db/db_impl.cc:223-278 | computes the DeleteObsoleteFiles step on the disk, which `Lifetimes.DeletesExactly` says is to keep exactly what is needed |
| `Lifetimes.DeletesExactly` | Firebase/FinalProject/Pods/leveldb-library/db/db_impl.cc:223-278 | after deleting obsolete files a table is on disk if and only if it was and the current version, a version an iterator holds or a pending output needs it; a log if and only if it was and its number is not below LogNumber; nothing else changes |
| `Lifetimes.RunDeletesExactly` | Firebase/FinalProject/Pods/leveldb-library/db/db_impl.cc:223-278 | so in every run the tables left are exactly the needed ones, none of which was missing |
| `Lifetimes.CompactionReclaims` | Firebase/FinalProject/Pods/leveldb-library/db/db_impl.cc:860-876 | once a compaction is installed, with no older version held, deleting leaves only the tables of the new version: those of the inputs go |
| `Lifetimes.PinnedStays` | Firebase/FinalProject/Pods/leveldb-library/db/db_impl.cc:1062-1087 | in every run, no table of the version an iterator holds is deleted before the iterator lets it go, whatever steps lie between |
| `Lifetimes.SnapshotStays` | Firebase/FinalProject/Pods/leveldb-library/db/db_impl.cc:1166-1174 | in every run of safe steps, a snapshot reads until its release what the plain map held when it was taken |
| `Lifetimes.CompactionKeepsExactly` | Firebase/FinalProject/Pods/leveldb-library/db/db_impl.cc:930-963 | a compaction writes an input entry if and only if it is the newest of its user key at some sequence number from the oldest snapshot on, and is not a deletion at or below that snapshot whose user key no file two or more levels down spans |
| `EditCodec.DecodeEncode` | Firebase/FinalProject/Pods/leveldb-library/db/version_edit.cc:41-205 | decoding an encoded edit restores it after whatever compaction pointers the target held |
| `EditCodec.RoundTripIff` | Firebase/FinalProject/Pods/leveldb-library/db/version_edit.cc:26-39 | so decoding is an exact inverse if and only if the target held no compaction pointers |
| `EditCodec.ManifestRoundTrip` | Firebase/FinalProject/Pods/leveldb-library/db/version_edit.cc:41-205 | a MANIFEST written and read back gives the same edits with nothing reported |
| `EditCodec.VersionEdit.Decode` | Firebase/FinalProject/Pods/leveldb-library/db/version_edit.cc:107-205 | the decoding loop computes the decoding function, errors included |
| `EditCodec.VersionEdit.EncodeTo` | Firebase/FinalProject/Pods/leveldb-library/db/version_edit.cc:41-85 | appends the encoding |
| `FormatExamples.EditFields` | Firebase/FinalProject/Pods/leveldb-library/db/version_edit.cc:14-24 | the bytes of one field of each of the eight tags |
| `FormatExamples.BadEditField` | Firebase/FinalProject/Pods/leveldb-library/db/version_edit.cc:97-195 | levels from 7 on, and unknown tags, fail the edit |
| `ManifestBytes.ParseEncoded` | Firebase/FinalProject/Pods/leveldb-library/db/dbformat.h:165-177 | parsing an appended internal key gives it back |
| `ManifestBytes.ReplayOfBytes` | Firebase/FinalProject/Pods/leveldb-library/db/version_set.cc:886-1000 | from bytes to version: the log records read back, decoded and folded through one Builder give what installing the edits one by one gives, and the same counters |
| `ManifestBytes.RecoverManifest` | Firebase/FinalProject/Pods/leveldb-library/db/version_set.cc:911-978 | the imperative loop does the same |
| `ManifestBytes.RecoverCurrent` | Firebase/FinalProject/Pods/leveldb-library/db/version_set.cc:886-1000 | for any state satisfying the invariant, the MANIFEST bytes, an edit torn by the crash after them or not, and the tables on disk give back the current version, file by file and entry by entry, and the log number |
| `ManifestBytes.RecoverCut` | Firebase/FinalProject/Pods/leveldb-library/db/version_set.cc:911-978 | a MANIFEST cut at any byte gives what the edits wholly inside the cut give |
| `Batch.BatchRoundTrip` | Firebase/FinalProject/Pods/leveldb-library/db/write_batch.cc:42-80 | a batch is walked back as it was built, with its sequence number and count |
| `Batch.WriteBatch.Append` | Firebase/FinalProject/Pods/leveldb-library/db/write_batch.cc:144-149 | appends the calls of another batch, counts added modulo 2^32 |
| `Batch.WriteBatch.Iterate` | Firebase/FinalProject/Pods/leveldb-library/db/write_batch.cc:42-80 | the loop computes the walk, for damaged batches too: too small, bad record, unknown tag, wrong count |
| `FormatExamples.BatchExample` | Firebase/FinalProject/Pods/leveldb-library/db/write_batch.cc:5-14 | the bytes of a batch with a Put and a Delete |
| `FormatExamples.CountIsChecked` | Firebase/FinalProject/Pods/leveldb-library/db/write_batch.cc:42-80 | a batch of any calls under any count is walked and then refused exactly if the count is not their number |
| `FormatExamples.UnknownKind` | Firebase/FinalProject/Pods/leveldb-library/db/write_batch.cc:70-73 | a record of a kind above 1 behind any calls ends the walk with an error |
| `Batch.LogReplays` | Firebase/FinalProject/Pods/leveldb-library/db/db_impl.cc:412-436 | a log of batches cut at any byte replays exactly the batches wholly inside the cut |
| `Batch.ReplayLog` | Firebase/FinalProject/Pods/leveldb-library/db/db_impl.cc:412-436 | reading and decoding a log file, cut or not, gives the records of the whole batches in it |
| `RecoverBytes.ReadLogs` | Firebase/FinalProject/Pods/leveldb-library/db/db_impl.cc:318-357 | of the log files on disk those from the log number on are read, each giving its records |
| `RecoverBytes.Recover` | Firebase/FinalProject/Pods/leveldb-library/db/db_impl.cc:280-369 | from the bytes of MANIFEST and logs, cut anywhere behind their last whole edit and batches, everything an enabled CrashAndRecover step needs |
| `RecoverBytes.RecoveredIsSame` | Firebase/FinalProject/Pods/leveldb-library/db/db_impl.cc:280-369 | and that step keeps the history and every entry of the database |
| `LogFormat.RoundTrip` | Firebase/FinalProject/Pods/leveldb-library/db/log_reader.cc:56-174 | reading a log written by any list of AddRecord calls returns exactly those records in order, with nothing reported |
| `LogFormat.CrashPrefix` | Firebase/FinalProject/Pods/leveldb-library/db/log_reader.cc:189-271 | reading any byte prefix of it returns exactly the records wholly inside the prefix, with no corruption reported |
| `LogFormat.ReadsWhole` | Firebase/FinalProject/Pods/leveldb-library/db/log_reader.cc:56-174 | a record of any length at any block offset, fragmented over blocks, is put together again |
| `LogDamage.ReadsChecked` | Firebase/FinalProject/Pods/leveldb-library/db/log_reader.cc:189-271 | whatever bytes a file holds, each record read from it is the concatenation of payloads that lie in it one after the other, each under the masked checksum of its own type and payload, of types full, or first, middle and last; and the records lie in order |
| `LogDamage.DamageCostsItsBlock` | Firebase/FinalProject/Pods/leveldb-library/db/log_reader.cc:242-257 | a written log in which one checksum no longer matches gives the records before the damaged one, none that starts in the rest of its block, all from the next block on, and at least one report |
| `LogDamage.BadLengthReported` | Firebase/FinalProject/Pods/leveldb-library/db/log_reader.cc:216-233 | between records, a length over the end of a whole block is one report, and reading goes on at the next block |
| `LogDamage.UnknownTypeReported` | Firebase/FinalProject/Pods/leveldb-library/db/log_reader.cc:161-170 | a sound piece of unknown type between records is one report, and reading goes on behind it |
| `LogDamage.UnendedReported` | Firebase/FinalProject/Pods/leveldb-library/db/log_reader.cc:91-121 | a first fragment with data, followed by a full record, is one report; the full record is returned |
| `LogFile.LogWriter.AddRecord` | Firebase/FinalProject/Pods/leveldb-library/db/log_writer.cc:34-80 | the fragmenting loop appends exactly the specified bytes |
| `FormatExamples.FullRecord` | Firebase/FinalProject/Pods/leveldb-library/db/log_writer.cc:82-108 | a record that fits its block is one piece of type 1: masked checksum of type and data, length, type, data |
| `FormatExamples.CutRecord` | Firebase/FinalProject/Pods/leveldb-library/db/log_writer.cc:34-80 | one over two block ends is three pieces of types 2, 3 and 4 |
| `FormatExamples.LogMask` | Firebase/FinalProject/Pods/leveldb-library/util/crc32c.h:19-37 | the rotation and the constant of the stored checksum |
| `LogFile.LogReader.ReadPhysicalRecord` | Firebase/FinalProject/Pods/leveldb-library/db/log_reader.cc:189-271 | reads the next physical record or reports what is wrong, as specified on the file contents |
| `LogFile.LogReader.NextRecord` | Firebase/FinalProject/Pods/leveldb-library/db/log_reader.cc:56-174 | reads the next logical record as specified on the file contents |
| `LogFile.ReadLog` | Firebase/FinalProject/Pods/leveldb-library/db/log_reader.cc:56-174 | reading to the end yields all records and the number of reports |
| `GroupCommit.BuildBatchGroup` | Firebase/FinalProject/Pods/leveldb-library/db/db_impl.cc:1260-1306 | takes as many waiting writers as may join: no sync writer behind a non-sync leader, within the size limit; and concatenates their batches |
| `GroupCommit.GroupExactly` | Firebase/FinalProject/Pods/leveldb-library/db/db_impl.cc:1260-1306 | a group is what the limits say: a leader of up to 131072 bytes takes up to 131072 more, a larger one fills up to 1048576; sync writers do not follow a leader that does not sync; and it ends only at the end of the queue or before a writer that would break one of these |
| `GroupCommit.GroupWithin` | Firebase/FinalProject/Pods/leveldb-library/db/db_impl.cc:1269-1276 | so a group stays within that limit unless its leader alone is larger |
| `GroupCommit.StepKeeps` | Firebase/FinalProject/Pods/leveldb-library/db/db_impl.cc:1185-1256 | every interleaved step of the writer queue keeps the invariant |
| `GroupCommit.RunCommits` | Firebase/FinalProject/Pods/leveldb-library/db/db_impl.cc:1185-1256 | in every run: applied batches are in the memtable once each, in queue order, at consecutive disjoint sequence numbers; every acknowledged batch was applied and lies at its own numbers in a log record, a synced one if it asked for sync; and each member has its leader status |
| `CommitSteps.CommitIsWrite` | Firebase/FinalProject/Pods/leveldb-library/db/db_impl.cc:1201-1237 | committing a group is the engine step that writes the operations of the group: the same log record, the same entries, the same last sequence number |
| `CommitSteps.RunIsHistory` | Firebase/FinalProject/Pods/leveldb-library/db/db_impl.cc:1185-1256 | a run of the queue in which no commit fails reaches a reachable engine state whose history holds the operations of every applied batch at its sequence numbers |
| `Merging.UnionExists` | Firebase/FinalProject/Pods/leveldb-library/table/merger.cc:31-105 | children with distinct keys have a sorted union |
| `Merging.MergingIterator.SeekToFirst` | Firebase/FinalProject/Pods/leveldb-library/table/merger.cc:31-37 | onto the first entry of the union |
| `Merging.MergingIterator.SeekToLast` | Firebase/FinalProject/Pods/leveldb-library/table/merger.cc:39-45 | onto the last |
| `Merging.MergingIterator.Seek` | Firebase/FinalProject/Pods/leveldb-library/table/merger.cc:47-53 | onto the first entry not before the target |
| `Merging.MergingIterator.Next` | Firebase/FinalProject/Pods/leveldb-library/table/merger.cc:55-79 | one on in the union, whatever the direction before |
| `Merging.MergingIterator.Prev` | Firebase/FinalProject/Pods/leveldb-library/table/merger.cc:81-105 | one back in the union, whatever the direction before |
| `DbIter.DBIter.Next` | Firebase/FinalProject/Pods/leveldb-library/db/db_iter.cc:141-198 | to the least key of the map after the current one, its value with it, after any earlier calls |
| `DbIter.DBIter.Prev` | Firebase/FinalProject/Pods/leveldb-library/db/db_iter.cc:200-267 | to the greatest key of the map before the current one |
| `DbIter.DBIter.Seek` | Firebase/FinalProject/Pods/leveldb-library/db/db_iter.cc:269-281 | to the least key of the map from the target on |
| `DbIter.DBIter.SeekToFirst` | Firebase/FinalProject/Pods/leveldb-library/db/db_iter.cc:283-292 | to the least key |
| `DbIter.DBIter.SeekToLast` | Firebase/FinalProject/Pods/leveldb-library/db/db_iter.cc:294-299 | to the greatest key |
| `Iterators.AddIterators` | Firebase/FinalProject/Pods/leveldb-library/db/version_set.cc:230-251 | the runs of a version, level-0 files one by one and deeper levels each as one run, hold exactly its entries, keys distinct |
| `Iterators.MakeInputIterator` | Firebase/FinalProject/Pods/leveldb-library/db/version_set.cc:1237-1268 | the runs of a compaction input hold exactly the input entries |
| `Iterators.Drain` | Firebase/FinalProject/Pods/leveldb-library/db/db_impl.cc:906-963 | draining the merged runs yields the input entries in key order, each once |
| `SkipList.StepKeeps` | Firebase/FinalProject/Pods/leveldb-library/db/skiplist.h:337-368 | every store of an insertion and every move of a racing reader keeps each level sorted, linked and part of the level below |
| `SkipList.LevelsAreSublists` | Firebase/FinalProject/Pods/leveldb-library/db/skiplist.h:337-368 | in every state of every run, list i+1 is a sublist of list i and both are in key order |
| `SkipList.RacingSearch` | Firebase/FinalProject/Pods/leveldb-library/db/skiplist.h:260-281 | a search that races insertions ends at a node not before its target, and skips no key that was present when it began |
| `SkipList.SkipListImpl.Insert` | Firebase/FinalProject/Pods/leveldb-library/db/skiplist.h:337-368 | a new node with the key is on every level below its height, in place, and no other key changes |
| `SkipList.SkipListImpl.Contains` | Firebase/FinalProject/Pods/leveldb-library/db/skiplist.h:371-379 | true exactly for keys inserted |
| `SkipList.SkipListImpl.FindGreaterOrEqual` | Firebase/FinalProject/Pods/leveldb-library/db/skiplist.h:260-281 | the first node not before the key |
| `Crc32c.Extend` | Firebase/FinalProject/Pods/leveldb-library/util/crc32c.cc:276-377 | the four-lane strided form, with its alignment, lane, word and byte loops, equals the bit-at-a-time CRC-32C for every buffer, length and alignment |
| `Crc32c.CrcConcat` | Firebase/FinalProject/Pods/leveldb-library/util/crc32c.cc:276-377 | extending over a concatenation composes |
| `Crc32c.TablesExist` | Firebase/FinalProject/Pods/leveldb-library/util/crc32c.cc:20-245 | tables with the stated meaning exist: one byte, and four strides of sixteen bytes |
| `Crc32c.Linear` | Firebase/FinalProject/Pods/leveldb-library/util/crc32c.cc:286-309 | advancing is linear over exclusive or, which is why lanes can be combined |
| `Crc32cCheck.TableEntries` | Firebase/FinalProject/Pods/leveldb-library/util/crc32c.cc:20-63 | in any tables of the stated meaning the byte table has the constants of the source at the eight single bits |
| `Crc32cCheck.EntriesAdd` | Firebase/FinalProject/Pods/leveldb-library/util/crc32c.cc:20-63 | every other entry is the exclusive or of two of fewer bits |
| `Crc32cCheck.InversionCheck` | Firebase/FinalProject/Pods/leveldb-library/util/crc32c.cc:276-377 | the CRC of the byte 0xff is 0xff000000, which pins the inversions before and after |
| `LruCache.HandleTable.Insert` | Firebase/FinalProject/Pods/leveldb-library/util/cache.cc:78-92 | replaces the entry of that name or adds it, resizing when needed; the table holds exactly the given entries |
| `LruCache.HandleTable.Remove` | Firebase/FinalProject/Pods/leveldb-library/util/cache.cc:94-103 | removes the entry of that name if there is one |
| `LruCache.LRUCache.Insert` | Firebase/FinalProject/Pods/leveldb-library/util/cache.cc:266-303 | the new entry is cached in place of the one of its name; usage grows by its charge, less the displaced and evicted ones; the oldest entries no client holds are evicted in order, each only while usage is over capacity, none if it fits, until it fits or the lru list is empty |
| `LruCache.LRUCache.Lookup` | Firebase/FinalProject/Pods/leveldb-library/util/cache.cc:252-259 | a hit is the cached entry of that name, one reference more held on it and off the lru list; a miss means there is none |
| `LruCache.LRUCache.Release` | Firebase/FinalProject/Pods/leveldb-library/util/cache.cc:261-264 | one client reference less and nothing else; a cached entry whose last client lets go joins the young end of the lru list; an entry is freed exactly once, when its last reference goes |
| `LruCache.LRUCache.Erase` | Firebase/FinalProject/Pods/leveldb-library/util/cache.cc:318-321 | the entry of that name, if any, is no longer cached, counted or on the lru list |
| `LruCache.LRUCache.Prune` | Firebase/FinalProject/Pods/leveldb-library/util/cache.cc:323-333 | exactly the entries no client holds are dropped |
| `Separators.FindShortestSeparator` | Firebase/FinalProject/Pods/leveldb-library/util/comparator.cc:29-52 | the result is the start or lies strictly between, never longer, and is the start with the first differing byte raised exactly when that fits |
| `Separators.FindShortSuccessor` | Firebase/FinalProject/Pods/leveldb-library/util/comparator.cc:52-64 | the first byte that can be raised is raised and the rest dropped |
| `Separators.InternalSeparator` | Firebase/FinalProject/Pods/leveldb-library/db/dbformat.cc:69-86 | an internal key that separates: the first itself, or the shortened user key with the greatest tag exactly when that is shorter and greater |
| `Separators.SeparatorBetween` | Firebase/FinalProject/Pods/leveldb-library/db/dbformat.cc:69-86 | a separator is not before the last key of its block and is before the first key of the next |
| `Bloom.CreateFilter` | Firebase/FinalProject/Pods/leveldb-library/util/bloom.cc:28-54 | a bit of the array is set if and only if it is a probe of an added key; the last byte is the number of probes |
| `Bloom.KeyMayMatch` | Firebase/FinalProject/Pods/leveldb-library/util/bloom.cc:56-80 | true exactly when the filter has an array and all probed bits are set, or its probe count is a reserved one |
| `FormatExamples.BloomNumbers` | Firebase/FinalProject/Pods/leveldb-library/util/bloom.cc:17-54 | probe counts and array sizes for given bits a key; the step from probe to probe is the hash rotated |
| `FilterBlock.FilterBlockBuilder.Finish` | Firebase/FinalProject/Pods/leveldb-library/table/filter_block.cc:35-75 | the bytes are the filters, their offsets and where those start; every key added for a stretch of the file passes the filter of that stretch |
| `FilterBlock.BlockMayMatch` | Firebase/FinalProject/Pods/leveldb-library/table/filter_block.cc:77-104 | the reader on any bytes: what it answers for a good filter, an empty one, a damaged one and none |
| `FilterBlock.AdmitsExactly` | Firebase/FinalProject/Pods/leveldb-library/table/filter_block.cc:77-104 | reading a filter block that was built asks exactly the filter of the stretch; past the last one anything may match |
| `TableBuild.TableBuilder.Add` | Firebase/FinalProject/Pods/leveldb-library/table/table_builder.cc:94-123 | one row more, keys in order; afterwards either the file is unchanged and the data block below its size, or all rows are in the file |
| `TableBuild.TableBuilder.Flush` | Firebase/FinalProject/Pods/leveldb-library/table/table_builder.cc:125-139 | the rows collected, if any, become one more block at the end of the file |
| `TableBuild.TableBuilder.WriteBlock` | Firebase/FinalProject/Pods/leveldb-library/table/table_builder.cc:141-194 | the block is in the file at its handle, compressed if that pays, and read back with or without checking its checksum |
| `TableBuild.TableBuilder.Finish` | Firebase/FinalProject/Pods/leveldb-library/table/table_builder.cc:198-253 | the file is a table of exactly the rows added: data blocks, filter block, metaindex, index and footer all in place, an index key between each block and the next, filters that let every key of their block through |
| `TableBuild.BuildTable` | Firebase/FinalProject/Pods/leveldb-library/db/builder.cc:18-77 | a file of the rows with their first and last key; none when there are no rows |
| `Table.BlockSeek` | Firebase/FinalProject/Pods/leveldb-library/table/table.cc:216-244 | the search of the one block the index leads to finds what a scan of all rows finds for the user key |
| `TableFile.BlockWritten` | Firebase/FinalProject/Pods/leveldb-library/table/table_builder.cc:177-194 | contents written with their trailer are what ReadBlock returns for their handle, checksums checked or not |
| `TableFile.HoldsMayHold` | Firebase/FinalProject/Pods/leveldb-library/table/table_builder.cc:198-253 | a file as TableBuilder wrote it is one of those the reader is proved for |
| `TableFile.PackSaves` | Firebase/FinalProject/Pods/leveldb-library/table/table_builder.cc:141-175 | the compressed form is stored exactly when there is one and it saves more than an eighth |
| `FormatExamples.BlockIsChecked` | Firebase/FinalProject/Pods/leveldb-library/table/format.cc:64-139 | a block that is read has its trailer in the file, is of kind 0 or 1, and, when checksums are checked, matches the one stored |
| `FormatExamples.FooterIsChecked` | Firebase/FinalProject/Pods/leveldb-library/table/format.cc:41-62 | a footer that is read ends with the magic number |
| `TableFile.FooterRoundTrip` | Firebase/FinalProject/Pods/leveldb-library/table/format.cc:31-62 | the footer, 48 bytes with both handles and the magic number, is read back |
| `TableFile.Open` | Firebase/FinalProject/Pods/leveldb-library/table/table.cc:38-134 | on the file of a table, any of whose blocks may be damaged detectably, it fails exactly when the index block cannot be read; it reads the filters exactly when the reader has the policy of the name the file was written with and their blocks can be read |
| `TableFile.InternalGet` | Firebase/FinalProject/Pods/leveldb-library/table/table.cc:216-244 | over the bytes of the file, its index and its filters: what a linear scan of the rows finds for that user key, or corruption, and that only if some block cannot be read |
| `TableFile.Get` | Firebase/FinalProject/Pods/leveldb-library/db/table_cache.cc:100-112 | opening such a file and looking in it does the same, whatever the filter policies of writer and reader; it never fails on a file TableBuilder wrote |
| `TableFile.SeekBlock` | Firebase/FinalProject/Pods/leveldb-library/table/block.cc:163-201 | a block search with the internal-key comparator stops at the first row not before the key |
| `Block.BlockBuilder.Add` | Firebase/FinalProject/Pods/leveldb-library/table/block_builder.cc:72-106 | one more entry, sharing its prefix with the last key or starting a restart point |
| `Block.BlockBuilder.Finish` | Firebase/FinalProject/Pods/leveldb-library/table/block_builder.cc:62-70 | the finished bytes are the layout of exactly the entries added |
| `Block.BlockBuilder.EstimateIs` | Firebase/FinalProject/Pods/leveldb-library/table/block_builder.cc:56-60 | the size estimate is the length of what Finish would give |
| `Block.ReadItems` | Firebase/FinalProject/Pods/leveldb-library/table/block.cc:137-251 | iterating a finished block yields its entries |
| `Block.BlockIter.Seek` | Firebase/FinalProject/Pods/leveldb-library/table/block.cc:163-201 | binary search over restart points then a scan: lands on the first key not before the target |
| `Block.BlockIter.Prev` | Firebase/FinalProject/Pods/leveldb-library/table/block.cc:142-161 | one entry back, to none before the first: it undoes Next |
| `Block.BlockIter.Next` | Firebase/FinalProject/Pods/leveldb-library/table/block.cc:137-140 | one entry on |
| `BlockFormat.HeadRoundTrip` | Firebase/FinalProject/Pods/leveldb-library/table/block.cc:54-74 | the lengths of an entry are read back, on the fast path and the slow one |
| `FormatExamples.BlockExample` | Firebase/FinalProject/Pods/leveldb-library/table/block_builder.cc:5-27 | the bytes of a block of two entries that share a byte |
| `Coding.Varint32RoundTrip` | Firebase/FinalProject/Pods/leveldb-library/util/coding.cc:47-73 | a 32-bit varint comes back with what follows it |
| `Coding.Varint64RoundTrip` | Firebase/FinalProject/Pods/leveldb-library/util/coding.cc:81-96 | a 64-bit varint comes back with what follows it |
| `Coding.PrefixedRoundTrip` | Firebase/FinalProject/Pods/leveldb-library/util/coding.cc:98-101 | a length-prefixed string comes back with what follows it |
| `Coding.PutVarint64` | Firebase/FinalProject/Pods/leveldb-library/util/coding.cc:81-96 | the shifting loop appends the varint |
| `Coding.ScanLoop` | Firebase/FinalProject/Pods/leveldb-library/util/coding.cc:142-157 | the decoding loop computes the decoding function |
| `Coding.ReadsExactly` | Firebase/FinalProject/Pods/leveldb-library/util/coding.cc:109-157 | a 32-bit varint is read if and only if one of its first five bytes is below 128, a 64-bit one if and only if one of its first ten is; what follows that byte is left |
| `FormatExamples.NumberBytes` | Firebase/FinalProject/Pods/leveldb-library/util/coding.cc:9-73 | the bytes of given fixed-width numbers, varints and strings |
| `DbFormat.PositionOrder` | Firebase/FinalProject/Pods/leveldb-library/util/comparator.cc:25-27 | comparing byte strings is comparing their positions, and positions are distinct |
| `Protobuf.MsgTrip` | Firebase/FinalProject/Pods/nanopb/pb_decode.c:928-1076 | for every nested message whose encoding is under 2^63 bytes, decoding what was encoded gives the message back if it fits the room the decoder has, and is refused otherwise |
| `Protobuf.Get32Trip` | Firebase/FinalProject/Pods/nanopb/pb_decode.c:187-247 | a 32-bit number comes back and any longer one below 2^63 is refused |
| `Protobuf.FullStringIsLost` | Firebase/FinalProject/Pods/nanopb/pb_decode.c:1481-1517 | a string that fills its buffer is encoded, but its decoding is refused |
| `Protobuf.ZeroIsDefault` | Firebase/FinalProject/Pods/nanopb/pb_encode.c:240-338 | what proto3 leaves out as zero is exactly what a fresh message holds |
| `ProtobufStream.OStream.Write` | Firebase/FinalProject/Pods/nanopb/pb_encode.c:103-129 | refused exactly when a writing stream has no room; a sizing stream only counts |
| `ProtobufStream.OStream.WriteVarint` | Firebase/FinalProject/Pods/nanopb/pb_encode.c:608-628 | writes the varint |
| `ProtobufStream.EncodeSubmessage` | Firebase/FinalProject/Pods/nanopb/pb_encode.c:717-765 | the sizing pass counts exactly the bytes the writing pass emits through a stream of that length; it fails exactly when an array or byte string is over its limit or the stream is full |
| `ProtobufStream.EncodeArray` | Firebase/FinalProject/Pods/nanopb/pb_encode.c:147-236 | packed arrays with the length worked out first, other arrays value by value |
| `ProtobufStream.Encode` | Firebase/FinalProject/Pods/nanopb/pb_encode.c:528-550 | all fields in order; the stream takes exactly the encoding, or the call fails for the reasons above |
| `ProtobufStream.EncodedSize` | Firebase/FinalProject/Pods/nanopb/pb_encode.c:567-577 | the size reported is the length of the encoding |
| `ProtobufStream.FieldIter.FindTag` | Firebase/FinalProject/Pods/nanopb/pb_common.c:78-95 | from wherever the iterator stands it finds the field with the tag if there is one |
| `ProtobufStream.FullIsAllSeen` | Firebase/FinalProject/Pods/nanopb/pb_decode.c:1033-1073 | the mask check over the first 64 required fields is that each of them was seen |
| `ProtobufStream.DecodeNoinit` | Firebase/FinalProject/Pods/nanopb/pb_decode.c:928-1076 | the decoding loop with iterator, substreams and mask computes the decoding function |
| `ProtobufLaws.DecodesExactly` | Firebase/FinalProject/Pods/nanopb/pb_decode.c:1033-1073 | for every input: a message is decoded if and only if its fields can be read and the tag of each of the first 64 required fields is among those read |
| `ProtobufLaws.MissingIsRefused` | Firebase/FinalProject/Pods/nanopb/pb_decode.c:1033-1073 | any message encoded without one of its first 64 required fields is refused |
| `ProtobufLaws.UnknownChangesNothing` | Firebase/FinalProject/Pods/nanopb/pb_decode.c:958-988 | any unknown fields, of all four kinds, between the fields of a message leave what it decodes to unchanged |
| `ProtobufLaws.EitherForm` | Firebase/FinalProject/Pods/nanopb/pb_decode.c:423-463 | an array of numbers is read alike whether packed or value by value, onto whatever values are there |
| `ProtobufLaws.LastValueStands` | Firebase/FinalProject/Pods/nanopb/pb_decode.c:414-421 | of two values of one field the last stands |
| `ProtobufLaws.LastMemberStands` | Firebase/FinalProject/Pods/nanopb/pb_decode.c:465-480 | of two members of a oneof the last stands and the first is gone |
| `ProtobufLaws.DecodedIsHeld` | Firebase/FinalProject/Pods/nanopb/pb_decode.c:1328-1541 | for every input: whatever is decoded is in the range and the room of its fields |
| `ProtobufLaws.GuideExamples` | Firebase/FinalProject/Pods/nanopb/pb_encode.c:147-236 | the encoding of the published examples |
| `ProtobufLaws.GuidePacked` | Firebase/FinalProject/Pods/nanopb/pb_encode.c:147-236 | and of the published packed array |
| `ProtobufLaws.GuideNumbers` | Firebase/FinalProject/Pods/nanopb/pb_encode.c:579-686 | the published zigzag numbers and kinds on the wire |
| `ProtobufStream.ThereAndBack` | Firebase/FinalProject/Pods/nanopb/pb_decode.c:1078-1090 | encoding into a buffer succeeds exactly when the message is within the encoder limits and the buffer; decoding it returns the message exactly when it fits |

## Left out

- EngineTheorems.RunRefinesMap: assumes every compaction of the run is safe, because the code does not ensure it; EngineTheorems.RunRefinesMapExactly says the run refines the map only then, SafeCompaction.CompactionKeepsReadsExactly is the condition on one compaction and UnclosedInputs.DeletedKeyComesBack a run that breaks it.
- EngineTheorems.RunIsDurableMap: assumes the same.
- Protobuf.MsgTrip: assumes an encoding under 2^63 bytes, because pb_decode_varint32 would take a length near 2^64 for a sign-extended 32-bit one.
- CommitSteps.RunIsHistory: assumes no commit of the run fails, because the engine has no I/O errors.
- TableFile.Open: is for files whose footer is as written and whose blocks are as written or fail to be read; a block damaged so that it is read all the same is not modelled.
- TableFile.InternalGet: assumes the same, that no block, nor all filters together, has 2^32 bytes of entries and that the file has fewer than 2^64, because the code's 32-bit offsets and lengths wrap beyond; the block cache is left out.
- TableFile.Get: assumes the same, and leaves out the cache of open tables.
- Crc32c.TablesExist: computes the tables; of the constants written out in the source those of the byte table follow from Crc32cCheck.TableEntries and Crc32cCheck.EntriesAdd, those of the stride tables are not compared.
- Batch.WriteBatch.Iterate: the handler is the list of calls made; counting beyond 2^31 calls in one batch is not modelled.
- Picking and installing a compaction is one atomic step: a memtable flush in the middle of a compaction (`db/db_impl.cc:907-918`) is not interleaved.
- I/O errors, disk corruption, paranoid checks, background errors inside the engine, reuse_logs and the PrevLogNumber of old databases.
- The engine stops one operation before the last sequence number; running out of sequence numbers is not modelled.
- When to compact, flush or stop an output (scores, seek statistics, size limits, grandparent overlap) and the random height of a skip-list node are parameters.
- The engine's tables and logs hold entries and operations directly; their byte formats are joined to the engine for the MANIFEST (ManifestBytes) and the logs (RecoverBytes); for tables they are proved on their own (TableBuild, TableFile).
- A trivial move keeps the file object; file sizes carry no meaning in the engine.
- Level files behind a TwoLevelIterator are modelled as one concatenated run; its empty-block skipping has no counterpart.
- MergingIterator is proved for children without a key in common, which is how the engine uses it.
- Skip-list loads and stores are atomic steps; C++ memory orderings are not modelled.
- LRU lists are sequences, the bucket mask is a remainder, and the sharded cache around LRUCache is left out.
- The hash of the Bloom filters, the checksum of log records and blocks, and the compressor are parameters; a compressor must give back what it compressed.
- Crc32c: hardware acceleration and masking of stored checksums.
- The log reader's initial_offset, which every caller passes as 0; a stored record type of 5 or 6 is read as end of file or as damaged, as the code's own switch does.
- GroupCommit: memtable insertion failures inside InsertInto and the temporary batch object; BuildBatchGroup appends into it only from the second member on.
- nanopb: callbacks, extensions, pointer fields, fixed-count arrays, fixed-length bytes, custom default values, and the wrap-around of an 8-bit bit position on varints padded beyond 36 bytes; oneof members are separate slots of which one at most is set; invalid descriptors.
- Table iterators over whole files, table properties, approximate sizes, repair, environment and file names, status texts, statistics and dumping.
