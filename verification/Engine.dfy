/** The database as a state machine: DBImpl and VersionSet state, the disk, and the steps that change them
    (db/db_impl.cc, db/version_set.cc). */
module Engine {
  import opened DbFormat
  import opened Visibility
  import opened Files
  import opened Inputs
  import opened LevelSteps
  import opened CompactionLoop
  import opened Manifest
  import opened History

  // ---- The disk ----

  datatype Log = Log(number: nat, records: seq<Record>)

  /** What survives a crash.  Logs are listed in the order of their numbers; a table is present when its number is;
      `manifest` is the list of edits in the MANIFEST that CURRENT names. */
  datatype Disk = Disk(logs: seq<Log>, tables: set<nat>, manifest: seq<VersionEdit>)

  ghost function RecordEntries(records: seq<Record>): set<Entry> {
    if records == [] then {}
    else
      var r := records[|records| - 1];
      RecordEntries(records[..|records| - 1]) + set i | 0 <= i < |r.ops| :: EntryOf(r.ops[i], r.first + i)
  }

  /** The records hold exactly operations `a` to `b` of the history, in order. */
  ghost predicate Covers(records: seq<Record>, hist: seq<Op>, a: nat, b: nat)
    requires a <= b <= |hist|
  {
    if records == [] then a == b
    else
      var r := records[|records| - 1];
      && a + |r.ops| <= b
      && r.first == b - |r.ops| + 1
      && r.ops == hist[b - |r.ops|..b]
      && Covers(records[..|records| - 1], hist, a, b - |r.ops|)
  }

  function Flatten(logs: seq<Log>): seq<Record> {
    if logs == [] then [] else logs[0].records + Flatten(logs[1..])
  }

  /** The logs numbered at or above `n`. */
  function LogsFrom(logs: seq<Log>, n: nat): seq<Log> {
    if logs == [] then []
    else (if logs[0].number >= n then [logs[0]] else []) + LogsFrom(logs[1..], n)
  }

  ghost predicate Ascending(logs: seq<Log>) {
    forall i, j | 0 <= i < j < |logs| :: logs[i].number < logs[j].number
  }

  // ---- Reading a MANIFEST ----

  function LastLogNumber(edits: seq<VersionEdit>): Option<nat> {
    if edits == [] then None
    else
      var e := edits[|edits| - 1];
      if e.logNumber.Some? then e.logNumber else LastLogNumber(edits[..|edits| - 1])
  }

  function LastNextFile(edits: seq<VersionEdit>): Option<nat> {
    if edits == [] then None
    else
      var e := edits[|edits| - 1];
      if e.nextFile.Some? then e.nextFile else LastNextFile(edits[..|edits| - 1])
  }

  function LastLastSequence(edits: seq<VersionEdit>): Option<nat> {
    if edits == [] then None
    else
      var e := edits[|edits| - 1];
      if e.lastSequence.Some? then e.lastSequence else LastLastSequence(edits[..|edits| - 1])
  }

  ghost function EverAdded(edits: seq<VersionEdit>): set<File> {
    set i: nat, f | i < NUM_LEVELS && f in AllAdded(edits, i) :: f
  }

  // ---- The database ----

  datatype Db = Db(
    mem: seq<Entry>,           // mem_
    imm: Option<seq<Entry>>,   // imm_
    current: Version,          // versions_->current()
    lastSequence: nat,         // versions_->LastSequence()
    nextFile: nat,             // next_file_number_
    logNumber: nat,            // log_number_, the least log recovery needs
    logfileNumber: nat,        // logfile_number_, the log being written
    snapshots: seq<nat>,       // snapshots_, oldest first
    pinned: seq<Version>,      // versions still referenced by iterators
    pending: set<nat>,         // pending_outputs_
    disk: Disk)

  function ImmOf(db: Db): seq<Entry> {
    if db.imm.Some? then db.imm.value else []
  }

  ghost function DbEntries(db: Db): set<Entry> {
    ToSet(db.mem) + ToSet(ImmOf(db)) + VersionEntries(db.current)
  }

  /** A database and, beside it, what it is supposed to stand for: the acknowledged operations, the oldest sequence
      number still readable, and how much of the history has been flushed and switched away. */
  datatype World = World(db: Db, hist: seq<Op>, floor: nat, flushed: nat, switched: nat)

  // ---- The invariant ----

  /** The memtables are the unflushed tail of the history; tables hold only the flushed part. */
  ghost predicate Contents(w: World) {
    && w.floor <= |w.hist| && w.flushed <= w.switched <= |w.hist|
    && w.db.lastSequence == |w.hist| < MAX_SEQUENCE
    && Sorted(w.db.mem) && ToSet(w.db.mem) == Range(w.hist, w.switched, |w.hist|)
    && Sorted(ImmOf(w.db)) && ToSet(ImmOf(w.db)) == Range(w.hist, w.flushed, w.switched)
    && VersionEntries(w.db.current) <= Range(w.hist, 0, w.flushed)
  }

  /** Every version read is the plain map's (see ReadsAs). */
  ghost predicate Faithful(w: World) {
    ReadsAs(DbEntries(w.db), w.hist, w.floor)
  }

  ghost predicate SnapshotsOk(w: World) {
    && (forall i | 0 <= i < |w.db.snapshots| :: w.floor <= w.db.snapshots[i] <= |w.hist|)
    && (forall i, j | 0 <= i < j < |w.db.snapshots| :: w.db.snapshots[i] <= w.db.snapshots[j])
  }

  /** The live logs hold exactly the unflushed tail: the current log what mem_ holds, older ones what imm_ holds. */
  ghost predicate LogsOk(w: World) {
    var logs, n := w.db.disk.logs, |w.db.disk.logs| - 1;
    && w.flushed <= w.switched <= |w.hist|
    && Ascending(logs) && 0 <= n && logs[n].number == w.db.logfileNumber
    && w.db.logNumber <= w.db.logfileNumber < w.db.nextFile
    && Covers(logs[n].records, w.hist, w.switched, |w.hist|)
    && Covers(Flatten(LogsFrom(logs[..n], w.db.logNumber)), w.hist, w.flushed, w.switched)
  }

  /** Every table a live version or a pending output names is on disk. */
  ghost predicate TablesOk(db: Db) {
    && Numbers(VersionFiles(db.current)) <= db.disk.tables
    && (forall i | 0 <= i < |db.pinned| :: Numbers(VersionFiles(db.pinned[i])) <= db.disk.tables)
    && db.pending <= db.disk.tables
  }

  /** The MANIFEST, replayed, is the current version, and file numbers are never reused. */
  ghost predicate ManifestOk(db: Db) {
    var m := db.disk.manifest;
    && (forall e | e in m :: EditOk(e))
    && LastLogNumber(m) == Some(db.logNumber)
    && LastNextFile(m).Some? && LastNextFile(m).value <= db.nextFile
    && NumbersName(EverAdded(m))
    && (forall f | f in EverAdded(m) :: f.number < LastNextFile(m).value)
    && (forall i: nat | i < NUM_LEVELS :: FileSet(db.current[i]) == InstallAll(m, i))
    && (forall n | n in db.pending :: n < db.nextFile && n !in Numbers(EverAdded(m)))
  }

  ghost predicate LastRecorded(w: World) {
    var last := LastLastSequence(w.db.disk.manifest);
    last.Some? && w.flushed <= last.value <= |w.hist|
  }

  /** What every step keeps, whatever a compaction drops.  Faithful is beside it: an unsafe compaction breaks that one.
      */
  ghost predicate Inv(w: World) {
    && Shape(w.db.current) && Aged(w.db.current)
    && Contents(w) && SnapshotsOk(w)
    && LogsOk(w) && TablesOk(w.db) && ManifestOk(w.db) && LastRecorded(w)
  }

  // ---- Memtable ----

  /** Insertion in key order, as the memtable's skip list keeps it. */
  function InsertSorted(s: seq<Entry>, e: Entry): seq<Entry> {
    if s == [] then [e]
    else if Less(s[0].key, e.key) then [s[0]] + InsertSorted(s[1..], e)
    else [e] + s
  }

  /** MemTableInserter over a batch: consecutive sequence numbers from `first`. */
  function AddAll(mem: seq<Entry>, first: nat, ops: seq<Op>): seq<Entry>
    decreases |ops|
  {
    if ops == [] then mem
    else AddAll(InsertSorted(mem, EntryOf(ops[0], first)), first + 1, ops[1..])
  }

  // ---- Edits ----

  function Deletions(level: nat, files: Level): seq<(nat, nat)> {
    seq(|files|, i requires 0 <= i < |files| => (level, files[i].number))
  }

  function Additions(level: nat, files: Level): seq<(nat, File)> {
    seq(|files|, i requires 0 <= i < |files| => (level, files[i]))
  }

  /** `v'` is what a Builder on `v` saves after one edit. */
  ghost predicate Installed(v: Version, edit: VersionEdit, v': Version) {
    SortedLevels(v') && forall i: nat | i < NUM_LEVELS :: FileSet(v'[i]) == AfterEdit(FileSet(v[i]), edit, i)
  }

  /** LogAndApply: complete the edit, append it to the MANIFEST, make the new version current. */
  function LogAndApply(db: Db, edit: VersionEdit, v': Version): Db {
    db.(current := v', logNumber := if edit.logNumber.Some? then edit.logNumber.value else db.logNumber,
        disk := db.disk.(manifest := db.disk.manifest + [Completed(db, edit)]))
  }

  function Completed(db: Db, edit: VersionEdit): VersionEdit {
    edit.(logNumber := if edit.logNumber.Some? then edit.logNumber else Some(db.logNumber),
          nextFile := Some(db.nextFile), lastSequence := Some(db.lastSequence))
  }

  function EmptyEdit(): VersionEdit {
    VersionEdit(None, None, None, [], [])
  }

  function SmallestSnapshot(db: Db): nat {
    if db.snapshots == [] then db.lastSequence else db.snapshots[0]
  }

  function RemoveAt<T>(s: seq<T>, i: nat): seq<T>
    requires i < |s|
  {
    s[..i] + s[i + 1..]
  }

  // ---- Steps ----

  datatype Step =
    | Write(ops: seq<Op>)
    | GetSnapshot
    | ReleaseSnapshot(index: nat)
    | SwitchMemTable
    | Flush(level: nat, size: nat, v': Version)
    | ReserveOutput
    | AbandonOutput(number: nat)
    | Move(level: nat, f: File, lo: UserKey, hi: UserKey, v': Version)
    | Compact(level: nat, in0: Level, in1: Level, lo: UserKey, hi: UserKey, outs: Level, v': Version)
    | DeleteObsoleteFiles
    | PinVersion
    | UnpinVersion(index: nat)
    | CrashAndRecover(base: Version, files: seq<File>, newLog: nat, v': Version)

  /** DBImpl::Write after the group is built (db/db_impl.cc:1201-1237). */
  function AfterWrite(db: Db, ops: seq<Op>): Db
    requires db.disk.logs != []
  {
    var n := |db.disk.logs| - 1;
    var log := db.disk.logs[n];
    db.(mem := AddAll(db.mem, db.lastSequence + 1, ops), lastSequence := db.lastSequence + |ops|,
        disk := db.disk.(logs := db.disk.logs[n := log.(records := log.records + [Record(db.lastSequence + 1, ops)])]))
  }

  /** MakeRoomForWrite's switch (db/db_impl.cc:1346-1366). */
  function AfterSwitch(db: Db): Db {
    db.(mem := [], imm := Some(db.mem), nextFile := db.nextFile + 1, logfileNumber := db.nextFile,
        disk := db.disk.(logs := db.disk.logs + [Log(db.nextFile, [])]))
  }

  /** CompactMemTable's edit (db/db_impl.cc:491-566); an empty memtable makes no table. */
  function FlushEdit(db: Db, level: nat, size: nat): VersionEdit {
    EmptyEdit().(logNumber := Some(db.logfileNumber),
                 added := if ImmOf(db) == [] then [] else [(level, MakeFile(db.nextFile, size, ImmOf(db)))])
  }

  ghost predicate FlushEnabled(db: Db, level: nat, size: nat, v': Version) {
    && db.imm.Some? && level < NUM_LEVELS
    && (ImmOf(db) != [] ==> FlushLevel(db.current, level, MakeFile(db.nextFile, size, ImmOf(db))))
    && Installed(db.current, FlushEdit(db, level, size), v')
  }

  function AfterFlush(db: Db, level: nat, size: nat, v': Version): Db {
    var numbered := db.(nextFile := db.nextFile + 1);
    var tables := if ImmOf(db) == [] then db.disk.tables else db.disk.tables + {db.nextFile};
    var logged := LogAndApply(numbered.(disk := db.disk.(tables := tables)), FlushEdit(db, level, size), v');
    logged.(imm := None)
  }

  /** The trivial move's edit (db/db_impl.cc:718-728). */
  function MoveEdit(level: nat, f: File): VersionEdit {
    EmptyEdit().(deleted := [(level, f.number)], added := [(level + 1, f)])
  }

  /** InstallCompactionResults' edit (db/db_impl.cc:860-876). */
  function CompactEdit(level: nat, in0: Level, in1: Level, outs: Level): VersionEdit {
    EmptyEdit().(deleted := Deletions(level, in0) + Deletions(level + 1, in1), added := Additions(level + 1, outs))
  }

  ghost function AfterCompact(db: Db, level: nat, in0: Level, in1: Level, outs: Level, v': Version): Db {
    LogAndApply(db, CompactEdit(level, in0, in1, outs), v').(pending := db.pending - Numbers(FileSet(outs)))
  }

  /** OpenCompactionOutputFile (db/db_impl.cc:786-809). */
  function AfterReserve(db: Db): Db {
    db.(nextFile := db.nextFile + 1, pending := db.pending + {db.nextFile},
        disk := db.disk.(tables := db.disk.tables + {db.nextFile}))
  }

  /** The files written by the compaction loop on the chosen inputs. */
  ghost predicate CompactionOutputs(db: Db, level: nat, in0: Level, in1: Level, outs: Level) {
    && FilesOk(outs) && Disjoint(outs) && NumbersName(FileSet(outs))
    && LevelEntries(outs) == Kept(InputEntries(in0, in1), SmallestSnapshot(db), BaseKeys(db.current, level))
    && Numbers(FileSet(outs)) <= db.pending
  }

  ghost predicate MoveEnabled(db: Db, level: nat, f: File, lo: UserKey, hi: UserKey, v': Version) {
    Selection(db.current, level, [f], [], lo, hi) && Installed(db.current, MoveEdit(level, f), v')
  }

  ghost predicate CompactEnabled(db: Db, level: nat, in0: Level, in1: Level, lo: UserKey, hi: UserKey, outs: Level,
                                 v': Version) {
    && Selection(db.current, level, in0, in1, lo, hi)
    && CompactionOutputs(db, level, in0, in1, outs)
    && Installed(db.current, CompactEdit(level, in0, in1, outs), v')
  }

  /** DeleteObsoleteFiles (db/db_impl.cc:223-278). */
  ghost function AfterDelete(db: Db): Db {
    var live := Numbers(VersionFiles(db.current)) + (set i, n | 0 <= i < |db.pinned|
      && n in Numbers(VersionFiles(db.pinned[i])) :: n) + db.pending;
    db.(disk := db.disk.(logs := LogsFrom(db.disk.logs, db.logNumber), tables := db.disk.tables * live))
  }

  // ---- Crash and recovery (db/db_impl.cc:280-489, 1474-1506; db/version_set.cc:886-1011) ----

  /** Level-0 tables written, oldest first, from consecutive stretches of the records. */
  ghost predicate WrittenFrom(records: seq<Record>, files: seq<File>)
    decreases |files|
  {
    if files == [] then RecordEntries(records) == {}
    else
      exists n: nat :: n <= |records|
        && FileEntries(files[|files| - 1]) == RecordEntries(records[n..])
        && WrittenFrom(records[..n], files[..|files| - 1])
  }

  function LastOf(records: seq<Record>): nat {
    if records == [] then 0
    else
      var r := records[|records| - 1];
      var rest := LastOf(records[..|records| - 1]);
      if r.first + |r.ops| >= 1 + rest then r.first + |r.ops| - 1 else rest
  }

  /** The snapshot edit that opens a new MANIFEST. */
  function SnapshotEdit(v: Version): VersionEdit {
    EmptyEdit().(added := AllAdditions(v, NUM_LEVELS))
  }

  function AllAdditions(v: Version, n: nat): seq<(nat, File)>
    requires n <= NUM_LEVELS
  {
    if n == 0 then [] else AllAdditions(v, n - 1) + Additions(n - 1, v[n - 1])
  }

  /** The version the MANIFEST describes, rebuilt by one Builder. */
  ghost predicate Replayed(manifest: seq<VersionEdit>, base: Version) {
    SortedLevels(base) && forall i: nat | i < NUM_LEVELS :: FileSet(base[i]) == Saved({}, Fold(manifest, i))
  }

  /** The tables recovery writes from the logs at or above `logNumber`. */
  ghost predicate RecoveredTables(disk: Disk, logNumber: nat, nextFile: nat, files: seq<File>, newLog: nat) {
    && FilesOk(files)
    && (forall i, j | 0 <= i < j < |files| :: files[i].number < files[j].number)
    && (forall f | f in files :: nextFile < f.number < newLog)
    && (forall i | 0 <= i < |disk.logs| && disk.logs[i].number >= logNumber :: disk.logs[i].number < newLog)
    && nextFile < newLog
    && WrittenFrom(Flatten(LogsFrom(disk.logs, logNumber)), files)
  }

  function Max(a: nat, b: nat): nat {
    if a < b then b else a
  }

  /** DB::Open on a disk: rebuild the version, turn the logs into level-0 tables, start a new log and a new MANIFEST. */
  ghost function Opened(disk: Disk, base: Version, files: seq<File>, newLog: nat, v': Version): Db
    requires LastLogNumber(disk.manifest).Some? && LastLastSequence(disk.manifest).Some?
  {
    var logNumber := LastLogNumber(disk.manifest).value;
    var last := Max(LastLastSequence(disk.manifest).value, LastOf(Flatten(LogsFrom(disk.logs, logNumber))));
    var edit := VersionEdit(Some(newLog), Some(newLog + 1), Some(last), [], Additions(0, files));
    Db([], None, v', last, newLog + 1, newLog, newLog, [], [], {},
       Disk(LogsFrom(disk.logs, logNumber) + [Log(newLog, [])], disk.tables + Numbers(FileSet(files)),
           [SnapshotEdit(base), edit]))
  }

  ghost predicate Recovers(disk: Disk, base: Version, files: seq<File>, newLog: nat, v': Version, db': Db) {
    && LastLogNumber(disk.manifest).Some? && LastNextFile(disk.manifest).Some? && LastLastSequence(disk.manifest).Some?
    && Replayed(disk.manifest, base)
    && Numbers(VersionFiles(base)) <= disk.tables
    && RecoveredTables(disk, LastLogNumber(disk.manifest).value, LastNextFile(disk.manifest).value, files, newLog)
    && Installed(base, EmptyEdit().(added := Additions(0, files)), v')
    && db' == Opened(disk, base, files, newLog, v')
  }

  // ---- One step, and runs ----

  ghost predicate Next(w: World, step: Step, w': World) {
    var db := w.db;
    match step
    case Write(ops) =>
      && db.disk.logs != [] && db.lastSequence + |ops| < MAX_SEQUENCE
      && w' == w.(db := AfterWrite(db, ops), hist := w.hist + ops)
    case GetSnapshot =>
      w' == w.(db := db.(snapshots := db.snapshots + [db.lastSequence]))
    case ReleaseSnapshot(i) =>
      i < |db.snapshots| && w' == w.(db := db.(snapshots := RemoveAt(db.snapshots, i)))
    case SwitchMemTable =>
      db.imm.None? && w' == w.(db := AfterSwitch(db), switched := |w.hist|)
    case Flush(level, size, v') =>
      && FlushEnabled(db, level, size, v')
      && w' == w.(db := AfterFlush(db, level, size, v'), flushed := w.switched)
    case ReserveOutput =>
      w' == w.(db := AfterReserve(db))
    case AbandonOutput(n) =>
      w' == w.(db := db.(pending := db.pending - {n}))
    case Move(level, f, lo, hi, v') =>
      MoveEnabled(db, level, f, lo, hi, v') && w' == w.(db := LogAndApply(db, MoveEdit(level, f), v'))
    case Compact(level, in0, in1, lo, hi, outs, v') =>
      && CompactEnabled(db, level, in0, in1, lo, hi, outs, v')
      && w' == w.(db := AfterCompact(db, level, in0, in1, outs, v'), floor := SmallestSnapshot(db))
    case DeleteObsoleteFiles =>
      w' == w.(db := AfterDelete(db))
    case PinVersion =>
      w' == w.(db := db.(pinned := db.pinned + [db.current]))
    case UnpinVersion(i) =>
      i < |db.pinned| && w' == w.(db := db.(pinned := RemoveAt(db.pinned, i)))
    case CrashAndRecover(base, files, newLog, v') =>
      && Recovers(db.disk, base, files, newLog, v', w'.db)
      && w'.hist == w.hist && w'.floor == w.floor && w'.flushed == |w.hist| && w'.switched == |w.hist|
  }

  /** The entries a compaction step does not touch. */
  ghost function Untouched(db: Db, level: nat, in0: Level, in1: Level): set<Entry>
    requires level + 1 < NUM_LEVELS
  {
    ToSet(db.mem) + ToSet(ImmOf(db)) + RestEntries(db.current, level, in0, in1)
  }

  /** A step that does not uncover a value: every step but a compaction, and every compaction none of whose dropped
      deletions has a value of the same user key below it outside the inputs. */
  ghost predicate Safe(w: World, step: Step) {
    step.Compact? && step.level + 1 < NUM_LEVELS ==>
      forall e, x :: !Resurrects(Untouched(w.db, step.level, step.in0, step.in1), InputEntries(step.in0, step.in1),
                                 SmallestSnapshot(w.db), BaseKeys(w.db.current, step.level), e, x)
  }

  /** A new database (db/db_impl.cc:182-212 and 1484-1502). */
  function NewDb(): Db {
    Db([], None, [[], [], [], [], [], [], []], 0, 4, 3, 3, [], [], {},
       Disk([Log(3, [])], {}, [EmptyEdit(), VersionEdit(Some(3), Some(4), Some(0), [], [])]))
  }

  function NewWorld(): World {
    World(NewDb(), [], 0, 0, 0)
  }

  ghost predicate Run(ws: seq<World>, steps: seq<Step>) {
    && |ws| == |steps| + 1 && ws[0] == NewWorld()
    && forall i {:trigger steps[i]} | 0 <= i < |steps| :: Next(ws[i], steps[i], ws[i + 1])
  }
}
