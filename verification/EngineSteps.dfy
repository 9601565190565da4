/** Every step keeps the invariant (crash recovery is in EngineRecovery). */
module EngineSteps {
  import opened DbFormat
  import opened Visibility
  import opened Files
  import opened Inputs
  import opened LevelSteps
  import opened CompactionLoop
  import opened Manifest
  import opened History
  import opened Engine
  import opened EngineBasics

  lemma EntriesFromHistory(w: World)
    requires Contents(w)
    ensures DbEntries(w.db) <= All(w.hist) && OneEntryPerSeq(DbEntries(w.db))
    ensures OneEntryPerSeq(VersionEntries(w.db.current))
  {
    RangeSplit(w.hist, 0, w.switched, |w.hist|);
    RangeSplit(w.hist, 0, w.flushed, w.switched);
    RangeUnique(w.hist, DbEntries(w.db));
    RangeUnique(w.hist, VersionEntries(w.db.current));
  }

  // ---- Write ----

  lemma WriteKeepsContents(w: World, ops: seq<Op>, w': World)
    requires Contents(w) && Next(w, Write(ops), w')
    ensures Contents(w') && DbEntries(w'.db) == DbEntries(w.db) + Range(w'.hist, |w.hist|, |w'.hist|)
  {
    var n := |w.hist|;
    forall x | x in w.db.mem ensures x.key.sequence < n + 1 {
      assert x in ToSet(w.db.mem);
      RangeEntry(w.hist, w.switched, n, x);
    }
    AddAllOk(w.db.mem, n + 1, ops);
    assert w'.hist[n..|w'.hist|] == ops;
    BatchIsRange(w'.hist, ops, n, |w'.hist|);
    RangeExtend(w.hist, ops, w.switched, n);
    RangeSplit(w'.hist, w.switched, n, |w'.hist|);
    RangeExtend(w.hist, ops, w.flushed, w.switched);
    RangeExtend(w.hist, ops, 0, w.flushed);
  }

  lemma WriteKeepsLogs(w: World, ops: seq<Op>, w': World)
    requires Contents(w) && LogsOk(w) && Next(w, Write(ops), w') && Contents(w')
    ensures LogsOk(w')
  {
    WrittenLogs(w, ops, w');
  }

  lemma WrittenLogs(w: World, ops: seq<Op>, w': World)
    requires LogsOk(w) && w'.hist == w.hist + ops && w.db.lastSequence == |w.hist|
    requires w'.db.disk.logs == AfterWrite(w.db, ops).disk.logs && w'.db.nextFile == w.db.nextFile
    requires w'.flushed == w.flushed && w'.switched == w.switched
    requires w'.db.logNumber == w.db.logNumber && w'.db.logfileNumber == w.db.logfileNumber
    ensures LogsOk(w')
  {
    var logs, n := w.db.disk.logs, |w.db.disk.logs| - 1;
    var logs' := w'.db.disk.logs;
    assert logs'[..n] == logs[..n];
    CoversExtend(Flatten(LogsFrom(logs[..n], w.db.logNumber)), w.hist, ops, w.flushed, w.switched);
    CoversAppend(logs[n].records, w.hist, ops, w.switched);
    assert logs'[n] == logs[n].(records := logs[n].records + [Record(|w.hist| + 1, ops)]);
  }

  lemma WriteKeeps(w: World, ops: seq<Op>, w': World)
    requires Inv(w) && Next(w, Write(ops), w')
    ensures Inv(w') && DbEntries(w'.db) == DbEntries(w.db) + Range(w'.hist, |w.hist|, |w'.hist|)
  {
    WriteKeepsContents(w, ops, w');
    WriteKeepsLogs(w, ops, w');
  }

  lemma WriteKeepsReads(w: World, ops: seq<Op>, w': World)
    requires Contents(w) && Faithful(w) && Next(w, Write(ops), w')
    ensures Faithful(w')
  {
    WriteKeepsContents(w, ops, w');
    EntriesFromHistory(w);
    AppendKeepsReads(DbEntries(w.db), w.hist, ops, w.floor);
  }

  // ---- Memtable switch ----

  lemma SwitchKeeps(w: World, w': World)
    requires Inv(w) && Next(w, SwitchMemTable, w')
    ensures Inv(w') && DbEntries(w'.db) == DbEntries(w.db)
  {
    RangeIsEmpty(w.hist, w.flushed, w.switched);
    RangeIsEmpty(w.hist, |w.hist|, |w.hist|);
    assert w.flushed == w.switched;
    assert DbEntries(w'.db) == DbEntries(w.db);
    SwitchKeepsLogs(w, w');
  }

  lemma SwitchKeepsLogs(w: World, w': World)
    requires Contents(w) && LogsOk(w) && Next(w, SwitchMemTable, w') && Contents(w')
    ensures LogsOk(w')
  {
    LiveRecords(w);
    var logs, logs' := w.db.disk.logs, w'.db.disk.logs;
    assert logs'[..|logs|] == logs;
  }

  // ---- Flush ----

  /** With nothing added or deleted at a level, the level stays as it is. */
  lemma UntouchedLevel(v: Version, edit: VersionEdit, v': Version, i: nat)
    requires i < NUM_LEVELS && Installed(v, edit, v') && SortedFiles(v[i])
    requires Deleted(edit, i) == {} && Added(edit, i) == {}
    ensures v'[i] == v[i]
  {
    SortedFilesUnique(v[i], v'[i]);
  }

  lemma FlushAdds(db: Db, level: nat, size: nat, v': Version)
    requires Shape(db.current) && ImmOf(db) != [] && level < NUM_LEVELS
    requires Installed(db.current, FlushEdit(db, level, size), v')
    ensures Adds(db.current, v', level, MakeFile(db.nextFile, size, ImmOf(db)))
    ensures EditFiles(FlushEdit(db, level, size)) == {MakeFile(db.nextFile, size, ImmOf(db))}
  {
    var edit, f := FlushEdit(db, level, size), MakeFile(db.nextFile, size, ImmOf(db));
    assert Added(edit, level) == {f} by {
      assert (level, f) in edit.added;
    }
    forall i: nat | i < NUM_LEVELS && i != level ensures v'[i] == db.current[i] {
      UntouchedLevel(db.current, edit, v', i);
    }
    assert Deleted(edit, level) == {};
    forall g ensures g in EditFiles(edit) <==> g == f {
      if g == f {
        assert g in Added(edit, level);
      }
    }
  }

  lemma FlushNothing(db: Db, level: nat, size: nat, v': Version)
    requires Shape(db.current) && ImmOf(db) == [] && Installed(db.current, FlushEdit(db, level, size), v')
    ensures v' == db.current && EditFiles(FlushEdit(db, level, size)) == {}
  {
    var edit := FlushEdit(db, level, size);
    forall i: nat | i < NUM_LEVELS ensures v'[i] == db.current[i] {
      UntouchedLevel(db.current, edit, v', i);
    }
  }

  /** The flushed table is well formed and newer than every table. */
  lemma FlushedFile(w: World, size: nat)
    requires Contents(w) && ImmOf(w.db) != []
    ensures var f := MakeFile(w.db.nextFile, size, ImmOf(w.db));
            FileOk(f) && FileEntries(f) == Range(w.hist, w.flushed, w.switched)
              && Above(FileEntries(f), VersionEntries(w.db.current))
  {
    var f := MakeFile(w.db.nextFile, size, ImmOf(w.db));
    forall e | e in f.entries ensures e.key.sequence <= MAX_SEQUENCE {
      assert e in ToSet(ImmOf(w.db));
      RangeEntry(w.hist, w.flushed, w.switched, e);
    }
    forall a, b | a in FileEntries(f) && b in VersionEntries(w.db.current) ensures a.key.sequence > b.key.sequence {
      RangeEntry(w.hist, w.flushed, w.switched, a);
      RangeEntry(w.hist, 0, w.flushed, b);
    }
  }

  lemma FlushKeepsVersion(w: World, level: nat, size: nat, v': Version, w': World)
    requires Inv(w) && Next(w, Flush(level, size, v'), w')
    ensures Shape(v') && Aged(v')
    ensures VersionEntries(v') == VersionEntries(w.db.current) + ToSet(ImmOf(w.db))
  {
    if ImmOf(w.db) == [] {
      FlushNothing(w.db, level, size, v');
    } else {
      var f := MakeFile(w.db.nextFile, size, ImmOf(w.db));
      FlushAdds(w.db, level, size, v');
      FlushedFile(w, size);
      CurrentWasAdded(w.db);
      AddsEntries(w.db.current, v', level, f);
      FlushKeepsShape(w.db.current, v', level, f);
      FlushKeepsAge(w.db.current, v', level, f);
    }
  }

  lemma FlushKeepsManifest(w: World, level: nat, size: nat, v': Version, w': World)
    requires Shape(w.db.current) && ManifestOk(w.db) && Next(w, Flush(level, size, v'), w')
    ensures ManifestOk(w'.db) && LastLastSequence(w'.db.disk.manifest) == Some(w.db.lastSequence)
  {
    var db := w.db;
    var tables := if ImmOf(db) == [] then db.disk.tables else db.disk.tables + {db.nextFile};
    var db1 := db.(nextFile := db.nextFile + 1).(disk := db.disk.(tables := tables));
    var edit := FlushEdit(db, level, size);
    assert ManifestOk(db1);
    if ImmOf(db) == [] {
      FlushNothing(db, level, size, v');
    } else {
      var f := MakeFile(db.nextFile, size, ImmOf(db));
      FlushAdds(db, level, size, v');
      NumbersAfterAdd(EverAdded(db.disk.manifest), f);
    }
    LogAndApplyKeepsManifest(db1, edit, v');
    assert w'.db == LogAndApply(db1, edit, v').(imm := None);
  }

  lemma FlushKeepsTables(w: World, level: nat, size: nat, v': Version, w': World)
    requires Shape(w.db.current) && TablesOk(w.db) && Next(w, Flush(level, size, v'), w')
    ensures TablesOk(w'.db)
  {
    if ImmOf(w.db) == [] {
      FlushNothing(w.db, level, size, v');
    } else {
      FlushAdds(w.db, level, size, v');
      AddsEntries(w.db.current, v', level, MakeFile(w.db.nextFile, size, ImmOf(w.db)));
    }
  }

  lemma FlushKeepsLogs(w: World, level: nat, size: nat, v': Version, w': World)
    requires Contents(w) && LogsOk(w) && Next(w, Flush(level, size, v'), w') && Contents(w')
    ensures LogsOk(w')
  {
    FlushedLogs(w, w');
  }

  lemma FlushedLogs(w: World, w': World)
    requires LogsOk(w) && w'.hist == w.hist
    requires w'.db.disk.logs == w.db.disk.logs && w'.flushed == w.switched && w'.switched == w.switched
    requires w'.db.logNumber == w.db.logfileNumber && w'.db.logfileNumber == w.db.logfileNumber
             && w.db.nextFile <= w'.db.nextFile
    ensures LogsOk(w')
  {
    var logs, n := w.db.disk.logs, |w.db.disk.logs| - 1;
    LogsFromNone(logs[..n], w.db.logfileNumber);
  }

  lemma FlushKeeps(w: World, level: nat, size: nat, v': Version, w': World)
    requires Inv(w) && Next(w, Flush(level, size, v'), w')
    ensures Inv(w') && DbEntries(w'.db) == DbEntries(w.db)
  {
    FlushKeepsVersion(w, level, size, v', w');
    FlushKeepsManifest(w, level, size, v', w');
    FlushKeepsTables(w, level, size, v', w');
    FlushKeepsContents(w, level, size, v', w');
    FlushKeepsLogs(w, level, size, v', w');
  }

  lemma FlushKeepsContents(w: World, level: nat, size: nat, v': Version, w': World)
    requires Contents(w) && Next(w, Flush(level, size, v'), w')
    requires VersionEntries(v') == VersionEntries(w.db.current) + ToSet(ImmOf(w.db))
    ensures Contents(w') && DbEntries(w'.db) == DbEntries(w.db)
  {
    assert DbEntries(w'.db) == DbEntries(w.db);
    RangeSplit(w.hist, 0, w.flushed, w.switched);
    RangeIsEmpty(w.hist, w.switched, w.switched);
  }

  // ---- Trivial move and compaction ----

  lemma DeletionsAre(level: nat, files: Level, edit: VersionEdit, more: seq<(nat, nat)>, i: nat)
    requires edit.deleted == Deletions(level, files) + more
    ensures Deleted(edit, i) == (if i == level then Numbers(FileSet(files)) else {})
            + (set p | p in more && p.0 == i :: p.1)
  {
    var ds := Deletions(level, files);
    forall n ensures n in (set p | p in ds && p.0 == i :: p.1) <==> i == level && n in Numbers(FileSet(files)) {
      if i == level && n in Numbers(FileSet(files)) {
        var f :| f in FileSet(files) && f.number == n;
        var j :| 0 <= j < |files| && files[j] == f;
        assert ds[j] == (level, n) && ds[j] in ds;
      }
      if n in (set p | p in ds && p.0 == i :: p.1) {
        var p :| p in ds && p.0 == i && p.1 == n;
        var j :| 0 <= j < |ds| && ds[j] == p;
        assert files[j] in FileSet(files) && files[j].number == n;
      }
    }
  }

  lemma AdditionsAre(level: nat, files: Level, edit: VersionEdit, i: nat)
    requires edit.added == Additions(level, files)
    ensures Added(edit, i) == if i == level then FileSet(files) else {}
  {
    var ds := edit.added;
    forall f ensures f in Added(edit, i) <==> i == level && f in FileSet(files) {
      if i == level && f in FileSet(files) {
        var j :| 0 <= j < |files| && files[j] == f;
        assert ds[j] == (level, f) && ds[j] in ds;
      }
      if f in Added(edit, i) {
        var p :| p in ds && p.0 == i && p.1 == f;
        var j :| 0 <= j < |ds| && ds[j] == p;
      }
    }
  }

  /** Removing files by number removes just those files. */
  lemma WithoutNumbers(s: set<File>, taken: set<File>)
    requires NumbersName(s) && taken <= s
    ensures Without(s, Numbers(taken)) == s - taken
  {
    forall f | f in s && f.number in Numbers(taken) ensures f in taken {
      var g :| g in taken && g.number == f.number;
    }
  }

  lemma CompactEditIs(level: nat, in0: Level, in1: Level, outs: Level, i: nat)
    ensures var edit := CompactEdit(level, in0, in1, outs);
            Deleted(edit, i) ==
              (if i == level then Numbers(FileSet(in0)) else if i == level + 1 then Numbers(FileSet(in1)) else {})
            && Added(edit, i) == if i == level + 1 then FileSet(outs) else {}
  {
    var edit := CompactEdit(level, in0, in1, outs);
    DeletionsAre(level, in0, edit, Deletions(level + 1, in1), i);
    var second := EmptyEdit().(deleted := Deletions(level + 1, in1) + []);
    DeletionsAre(level + 1, in1, second, [], i);
    assert second.deleted == Deletions(level + 1, in1);
    AdditionsAre(level + 1, outs, edit, i);
  }

  lemma CompactReplaces(v: Version, level: nat, in0: Level, in1: Level, outs: Level, lo: UserKey, hi: UserKey,
                        v': Version)
    requires Shape(v) && Selection(v, level, in0, in1, lo, hi)
    requires Installed(v, CompactEdit(level, in0, in1, outs), v')
    ensures Replaces(v, v', level, in0, in1, outs)
  {
    var edit := CompactEdit(level, in0, in1, outs);
    forall i: nat | i < NUM_LEVELS && i != level && i != level + 1 ensures v'[i] == v[i] {
      CompactEditIs(level, in0, in1, outs, i);
      UntouchedLevel(v, edit, v', i);
    }
    CompactEditIs(level, in0, in1, outs, level);
    CompactEditIs(level, in0, in1, outs, level + 1);
    TakenByNumber(v, level, in0);
    Selected(v, level, in0, in1, lo, hi);
    TakenByNumber(v, level + 1, in1);
  }

  lemma TakenByNumber(v: Version, i: nat, taken: Level)
    requires i < NUM_LEVELS && NumbersName(VersionFiles(v)) && forall f | f in taken :: f in v[i]
    ensures Without(FileSet(v[i]), Numbers(FileSet(taken))) == FileSet(v[i]) - FileSet(taken)
  {
    LevelInVersion(v, i);
    WithoutNumbers(FileSet(v[i]), FileSet(taken));
  }

  lemma CompactFiles(level: nat, in0: Level, in1: Level, outs: Level)
    requires level + 1 < NUM_LEVELS
    ensures EditOk(CompactEdit(level, in0, in1, outs)) && EditFiles(CompactEdit(level, in0, in1, outs)) == FileSet(outs)
  {
    var edit := CompactEdit(level, in0, in1, outs);
    forall f ensures f in EditFiles(edit) <==> f in FileSet(outs) {
      if f in EditFiles(edit) {
        var i: nat :| i < NUM_LEVELS && f in Added(edit, i);
        CompactEditIs(level, in0, in1, outs, i);
      }
      if f in FileSet(outs) {
        CompactEditIs(level, in0, in1, outs, level + 1);
        assert f in Added(edit, level + 1);
      }
    }
  }

  /** What replacing files does to the entries of the database. */
  lemma ReplacedDb(db: Db, level: nat, in0: Level, in1: Level, outs: Level, lo: UserKey, hi: UserKey, v': Version)
    requires Selection(db.current, level, in0, in1, lo, hi) && Replaces(db.current, v', level, in0, in1, outs)
    ensures LevelEntries(outs) <= InputEntries(in0, in1) ==> VersionEntries(v') <= VersionEntries(db.current)
    ensures DbEntries(db) == Untouched(db, level, in0, in1) + InputEntries(in0, in1)
    ensures ToSet(db.mem) + ToSet(ImmOf(db)) + VersionEntries(v') == Untouched(db, level, in0, in1) + LevelEntries(outs)
  {
    ReplacedEntries(db.current, v', level, in0, in1, outs, lo, hi);
  }

  /** Memtables and logs do not change when tables are merged or moved. */
  lemma TableStepKeeps(w: World, w': World)
    requires Contents(w) && LogsOk(w) && w'.hist == w.hist && w'.flushed == w.flushed && w'.switched == w.switched
    requires w'.floor <= |w.hist| && VersionEntries(w'.db.current) <= VersionEntries(w.db.current)
    requires w'.db.mem == w.db.mem && w'.db.imm == w.db.imm && w'.db.lastSequence == w.db.lastSequence
    requires w'.db.disk.logs == w.db.disk.logs && w'.db.logNumber == w.db.logNumber
    requires w'.db.logfileNumber == w.db.logfileNumber && w'.db.nextFile == w.db.nextFile
    ensures Contents(w') && LogsOk(w')
  {
  }

  /** Files that are already current, or fresh, may be named together. */
  lemma FreshOutputs(db: Db, outs: Level)
    requires ManifestOk(db) && NumbersName(FileSet(outs)) && Numbers(FileSet(outs)) <= db.pending
    ensures NumbersName(EverAdded(db.disk.manifest) + FileSet(outs))
    ensures NumbersName(VersionFiles(db.current) + FileSet(outs))
  {
    CurrentWasAdded(db);
    forall f, g | f in EverAdded(db.disk.manifest) && g in FileSet(outs) ensures f.number != g.number {
      assert f.number in Numbers(EverAdded(db.disk.manifest)) && g.number in Numbers(FileSet(outs));
    }
  }

  lemma CompactKeepsManifest(w: World, level: nat, in0: Level, in1: Level, lo: UserKey, hi: UserKey, outs: Level,
                             v': Version, w': World)
    requires ManifestOk(w.db) && TablesOk(w.db) && Next(w, Compact(level, in0, in1, lo, hi, outs, v'), w')
    requires Replaces(w.db.current, v', level, in0, in1, outs)
    ensures ManifestOk(w'.db) && TablesOk(w'.db) && LastLastSequence(w'.db.disk.manifest) == Some(w.db.lastSequence)
  {
    var db1 := w.db.(pending := w.db.pending - Numbers(FileSet(outs)));
    FreshOutputs(w.db, outs);
    CompactFiles(level, in0, in1, outs);
    forall f | f in FileSet(outs) ensures f.number < w.db.nextFile && f.number !in db1.pending {
      assert f.number in Numbers(FileSet(outs));
    }
    LogAndApplyKeepsManifest(db1, CompactEdit(level, in0, in1, outs), v');
    assert w'.db == LogAndApply(db1, CompactEdit(level, in0, in1, outs), v');
    ReplacedFiles(w.db.current, v', level, in0, in1, outs);
  }

  /** A compaction changes the entries of the database only by what its loop drops. */
  lemma CompactChanges(w: World, level: nat, in0: Level, in1: Level, lo: UserKey, hi: UserKey, outs: Level, v': Version,
                       w': World)
    requires Shape(w.db.current) && Next(w, Compact(level, in0, in1, lo, hi, outs, v'), w')
    ensures DbEntries(w.db) == Untouched(w.db, level, in0, in1) + InputEntries(in0, in1)
    ensures DbEntries(w'.db) == Untouched(w.db, level, in0, in1)
                                + Kept(InputEntries(in0, in1), SmallestSnapshot(w.db), BaseKeys(w.db.current, level))
  {
    CompactReplaces(w.db.current, level, in0, in1, outs, lo, hi, v');
    ReplacedDb(w.db, level, in0, in1, outs, lo, hi, v');
  }

  lemma CompactKeepsReads(w: World, level: nat, in0: Level, in1: Level, lo: UserKey, hi: UserKey, outs: Level,
                          v': Version, w': World)
    requires Inv(w) && Faithful(w)
    requires Next(w, Compact(level, in0, in1, lo, hi, outs, v'), w')
             && Safe(w, Compact(level, in0, in1, lo, hi, outs, v'))
    ensures Faithful(w')
  {
    CompactChanges(w, level, in0, in1, lo, hi, outs, v', w');
    EntriesFromHistory(w);
    CompactionPreservesReadsIff(Untouched(w.db, level, in0, in1), InputEntries(in0, in1),
                                SmallestSnapshot(w.db), BaseKeys(w.db.current, level));
    CompactKeepsSnapshots(w, level, in0, in1, lo, hi, outs, v', w');
    SameReadsKeep(DbEntries(w.db), DbEntries(w'.db), w.hist, w.floor, w'.floor);
  }

  lemma SameReadsKeep(S: set<Entry>, T: set<Entry>, hist: seq<Op>, floor: nat, floor': nat)
    requires ReadsAs(S, hist, floor) && SameReads(S, T, floor') && floor <= floor'
    ensures ReadsAs(T, hist, floor')
  {
  }

  lemma CompactKeeps(w: World, level: nat, in0: Level, in1: Level, lo: UserKey, hi: UserKey, outs: Level, v': Version,
                     w': World)
    requires Inv(w) && Next(w, Compact(level, in0, in1, lo, hi, outs, v'), w')
    ensures Inv(w')
  {
    CompactReplaces(w.db.current, level, in0, in1, outs, lo, hi, v');
    FreshOutputs(w.db, outs);
    ReplacedDb(w.db, level, in0, in1, outs, lo, hi, v');
    CompactKeepsManifest(w, level, in0, in1, lo, hi, outs, v', w');
    CompactKeepsSnapshots(w, level, in0, in1, lo, hi, outs, v', w');
    TableStepKeeps(w, w');
    CompactionKeepsShape(w.db.current, v', level, in0, in1, outs, lo, hi);
    CompactionKeepsAge(w.db.current, v', level, in0, in1, outs, lo, hi);
  }

  lemma CompactKeepsSnapshots(w: World, level: nat, in0: Level, in1: Level, lo: UserKey, hi: UserKey, outs: Level,
                              v': Version, w': World)
    requires Contents(w) && SnapshotsOk(w) && Next(w, Compact(level, in0, in1, lo, hi, outs, v'), w')
    ensures SnapshotsOk(w') && w.floor <= w'.floor <= |w.hist|
  {
  }

  lemma MoveIsReplace(v: Version, level: nat, f: File, lo: UserKey, hi: UserKey, v': Version)
    requires Shape(v) && Selection(v, level, [f], [], lo, hi) && Installed(v, MoveEdit(level, f), v')
    ensures Replaces(v, v', level, [f], [], [f])
    ensures EditOk(MoveEdit(level, f)) && EditFiles(MoveEdit(level, f)) == {f} && f in VersionFiles(v)
  {
    var a, b := MoveEdit(level, f), CompactEdit(level, [f], [], [f]);
    assert a.deleted == b.deleted && a.added == b.added;
    forall i: nat ensures Added(a, i) == Added(b, i) && Deleted(a, i) == Deleted(b, i) {
    }
    assert Installed(v, b, v');
    CompactReplaces(v, level, [f], [], [f], lo, hi, v');
    CompactFiles(level, [f], [], [f]);
    assert EditFiles(a) == EditFiles(b);
    assert FileSet([f]) == {f};
    LevelInVersion(v, level);
    assert f in [f] && f in FileSet(v[level]);
  }

  lemma MoveKeepsManifest(w: World, level: nat, f: File, lo: UserKey, hi: UserKey, v': Version, w': World)
    requires Shape(w.db.current) && ManifestOk(w.db) && TablesOk(w.db) && Next(w, Move(level, f, lo, hi, v'), w')
    ensures ManifestOk(w'.db) && TablesOk(w'.db) && LastLastSequence(w'.db.disk.manifest) == Some(w.db.lastSequence)
  {
    MoveIsReplace(w.db.current, level, f, lo, hi, v');
    MovedIsKnown(w.db, level, f);
    LogAndApplyKeepsManifest(w.db, MoveEdit(level, f), v');
    MovedFiles(w.db.current, level, f, v');
  }

  lemma MovedIsKnown(db: Db, level: nat, f: File)
    requires ManifestOk(db) && level < NUM_LEVELS && f in db.current[level]
    ensures EverAdded(db.disk.manifest) + {f} == EverAdded(db.disk.manifest)
            && f.number in Numbers(EverAdded(db.disk.manifest))
  {
    CurrentWasAdded(db);
    assert f in VersionFiles(db.current);
  }

  lemma MovedFiles(v: Version, level: nat, f: File, v': Version)
    requires Replaces(v, v', level, [f], [], [f]) && f in VersionFiles(v)
    ensures VersionFiles(v') <= VersionFiles(v)
  {
    ReplacedFiles(v, v', level, [f], [], [f]);
    assert VersionFiles(v) + FileSet([f]) == VersionFiles(v);
  }

  lemma MoveKeepsVersion(w: World, level: nat, f: File, lo: UserKey, hi: UserKey, v': Version, w': World)
    requires Shape(w.db.current) && Aged(w.db.current) && Next(w, Move(level, f, lo, hi, v'), w')
    ensures Shape(v') && Aged(v') && VersionEntries(v') == VersionEntries(w.db.current)
  {
    MoveIsReplace(w.db.current, level, f, lo, hi, v');
    MovedShape(w.db.current, level, f, lo, hi, v');
    MovedAge(w.db.current, level, f, lo, hi, v');
  }

  lemma MovedShape(v: Version, level: nat, f: File, lo: UserKey, hi: UserKey, v': Version)
    requires Shape(v) && Selection(v, level, [f], [], lo, hi) && Replaces(v, v', level, [f], [], [f])
             && f in VersionFiles(v)
    ensures Shape(v')
  {
    assert VersionFiles(v) + FileSet([f]) == VersionFiles(v);
    assert f in [f] && FilesOk([f]) && Disjoint([f]);
    CompactionKeepsShape(v, v', level, [f], [], [f], lo, hi);
  }

  lemma MovedAge(v: Version, level: nat, f: File, lo: UserKey, hi: UserKey, v': Version)
    requires Shape(v) && Aged(v) && Selection(v, level, [f], [], lo, hi) && Replaces(v, v', level, [f], [], [f])
    ensures Aged(v') && VersionEntries(v') == VersionEntries(v)
  {
    assert LevelEntries([f]) == InputEntries([f], []);
    CompactionKeepsAge(v, v', level, [f], [], [f], lo, hi);
    ReplacedEntries(v, v', level, [f], [], [f], lo, hi);
  }

  lemma MoveKeeps(w: World, level: nat, f: File, lo: UserKey, hi: UserKey, v': Version, w': World)
    requires Inv(w) && Next(w, Move(level, f, lo, hi, v'), w')
    ensures Inv(w') && DbEntries(w'.db) == DbEntries(w.db)
  {
    MoveKeepsManifest(w, level, f, lo, hi, v', w');
    MoveKeepsVersion(w, level, f, lo, hi, v', w');
    MoveKeepsContents(w, w');
  }

  lemma MoveKeepsContents(w: World, w': World)
    requires Contents(w) && LogsOk(w) && SnapshotsOk(w)
    requires w' == w.(db := w'.db) && VersionEntries(w'.db.current) == VersionEntries(w.db.current)
    requires w'.db == w.db.(current := w'.db.current, disk := w'.db.disk) && w'.db.disk.logs == w.db.disk.logs
    ensures Contents(w') && LogsOk(w') && SnapshotsOk(w') && DbEntries(w'.db) == DbEntries(w.db)
  {
    assert DbEntries(w'.db) == DbEntries(w.db);
    TableStepKeeps(w, w');
  }

  // ---- Deleting obsolete files ----

  lemma DeleteKeepsLogs(w: World, w': World)
    requires Contents(w) && LogsOk(w) && Next(w, DeleteObsoleteFiles, w') && Contents(w')
    ensures LogsOk(w')
  {
    LiveRecords(w);
    var logs, n := w.db.disk.logs, |w.db.disk.logs| - 1;
    var older := LogsFrom(logs[..n], w.db.logNumber);
    LogsFromAscending(logs, w.db.logNumber);
    var logs' := w'.db.disk.logs;
    assert logs' == older + [logs[n]];
    assert logs'[..|logs'| - 1] == older;
    assert Ascending(logs[..n]);
    LogsFromAscending(logs[..n], w.db.logNumber);
  }

  lemma DeleteKeeps(w: World, w': World)
    requires Inv(w) && Next(w, DeleteObsoleteFiles, w')
    ensures Inv(w') && DbEntries(w'.db) == DbEntries(w.db)
  {
    assert DbEntries(w'.db) == DbEntries(w.db);
    DeleteKeepsLogs(w, w');
  }
}
