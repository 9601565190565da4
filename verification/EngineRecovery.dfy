/** Crash and recovery: replaying the MANIFEST and the live logs rebuilds the same database. */
module EngineRecovery {
  import opened DbFormat
  import opened Visibility
  import opened Files
  import opened LevelSteps
  import opened Manifest
  import opened History
  import opened Engine
  import opened EngineBasics
  import EngineSteps

  // ---- The MANIFEST gives back the version ----

  /** One Builder over the whole MANIFEST rebuilds exactly the version that was current. */
  lemma ReplayGivesCurrent(db: Db, base: Version)
    requires ManifestOk(db) && Shape(db.current) && Replayed(db.disk.manifest, base)
    ensures base == db.current
  {
    var m := db.disk.manifest;
    forall i: nat | i < NUM_LEVELS ensures base[i] == db.current[i] {
      assert AllAdded(m, i) <= EverAdded(m);
      ReplayIsInstall(m, i);
      SortedFilesUnique(base[i], db.current[i]);
    }
  }

  /** Recovery never misses a table file. */
  lemma NoMissingFiles(w: World, base: Version)
    requires Inv(w) && Replayed(w.db.disk.manifest, base)
    ensures Numbers(VersionFiles(base)) <= w.db.disk.tables
  {
    ReplayGivesCurrent(w.db, base);
  }

  // ---- The tables written from the logs ----

  lemma {:induction false} WrittenCovers(records: seq<Record>, files: seq<File>, hist: seq<Op>, a: nat, b: nat)
    requires a <= b <= |hist| && Covers(records, hist, a, b) && WrittenFrom(records, files)
    ensures LevelEntries(files) == Range(hist, a, b)
    ensures forall i, j | 0 <= i < j < |files| :: Above(FileEntries(files[j]), FileEntries(files[i]))
    decreases |files|
  {
    if files == [] {
      CoversEntries(records, hist, a, b);
    } else {
      var k := |files| - 1;
      var n: nat :| n <= |records| && FileEntries(files[k]) == RecordEntries(records[n..])
        && WrittenFrom(records[..n], files[..k]);
      var m := CoversSplit(records, hist, a, b, n);
      WrittenCovers(records[..n], files[..k], hist, a, m);
      CoversEntries(records[n..], hist, m, b);
      RangeSplit(hist, a, m, b);
      LaterRangeAbove(hist, a, m, b);
      OneMoreFile(files, k);
    }
  }

  lemma OneMoreFile(files: seq<File>, k: nat)
    requires k + 1 == |files| && Above(FileEntries(files[k]), LevelEntries(files[..k]))
    requires forall i, j | 0 <= i < j < k :: Above(FileEntries(files[..k][j]), FileEntries(files[..k][i]))
    ensures LevelEntries(files) == LevelEntries(files[..k]) + FileEntries(files[k])
    ensures forall i, j | 0 <= i < j < |files| :: Above(FileEntries(files[j]), FileEntries(files[i]))
  {
    assert files == files[..k] + [files[k]];
    UnionEntries(files, files[..k], [files[k]]);
    assert LevelEntries([files[k]]) == FileEntries(files[k]);
    forall i, j | 0 <= i < j < |files| ensures Above(FileEntries(files[j]), FileEntries(files[i])) {
      assert files[..k][i] == files[i];
      if j < k {
        assert files[..k][j] == files[j];
      } else {
        assert FileEntries(files[i]) <= LevelEntries(files[..k]);
      }
    }
  }

  lemma LaterRangeAbove(hist: seq<Op>, a: nat, m: nat, b: nat)
    requires a <= m <= b <= |hist|
    ensures Above(Range(hist, m, b), Range(hist, a, m))
  {
    forall x, y | x in Range(hist, m, b) && y in Range(hist, a, m) ensures x.key.sequence > y.key.sequence {
      RangeEntry(hist, m, b, x);
      RangeEntry(hist, a, m, y);
    }
  }

  // ---- Adding them to level 0 ----

  ghost predicate AddsZero(v: Version, v': Version, files: seq<File>) {
    && SortedLevels(v') && FileSet(v'[0]) == FileSet(v[0]) + FileSet(files)
    && forall i: nat | 0 < i < NUM_LEVELS :: v'[i] == v[i]
  }

  lemma InstalledZero(v: Version, files: seq<File>, v': Version)
    requires Shape(v) && Installed(v, EmptyEdit().(added := Additions(0, files)), v')
    ensures AddsZero(v, v', files)
  {
    var edit := EmptyEdit().(added := Additions(0, files));
    EngineSteps.AdditionsAre(0, files, edit, 0);
    forall i: nat | 0 < i < NUM_LEVELS ensures v'[i] == v[i] {
      EngineSteps.AdditionsAre(0, files, edit, i);
      EngineSteps.UntouchedLevel(v, edit, v', i);
    }
    assert Deleted(edit, 0) == {};
  }

  lemma AddsZeroEntries(v: Version, v': Version, files: seq<File>)
    requires AddsZero(v, v', files)
    ensures LevelEntries(v'[0]) == LevelEntries(v[0]) + LevelEntries(files)
    ensures VersionEntries(v') == VersionEntries(v) + LevelEntries(files)
    ensures VersionFiles(v') == VersionFiles(v) + FileSet(files)
  {
    UnionEntries(v'[0], v[0], files);
    forall e ensures e in VersionEntries(v') <==> e in VersionEntries(v) + LevelEntries(files) {
      if e in LevelEntries(files) {
        assert e in LevelEntries(v'[0]);
      }
      if e in LevelEntries(v[0]) {
        assert e in LevelEntries(v'[0]);
      }
    }
    forall f ensures f in VersionFiles(v') <==> f in VersionFiles(v) + FileSet(files) {
      assert f in v'[0] <==> f in FileSet(v'[0]);
      assert f in v[0] <==> f in FileSet(v[0]);
    }
  }

  /** Fresh ascending numbers name the recovered files. */
  lemma FreshNumbers(s: set<File>, files: seq<File>, n: nat)
    requires NumbersName(s) && (forall f | f in s :: f.number < n)
    requires forall f | f in files :: n <= f.number
    requires forall i, j | 0 <= i < j < |files| :: files[i].number < files[j].number
    ensures NumbersName(s + FileSet(files))
  {
    forall f, g | f in FileSet(files) && g in FileSet(files) && f.number == g.number ensures f == g {
      var i :| 0 <= i < |files| && files[i] == f;
      var j :| 0 <= j < |files| && files[j] == g;
    }
    forall f, g | f in s && g in FileSet(files) ensures f.number != g.number {
    }
  }

  lemma RecoveryKeepsShape(v: Version, v': Version, files: seq<File>)
    requires Shape(v) && FilesOk(files) && AddsZero(v, v', files) && NumbersName(VersionFiles(v) + FileSet(files))
    ensures Shape(v')
  {
    UnionEntries(v'[0], v[0], files);
    AddsZeroEntries(v, v', files);
  }

  lemma RecoveryKeepsAge(v: Version, v': Version, files: seq<File>)
    requires Aged(v) && AddsZero(v, v', files) && Above(LevelEntries(files), VersionEntries(v))
    requires forall i, j | 0 <= i < j < |files| :: Above(FileEntries(files[j]), FileEntries(files[i]))
                                                   && files[i].number < files[j].number
    requires forall f, g | f in files && g in v[0] :: g.number < f.number
    ensures Aged(v')
  {
    AddsZeroEntries(v, v', files);
    forall i: nat, j: nat | i < j < NUM_LEVELS ensures Above(LevelEntries(v'[i]), LevelEntries(v'[j])) {
      RecoveredAbove(v, v', files, i, j);
    }
    LevelInVersion(v, 0);
    forall f, g | f in v'[0] && g in v'[0] && f.number > g.number ensures Above(FileEntries(f), FileEntries(g)) {
      assert f in FileSet(v'[0]) && g in FileSet(v'[0]);
      NewerZeroFile(v[0], files, f, g);
    }
  }

  lemma RecoveredAbove(v: Version, v': Version, files: seq<File>, i: nat, j: nat)
    requires AddsZero(v, v', files) && Above(LevelEntries(files), VersionEntries(v)) && i < j < NUM_LEVELS
    requires Above(LevelEntries(v[i]), LevelEntries(v[j]))
    ensures Above(LevelEntries(v'[i]), LevelEntries(v'[j]))
  {
    AddsZeroEntries(v, v', files);
    LevelInVersion(v, j);
  }

  lemma NewerZeroFile(l: Level, files: seq<File>, f: File, g: File)
    requires ZeroAged(l) && Above(LevelEntries(files), LevelEntries(l)) && f.number > g.number
    requires forall i, j | 0 <= i < j < |files| :: Above(FileEntries(files[j]), FileEntries(files[i]))
                                                   && files[i].number < files[j].number
    requires forall f, g | f in files && g in l :: g.number < f.number
    requires (f in l || f in files) && (g in l || g in files)
    ensures Above(FileEntries(f), FileEntries(g))
  {
    if f in files && g in files {
      var j :| 0 <= j < |files| && files[j] == f;
      var i :| 0 <= i < |files| && files[i] == g;
    } else if f in files {
      assert FileEntries(f) <= LevelEntries(files) && FileEntries(g) <= LevelEntries(l);
    }
  }

  // ---- The new MANIFEST ----

  lemma {:induction false} AllAdditionsAre(v: Version, n: nat, i: nat)
    requires n <= NUM_LEVELS && i < NUM_LEVELS
    ensures (set p | p in AllAdditions(v, n) && p.0 == i :: p.1) == if i < n then FileSet(v[i]) else {}
  {
    if n > 0 {
      AllAdditionsAre(v, n - 1, i);
      EngineSteps.AdditionsAre(n - 1, v[n - 1], EmptyEdit().(added := Additions(n - 1, v[n - 1])), i);
      var a, b := AllAdditions(v, n - 1), Additions(n - 1, v[n - 1]);
      var both: seq<(nat, File)> := a + b;
      assert (set p | p in both && p.0 == i :: p.1) == (set p | p in a && p.0 == i :: p.1)
             + (set p | p in b && p.0 == i :: p.1);
    }
  }

  lemma {:induction false} AllAdditionsOk(v: Version, n: nat)
    requires n <= NUM_LEVELS
    ensures forall p | p in AllAdditions(v, n) :: p.0 < NUM_LEVELS
  {
    if n > 0 {
      AllAdditionsOk(v, n - 1);
    }
  }

  /** The snapshot edit alone describes the version it was taken from. */
  lemma SnapshotDescribes(v: Version)
    ensures EditOk(SnapshotEdit(v))
    ensures forall i: nat | i < NUM_LEVELS :: InstallAll([SnapshotEdit(v)], i) == FileSet(v[i])
    ensures EverAdded([SnapshotEdit(v)]) == VersionFiles(v)
  {
    var e := SnapshotEdit(v);
    AllAdditionsOk(v, NUM_LEVELS);
    EverAddedAppend([], e);
    assert [] + [e] == [e];
    forall i: nat | i < NUM_LEVELS ensures InstallAll([e], i) == FileSet(v[i]) && AllAdded([e], i) == FileSet(v[i]) {
      AllAdditionsAre(v, NUM_LEVELS, i);
      assert Deleted(e, i) == {} && InstallAll([], i) == {} && AllAdded([], i) == {};
      assert Added(e, i) == FileSet(v[i]);
    }
    forall f ensures f in EverAdded([e]) <==> f in VersionFiles(v) {
      if f in VersionFiles(v) {
        var i: nat :| i < NUM_LEVELS && f in v[i];
        assert f in AllAdded([e], i);
      }
      if f in EverAdded([e]) {
        var i: nat :| i < NUM_LEVELS && f in AllAdded([e], i);
        assert f in FileSet(v[i]);
      }
    }
  }

  lemma ZeroEditFiles(files: seq<File>, edit: VersionEdit)
    requires edit.added == Additions(0, files) && edit.deleted == []
    ensures EditOk(edit) && EditFiles(edit) == FileSet(files)
  {
    forall f ensures f in EditFiles(edit) <==> f in FileSet(files) {
      if f in EditFiles(edit) {
        var i: nat :| i < NUM_LEVELS && f in Added(edit, i);
        EngineSteps.AdditionsAre(0, files, edit, i);
      }
      if f in FileSet(files) {
        EngineSteps.AdditionsAre(0, files, edit, 0);
        assert f in Added(edit, 0);
      }
    }
  }

  lemma NewManifestOk(base: Version, files: seq<File>, newLog: nat, v': Version, last: nat, db': Db)
    requires Installed(base, EmptyEdit().(added := Additions(0, files)), v')
    requires NumbersName(VersionFiles(base) + FileSet(files))
             && (forall f | f in VersionFiles(base) + FileSet(files) :: f.number < newLog)
    requires db'.current == v' && db'.pending == {} && db'.nextFile == newLog + 1 && db'.logNumber == newLog
    requires db'.disk.manifest ==
             [SnapshotEdit(base), VersionEdit(Some(newLog), Some(newLog + 1), Some(last), [], Additions(0, files))]
    ensures ManifestOk(db') && LastLastSequence(db'.disk.manifest) == Some(last)
  {
    var edit := VersionEdit(Some(newLog), Some(newLog + 1), Some(last), [], Additions(0, files));
    SnapshotDescribes(base);
    EverAddedAppend([SnapshotEdit(base)], edit);
    assert [SnapshotEdit(base)] + [edit] == db'.disk.manifest;
    ZeroEditFiles(files, edit);
    var plain := EmptyEdit().(added := Additions(0, files));
    forall i: nat | i < NUM_LEVELS ensures FileSet(v'[i]) == InstallAll(db'.disk.manifest, i) {
      assert Added(plain, i) == Added(edit, i) && Deleted(plain, i) == Deleted(edit, i);
    }
  }

  // ---- The step ----

  lemma RecoveredLogs(w: World, newLog: nat)
    requires Contents(w) && LogsOk(w)
    requires forall i | 0 <= i < |w.db.disk.logs| && w.db.disk.logs[i].number >= w.db.logNumber ::
             w.db.disk.logs[i].number < newLog
    ensures var live := LogsFrom(w.db.disk.logs, w.db.logNumber);
            Ascending(live + [Log(newLog, [])]) && LogsFrom(live, newLog) == []
  {
    var logs := w.db.disk.logs;
    var live := LogsFrom(logs, w.db.logNumber);
    LogsFromAscending(logs, w.db.logNumber);
    forall i | 0 <= i < |live| ensures live[i].number < newLog {
      LogsFromMember(logs, w.db.logNumber, live[i]);
    }
    LogsFromNone(live, newLog);
  }

  lemma RecoveredSequence(w: World)
    requires Contents(w) && LogsOk(w) && LastRecorded(w)
    ensures Max(LastLastSequence(w.db.disk.manifest).value,
              LastOf(Flatten(LogsFrom(w.db.disk.logs, w.db.logNumber)))) == |w.hist|
  {
    LiveRecords(w);
    CoversEntries(Flatten(LogsFrom(w.db.disk.logs, w.db.logNumber)), w.hist, w.flushed, |w.hist|);
  }

  lemma RecoveredVersion(w: World, files: seq<File>, newLog: nat, v': Version)
    requires Inv(w) && RecoveredTables(w.db.disk, w.db.logNumber, LastNextFile(w.db.disk.manifest).value, files, newLog)
    requires Installed(w.db.current, EmptyEdit().(added := Additions(0, files)), v')
    ensures Shape(v') && Aged(v')
    ensures VersionEntries(v') == VersionEntries(w.db.current) + Range(w.hist, w.flushed, |w.hist|)
    ensures VersionFiles(v') == VersionFiles(w.db.current) + FileSet(files)
    ensures NumbersName(VersionFiles(w.db.current) + FileSet(files))
    ensures forall f | f in VersionFiles(w.db.current) :: f.number < newLog
  {
    LiveRecords(w);
    WrittenCovers(Flatten(LogsFrom(w.db.disk.logs, w.db.logNumber)), files, w.hist, w.flushed, |w.hist|);
    InstalledZero(w.db.current, files, v');
    AddsZeroEntries(w.db.current, v', files);
    CurrentWasAdded(w.db);
    FreshNumbers(VersionFiles(w.db.current), files, LastNextFile(w.db.disk.manifest).value);
    RecoveryKeepsShape(w.db.current, v', files);
    LaterRangeAbove(w.hist, 0, w.flushed, |w.hist|);
    assert Above(LevelEntries(files), VersionEntries(w.db.current));
    LevelInVersion(w.db.current, 0);
    RecoveryKeepsAge(w.db.current, v', files);
  }

  lemma RecoverKeepsContents(w: World, w': World)
    requires Contents(w) && w'.hist == w.hist && w'.floor == w.floor
    requires w'.flushed == |w.hist| && w'.switched == |w.hist| && w'.db.lastSequence == |w.hist|
    requires w'.db.mem == [] && w'.db.imm == None
    requires VersionEntries(w'.db.current) == VersionEntries(w.db.current) + Range(w.hist, w.flushed, |w.hist|)
    ensures Contents(w') && DbEntries(w'.db) == DbEntries(w.db)
  {
    RangeIsEmpty(w.hist, |w.hist|, |w.hist|);
    RangeSplit(w.hist, w.flushed, w.switched, |w.hist|);
    RangeSplit(w.hist, 0, w.flushed, |w.hist|);
    assert DbEntries(w'.db) == DbEntries(w.db);
  }

  lemma RecoverKeepsLogs(w: World, newLog: nat, w': World)
    requires Contents(w) && LogsOk(w) && Contents(w')
    requires forall i | 0 <= i < |w.db.disk.logs| && w.db.disk.logs[i].number >= w.db.logNumber ::
             w.db.disk.logs[i].number < newLog
    requires w'.flushed == |w'.hist| && w'.switched == |w'.hist|
    requires w'.db.logNumber == newLog && w'.db.logfileNumber == newLog && w'.db.nextFile == newLog + 1
    requires w'.db.disk.logs == LogsFrom(w.db.disk.logs, w.db.logNumber) + [Log(newLog, [])]
    ensures LogsOk(w')
  {
    RecoveredLogs(w, newLog);
    var live := LogsFrom(w.db.disk.logs, w.db.logNumber);
    assert w'.db.disk.logs[..|live|] == live;
  }

  lemma RecoverKeepsTables(w: World, files: seq<File>, w': World)
    requires TablesOk(w.db) && w'.db.pinned == [] && w'.db.pending == {}
    requires VersionFiles(w'.db.current) == VersionFiles(w.db.current) + FileSet(files)
    requires w'.db.disk.tables == w.db.disk.tables + Numbers(FileSet(files))
    ensures TablesOk(w'.db)
  {
  }

  /** The recovered database, field by field. */
  ghost predicate ReopenedAs(w: World, files: seq<File>, newLog: nat, w': World) {
    && w' == World(w'.db, w.hist, w.floor, |w.hist|, |w.hist|)
    && w'.db == Db([], None, w'.db.current, |w.hist|, newLog + 1, newLog, newLog, [], [], {}, w'.db.disk)
    && w'.db.disk.logs == LogsFrom(w.db.disk.logs, w.db.logNumber) + [Log(newLog, [])]
    && w'.db.disk.tables == w.db.disk.tables + Numbers(FileSet(files))
    && w'.db.disk.manifest == [SnapshotEdit(w.db.current), VersionEdit(Some(newLog), Some(newLog + 1), Some(|w.hist|),
        [], Additions(0, files))]
  }

  lemma RecoverReopens(w: World, base: Version, files: seq<File>, newLog: nat, v': Version, w': World)
    requires Inv(w) && Next(w, CrashAndRecover(base, files, newLog, v'), w')
    ensures ReopenedAs(w, files, newLog, w') && w'.db.current == v'
    ensures RecoveredTables(w.db.disk, w.db.logNumber, LastNextFile(w.db.disk.manifest).value, files, newLog)
    ensures Installed(w.db.current, EmptyEdit().(added := Additions(0, files)), v')
  {
    ReplayGivesCurrent(w.db, base);
    RecoveredSequence(w);
  }

  lemma ReopenedKeeps(w: World, files: seq<File>, newLog: nat, w': World)
    requires Inv(w) && ReopenedAs(w, files, newLog, w')
    requires RecoveredTables(w.db.disk, w.db.logNumber, LastNextFile(w.db.disk.manifest).value, files, newLog)
    requires Installed(w.db.current, EmptyEdit().(added := Additions(0, files)), w'.db.current)
    ensures Inv(w') && DbEntries(w'.db) == DbEntries(w.db)
  {
    RecoveredVersion(w, files, newLog, w'.db.current);
    RecoverKeepsContents(w, w');
    NewManifestOk(w.db.current, files, newLog, w'.db.current, |w.hist|, w'.db);
    RecoverKeepsLogs(w, newLog, w');
    RecoverKeepsTables(w, files, w');
  }

  /** A crash at any point, followed by recovery, keeps the invariant and every entry. */
  lemma RecoverKeeps(w: World, base: Version, files: seq<File>, newLog: nat, v': Version, w': World)
    requires Inv(w) && Next(w, CrashAndRecover(base, files, newLog, v'), w')
    ensures Inv(w') && w'.hist == w.hist && DbEntries(w'.db) == DbEntries(w.db)
  {
    RecoverReopens(w, base, files, newLog, v', w');
    ReopenedKeeps(w, files, newLog, w');
  }
}
