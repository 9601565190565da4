/** Opening a database from the bytes on its disk: the MANIFEST, the logs and the tables (db/db_impl.cc:280-489). */
module RecoverBytes {
  import opened DbFormat
  import opened Files
  import opened LevelSteps
  import opened CompactionLoop
  import opened Manifest
  import opened History
  import opened Engine
  import opened EngineBasics
  import EngineRecovery
  import EngineSteps
  import DbImpl
  import Reopen
  import Batch
  import EditCodec
  import ManifestBytes
  import LogFormat

  /** How a log file came about: the batches written to it, and the byte it was cut at. */
  datatype Origin = Origin(batches: seq<Batch.Numbered>, cut: nat)

  /** A log on disk: its number and its bytes. */
  datatype Stored = Stored(number: nat, contents: Bytes)

  /** Each log recovery reads is on disk under its number; a batch torn by the crash may follow its records. */
  ghost predicate StoredLogs(crc: LogFormat.Checksum, stored: seq<Stored>, origins: seq<Origin>, logs: seq<Log>,
                             from: nat) {
    && |stored| == |logs| && |origins| == |logs|
    && forall i | 0 <= i < |logs| :: StoredLog(crc, stored[i], origins[i], logs[i], from)
  }

  ghost predicate StoredLog(crc: LogFormat.Checksum, s: Stored, o: Origin, log: Log, from: nat) {
    s.number == log.number && (log.number >= from ==> Batch.LogOf(crc, s.contents, o.batches, o.cut, log.records))
  }

  method ReadLogs(crc: LogFormat.Checksum, stored: seq<Stored>, from: nat, ghost origins: seq<Origin>,
                  ghost logs: seq<Log>)
    returns (live: seq<Log>)
    requires StoredLogs(crc, stored, origins, logs, from)
    ensures live == LogsFrom(logs, from)
  {
    live := [];
    for i := 0 to |stored|
      invariant live + LogsFrom(logs[i..], from) == LogsFrom(logs, from)
    {
      assert StoredLog(crc, stored[i], origins[i], logs[i], from);
      assert logs[i..][0] == logs[i] && logs[i..][1..] == logs[i + 1..];
      if stored[i].number >= from {
        var records := Batch.ReplayLog(crc, stored[i].contents, origins[i].batches, origins[i].cut, logs[i].records);
        OneMoreLog(live, logs[i], LogsFrom(logs[i + 1..], from));
        live := live + [Log(stored[i].number, records)];
      } else {
        assert [] + LogsFrom(logs[i + 1..], from) == LogsFrom(logs[i + 1..], from);
      }
    }
  }

  lemma OneMoreLog(live: seq<Log>, log: Log, rest: seq<Log>)
    ensures live + ([log] + rest) == (live + [log]) + rest
  {
  }

  /** What is on disk of a database: the MANIFEST's bytes, the logs and the entries of the tables. */
  ghost predicate OnDisk(crc: LogFormat.Checksum, manifest: Bytes, es: seq<EditCodec.Edit>, cut: nat,
                         stored: seq<Stored>, origins: seq<Origin>, tables: ManifestBytes.Tables, w: World)
  {
    && ManifestBytes.CutOf(crc, manifest, es, cut, w.db.disk.manifest) && ManifestBytes.TablesHold(w.db.current, tables)
    && StoredLogs(crc, stored, origins, w.db.disk.logs, w.db.logNumber)
  }

  /** A crash at any point of any run, and recovery from the bytes it leaves: a CrashAndRecover step, whatever was
      torn. */
  method Recover(crc: LogFormat.Checksum, manifest: Bytes, stored: seq<Stored>, tables: ManifestBytes.Tables,
                 full: nat -> bool, fileSize: seq<Entry> -> nat, ghost es: seq<EditCodec.Edit>, ghost cut: nat,
                 ghost origins: seq<Origin>, ghost w: World)
    returns (base: Version, files: seq<File>, newLog: nat, v': Version)
    requires Inv(w) && OnDisk(crc, manifest, es, cut, stored, origins, tables, w)
    ensures Recovers(w.db.disk, base, files, newLog, v', Opened(w.db.disk, base, files, newLog, v'))
    ensures base == w.db.current
  {
    var logNumber, nextFile, lastSequence;
    base, logNumber, nextFile, lastSequence := ManifestBytes.RecoverCurrent(crc, manifest, tables, es, cut, w);
    CurrentIsReplayed(w);
    EngineRecovery.NoMissingFiles(w, base);
    LiveRecords(w);
    var live := ReadLogs(crc, stored, logNumber.value, origins, w.db.disk.logs);
    var last;
    files, newLog, last := Reopen.RecoverLogs(live, nextFile.value + 1, full, fileSize, nextFile.value,
                                              w.hist, w.flushed, |w.hist|);
    Reopen.RecoveredReady(w, files, newLog);
    v' := DbImpl.InstallEdit(base, EmptyEdit().(added := Additions(0, files)));
  }

  lemma CurrentIsReplayed(w: World)
    requires Inv(w)
    ensures Replayed(w.db.disk.manifest, w.db.current)
  {
    var m := w.db.disk.manifest;
    forall i: nat | i < NUM_LEVELS ensures FileSet(w.db.current[i]) == Saved({}, Fold(m, i)) {
      assert AllAdded(m, i) <= EverAdded(m);
      ReplayIsInstall(m, i);
    }
  }

  /** The bytes give back the database: the same history, and every entry. */
  lemma RecoveredIsSame(w: World, base: Version, files: seq<File>, newLog: nat, v': Version) returns (w': World)
    requires Inv(w) && Recovers(w.db.disk, base, files, newLog, v', Opened(w.db.disk, base, files, newLog, v'))
    ensures Next(w, CrashAndRecover(base, files, newLog, v'), w')
    ensures Inv(w') && w'.hist == w.hist && DbEntries(w'.db) == DbEntries(w.db)
  {
    w' := World(Opened(w.db.disk, base, files, newLog, v'), w.hist, w.floor, |w.hist|, |w.hist|);
    EngineRecovery.RecoverKeeps(w, base, files, newLog, v', w');
  }
}
