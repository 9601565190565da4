/** Memtables, logs and the MANIFEST: what one append does to each. */
module EngineBasics {
  import opened DbFormat
  import opened Visibility
  import opened Files
  import opened LevelSteps
  import opened Manifest
  import opened History
  import opened Engine

  // ---- Memtable ----

  lemma {:induction false} InsertSortedOk(s: seq<Entry>, e: Entry)
    requires Sorted(s) && forall x | x in s :: x.key.sequence != e.key.sequence
    ensures Sorted(InsertSorted(s, e)) && ToSet(InsertSorted(s, e)) == ToSet(s) + {e}
  {
    if s != [] {
      assert s == [s[0]] + s[1..];
      if Less(s[0].key, e.key) {
        InsertSortedOk(s[1..], e);
        var t := InsertSorted(s[1..], e);
        forall x | x in t ensures Less(s[0].key, x.key) {
          assert x in ToSet(s[1..]) + {e};
        }
      } else {
        assert s[0] in s;
        forall x | x in s ensures Less(e.key, x.key) {
        }
      }
    }
  }

  ghost function BatchEntries(first: nat, ops: seq<Op>): set<Entry> {
    set i | 0 <= i < |ops| :: EntryOf(ops[i], first + i)
  }

  lemma {:induction false} AddAllOk(mem: seq<Entry>, first: nat, ops: seq<Op>)
    requires Sorted(mem) && forall x | x in mem :: x.key.sequence < first
    ensures Sorted(AddAll(mem, first, ops)) && ToSet(AddAll(mem, first, ops)) == ToSet(mem) + BatchEntries(first, ops)
    decreases |ops|
  {
    if ops != [] {
      var e := EntryOf(ops[0], first);
      InsertSortedOk(mem, e);
      var mem' := InsertSorted(mem, e);
      forall x | x in mem' ensures x.key.sequence < first + 1 {
        assert x in ToSet(mem) + {e};
      }
      AddAllOk(mem', first + 1, ops[1..]);
      BatchSplit(first, ops);
    }
  }

  lemma BatchSplit(first: nat, ops: seq<Op>)
    requires ops != []
    ensures BatchEntries(first, ops) == {EntryOf(ops[0], first)} + BatchEntries(first + 1, ops[1..])
  {
    forall e | e in BatchEntries(first, ops) ensures e in {EntryOf(ops[0], first)} + BatchEntries(first + 1, ops[1..]) {
      var i :| 0 <= i < |ops| && e == EntryOf(ops[i], first + i);
      if i > 0 {
        assert e == EntryOf(ops[1..][i - 1], first + 1 + (i - 1));
      }
    }
    forall e | e in BatchEntries(first + 1, ops[1..]) ensures e in BatchEntries(first, ops) {
      var i :| 0 <= i < |ops[1..]| && e == EntryOf(ops[1..][i], first + 1 + i);
      assert e == EntryOf(ops[i + 1], first + (i + 1));
    }
  }

  lemma BatchIsRange(hist: seq<Op>, ops: seq<Op>, a: nat, b: nat)
    requires a <= b <= |hist| && ops == hist[a..b]
    ensures BatchEntries(a + 1, ops) == Range(hist, a, b)
  {
    forall e | e in BatchEntries(a + 1, ops) ensures e in Range(hist, a, b) {
      var i :| 0 <= i < |ops| && e == EntryOf(ops[i], a + 1 + i);
      assert e == EntryOf(hist[a + i], (a + i) + 1);
    }
    forall e | e in Range(hist, a, b) ensures e in BatchEntries(a + 1, ops) {
      var i :| a <= i < b && e == EntryOf(hist[i], i + 1);
      assert e == EntryOf(ops[i - a], a + 1 + (i - a));
    }
  }

  lemma RangeIsEmpty(hist: seq<Op>, a: nat, b: nat)
    requires a <= b <= |hist|
    ensures Range(hist, a, b) == {} <==> a == b
  {
    if a < b {
      assert EntryOf(hist[a], a + 1) in Range(hist, a, b);
    }
  }

  // ---- Logs ----

  lemma {:induction false} CoversExtend(records: seq<Record>, hist: seq<Op>, ops: seq<Op>, a: nat, b: nat)
    requires a <= b <= |hist| && Covers(records, hist, a, b)
    ensures Covers(records, hist + ops, a, b)
  {
    if records != [] {
      var r := records[|records| - 1];
      var m, hist' := b - |r.ops|, hist + ops;
      assert hist'[m..b] == hist[m..b];
      CoversExtend(records[..|records| - 1], hist, ops, a, m);
      assert r.ops == hist'[b - |r.ops|..b];
    }
  }

  lemma CoversAppend(records: seq<Record>, hist: seq<Op>, ops: seq<Op>, a: nat)
    requires a <= |hist| && Covers(records, hist, a, |hist|)
    ensures Covers(records + [Record(|hist| + 1, ops)], hist + ops, a, |hist + ops|)
  {
    var records', hist' := records + [Record(|hist| + 1, ops)], hist + ops;
    CoversExtend(records, hist, ops, a, |hist|);
    assert records'[..|records'| - 1] == records && hist'[|hist|..|hist'|] == ops;
  }

  lemma {:induction false} CoversConcat(r1: seq<Record>, r2: seq<Record>, hist: seq<Op>, a: nat, b: nat, c: nat)
    requires a <= b <= c <= |hist| && Covers(r1, hist, a, b) && Covers(r2, hist, b, c)
    ensures Covers(r1 + r2, hist, a, c)
  {
    if r2 == [] {
      assert r1 + r2 == r1;
    } else {
      var n := |r2| - 1;
      var all := r1 + r2;
      assert all[|all| - 1] == r2[n] && all[..|all| - 1] == r1 + r2[..n];
      CoversConcat(r1, r2[..n], hist, a, b, c - |r2[n].ops|);
    }
  }

  /** The entries of records that cover a stretch of the history. */
  lemma {:induction false} CoversEntries(records: seq<Record>, hist: seq<Op>, a: nat, b: nat)
    requires a <= b <= |hist| && Covers(records, hist, a, b)
    ensures RecordEntries(records) == Range(hist, a, b)
    ensures LastOf(records) <= b && (a < b ==> LastOf(records) == b)
  {
    if records == [] {
      RangeIsEmpty(hist, a, b);
    } else {
      var n := |records| - 1;
      var r := records[n];
      var m := b - |r.ops|;
      CoversEntries(records[..n], hist, a, m);
      BatchIsRange(hist, r.ops, m, b);
      RangeSplit(hist, a, m, b);
    }
  }

  /** A suffix of covering records covers a suffix of the stretch. */
  lemma {:induction false} CoversSplit(records: seq<Record>, hist: seq<Op>, a: nat, b: nat, n: nat) returns (m: nat)
    requires a <= b <= |hist| && Covers(records, hist, a, b) && n <= |records|
    ensures a <= m <= b && Covers(records[..n], hist, a, m) && Covers(records[n..], hist, m, b)
  {
    if n == |records| {
      m := b;
      assert records[..n] == records;
    } else {
      var k := |records| - 1;
      var c := b - |records[k].ops|;
      m := CoversSplit(records[..k], hist, a, c, n);
      assert records[..k][..n] == records[..n] && records[..k][n..] == records[n..][..k - n];
      assert records[n..][|records[n..]| - 1] == records[k];
    }
  }

  lemma SeqAssociates<T>(x: seq<T>, y: seq<T>, z: seq<T>)
    ensures x + (y + z) == (x + y) + z
  {
  }

  lemma {:induction false} FlattenConcat(a: seq<Log>, b: seq<Log>)
    ensures Flatten(a + b) == Flatten(a) + Flatten(b)
  {
    if a == [] {
      assert a + b == b;
    } else {
      var t := a[1..];
      assert (a + b)[0] == a[0] && (a + b)[1..] == t + b;
      FlattenConcat(t, b);
      SeqAssociates(a[0].records, Flatten(t), Flatten(b));
    }
  }

  lemma {:induction false} LogsFromConcat(a: seq<Log>, b: seq<Log>, n: nat)
    ensures LogsFrom(a + b, n) == LogsFrom(a, n) + LogsFrom(b, n)
  {
    if a == [] {
      assert a + b == b;
    } else {
      LogsFromConcat(a[1..], b, n);
      assert (a + b)[1..] == a[1..] + b && (a + b)[0] == a[0];
      SeqAssociates(if a[0].number >= n then [a[0]] else [], LogsFrom(a[1..], n), LogsFrom(b, n));
    }
  }

  lemma {:induction false} LogsFromNone(logs: seq<Log>, n: nat)
    requires forall i | 0 <= i < |logs| :: logs[i].number < n
    ensures LogsFrom(logs, n) == []
  {
    if logs != [] {
      LogsFromNone(logs[1..], n);
    }
  }

  lemma {:induction false} LogsFromMember(logs: seq<Log>, n: nat, l: Log)
    ensures l in LogsFrom(logs, n) <==> l in logs && l.number >= n
  {
    if logs != [] {
      LogsFromMember(logs[1..], n, l);
      assert logs == [logs[0]] + logs[1..];
    }
  }

  lemma {:induction false} LogsFromAscending(logs: seq<Log>, n: nat)
    requires Ascending(logs)
    ensures Ascending(LogsFrom(logs, n)) && LogsFrom(LogsFrom(logs, n), n) == LogsFrom(logs, n)
  {
    if logs != [] {
      assert Ascending(logs[1..]);
      LogsFromAscending(logs[1..], n);
      if logs[0].number >= n {
        forall l | l in LogsFrom(logs[1..], n) ensures logs[0].number < l.number {
          LogsFromMember(logs[1..], n, l);
        }
        assert LogsFrom(logs, n)[1..] == LogsFrom(logs[1..], n);
      } else {
        assert LogsFrom(logs, n) == LogsFrom(logs[1..], n);
      }
    }
  }

  /** All live records together cover everything not flushed. */
  lemma LiveRecords(w: World)
    requires Contents(w) && LogsOk(w)
    ensures var logs := w.db.disk.logs;
            var live := LogsFrom(logs, w.db.logNumber);
            live == LogsFrom(logs[..|logs| - 1], w.db.logNumber) + [logs[|logs| - 1]]
            && Covers(Flatten(live), w.hist, w.flushed, |w.hist|)
  {
    var logs, n := w.db.disk.logs, |w.db.disk.logs| - 1;
    assert logs == logs[..n] + [logs[n]];
    LogsFromConcat(logs[..n], [logs[n]], w.db.logNumber);
    assert LogsFrom([logs[n]], w.db.logNumber) == [logs[n]];
    var older := LogsFrom(logs[..n], w.db.logNumber);
    FlattenConcat(older, [logs[n]]);
    assert Flatten([logs[n]]) == logs[n].records + Flatten([]);
    assert Flatten([logs[n]]) == logs[n].records;
    CoversConcat(Flatten(older), logs[n].records, w.hist, w.flushed, w.switched, |w.hist|);
  }

  // ---- MANIFEST ----

  ghost function EditFiles(edit: VersionEdit): set<File> {
    set i: nat, f | i < NUM_LEVELS && f in Added(edit, i) :: f
  }

  lemma EverAddedAppend(m: seq<VersionEdit>, e: VersionEdit)
    ensures EverAdded(m + [e]) == EverAdded(m) + EditFiles(e)
    ensures forall i: nat :: InstallAll(m + [e], i) == AfterEdit(InstallAll(m, i), e, i)
    ensures forall i: nat :: AllAdded(m + [e], i) == AllAdded(m, i) + Added(e, i)
  {
    assert (m + [e])[..|m|] == m;
    forall i: nat ensures InstallAll(m + [e], i) == AfterEdit(InstallAll(m, i), e, i)
      && AllAdded(m + [e], i) == AllAdded(m, i) + Added(e, i) {
    }
    forall f ensures f in EverAdded(m + [e]) <==> f in EverAdded(m) + EditFiles(e) {
      if f in EverAdded(m + [e]) {
        var i: nat :| i < NUM_LEVELS && f in AllAdded(m + [e], i);
        assert f in AllAdded(m, i) || f in Added(e, i);
      }
      if f in EverAdded(m) {
        var i: nat :| i < NUM_LEVELS && f in AllAdded(m, i);
        assert f in AllAdded(m + [e], i);
      }
      if f in EditFiles(e) {
        var i: nat :| i < NUM_LEVELS && f in Added(e, i);
        assert f in AllAdded(m + [e], i);
      }
    }
  }

  lemma {:induction false} InstallWithinAdded(m: seq<VersionEdit>, i: nat)
    ensures InstallAll(m, i) <= AllAdded(m, i)
  {
    if m != [] {
      InstallWithinAdded(m[..|m| - 1], i);
    }
  }

  lemma CurrentWasAdded(db: Db)
    requires ManifestOk(db)
    ensures VersionFiles(db.current) <= EverAdded(db.disk.manifest)
    ensures forall f | f in VersionFiles(db.current) :: f.number < db.nextFile
  {
    forall f | f in VersionFiles(db.current) ensures f in EverAdded(db.disk.manifest) {
      var i: nat :| i < NUM_LEVELS && f in db.current[i];
      assert f in FileSet(db.current[i]);
      InstallWithinAdded(db.disk.manifest, i);
    }
  }

  /** Appending a completed edit keeps the MANIFEST in step with the current version. */
  lemma LogAndApplyKeepsManifest(db: Db, edit: VersionEdit, v': Version)
    requires ManifestOk(db) && EditOk(edit) && Installed(db.current, edit, v')
    requires NumbersName(EverAdded(db.disk.manifest) + EditFiles(edit))
    requires forall f | f in EditFiles(edit) :: f.number < db.nextFile && f.number !in db.pending
    ensures ManifestOk(LogAndApply(db, edit, v'))
    ensures LastLastSequence(LogAndApply(db, edit, v').disk.manifest) == Some(db.lastSequence)
  {
    var m, e := db.disk.manifest, Completed(db, edit);
    EverAddedAppend(m, e);
    assert forall i: nat :: Added(e, i) == Added(edit, i) && Deleted(e, i) == Deleted(edit, i);
    assert EditFiles(e) == EditFiles(edit);
    var db' := LogAndApply(db, edit, v');
    forall i: nat | i < NUM_LEVELS ensures FileSet(db'.current[i]) == InstallAll(m + [e], i) {
      assert AfterEdit(FileSet(db.current[i]), edit, i) == AfterEdit(InstallAll(m, i), e, i);
    }
    forall x | x in m + [e] ensures EditOk(x) {
    }
  }
}
