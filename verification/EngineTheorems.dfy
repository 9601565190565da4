/** The main results about whole runs of the database. */
module EngineTheorems {
  import opened DbFormat
  import opened Visibility
  import opened Files
  import opened Inputs
  import opened LevelSteps
  import opened CompactionLoop
  import opened Manifest
  import opened History
  import opened Engine
  import opened EngineBasics
  import EngineSteps
  import EngineRecovery

  // ---- Every step ----

  lemma SnapshotStepKeeps(w: World, w': World)
    requires Inv(w) && SnapshotsOk(w') && w' == w.(db := w.db.(snapshots := w'.db.snapshots))
    ensures Inv(w') && DbEntries(w'.db) == DbEntries(w.db)
  {
  }

  lemma PinStepKeeps(w: World, w': World)
    requires Inv(w) && TablesOk(w'.db) && w' == w.(db := w.db.(pinned := w'.db.pinned))
    ensures Inv(w') && DbEntries(w'.db) == DbEntries(w.db)
  {
  }

  lemma AbandonKeeps(w: World, n: nat, w': World)
    requires Inv(w) && Next(w, AbandonOutput(n), w')
    ensures Inv(w') && DbEntries(w'.db) == DbEntries(w.db)
  {
  }

  lemma ReserveManifest(db: Db)
    requires ManifestOk(db) && TablesOk(db)
    ensures ManifestOk(AfterReserve(db)) && TablesOk(AfterReserve(db))
  {
    assert db.nextFile !in Numbers(EverAdded(db.disk.manifest));
  }

  lemma ReserveKeeps(w: World)
    requires Inv(w)
    ensures var w' := w.(db := AfterReserve(w.db)); Inv(w') && DbEntries(w'.db) == DbEntries(w.db)
  {
    ReserveManifest(w.db);
  }

  lemma ReleasedSnapshots(w: World, i: nat)
    requires SnapshotsOk(w) && i < |w.db.snapshots|
    ensures SnapshotsOk(w.(db := w.db.(snapshots := RemoveAt(w.db.snapshots, i))))
  {
    var s, t := w.db.snapshots, RemoveAt(w.db.snapshots, i);
    forall j | 0 <= j < |t| ensures t[j] == s[if j < i then j else j + 1] {
    }
  }

  lemma UnpinnedTables(db: Db, i: nat)
    requires TablesOk(db) && i < |db.pinned|
    ensures TablesOk(db.(pinned := RemoveAt(db.pinned, i)))
  {
    var s, t := db.pinned, RemoveAt(db.pinned, i);
    forall j | 0 <= j < |t| ensures t[j] == s[if j < i then j else j + 1] {
    }
  }

  lemma PinnedTables(db: Db)
    requires TablesOk(db)
    ensures TablesOk(db.(pinned := db.pinned + [db.current]))
  {
  }

  lemma TakenSnapshot(w: World)
    requires Contents(w) && SnapshotsOk(w)
    ensures SnapshotsOk(w.(db := w.db.(snapshots := w.db.snapshots + [w.db.lastSequence])))
  {
  }

  lemma SmallStepKeeps(w: World, step: Step, w': World)
    requires Inv(w) && Next(w, step, w')
    requires step.GetSnapshot? || step.ReleaseSnapshot? || step.PinVersion? || step.UnpinVersion?
    ensures Inv(w') && DbEntries(w'.db) == DbEntries(w.db)
  {
    match step
    case GetSnapshot =>
      TakenSnapshot(w);
      SnapshotStepKeeps(w, w');
    case ReleaseSnapshot(i) =>
      ReleasedSnapshots(w, i);
      SnapshotStepKeeps(w, w');
    case PinVersion =>
      PinnedTables(w.db);
      PinStepKeeps(w, w');
    case UnpinVersion(i) =>
      UnpinnedTables(w.db, i);
      PinStepKeeps(w, w');
  }

  /** What one step does to the entries of the database: a write adds its operations, a compaction drops what its
      loop drops from its inputs, and every other step, a crash with its recovery included, leaves them as they were. */
  ghost predicate EntriesAfter(w: World, step: Step, w': World) {
    match step
    case Write(ops) =>
      && w'.hist == w.hist + ops
      && DbEntries(w'.db) == DbEntries(w.db) + Range(w'.hist, |w.hist|, |w'.hist|)
    case Compact(level, in0, in1, _, _, _, _) =>
      && w'.hist == w.hist && level + 1 < NUM_LEVELS
      && DbEntries(w.db) == Untouched(w.db, level, in0, in1) + InputEntries(in0, in1)
      && DbEntries(w'.db) == Untouched(w.db, level, in0, in1)
                             + Kept(InputEntries(in0, in1), SmallestSnapshot(w.db), BaseKeys(w.db.current, level))
    case _ => w'.hist == w.hist && w'.floor == w.floor && DbEntries(w'.db) == DbEntries(w.db)
  }

  lemma MemoryStepKeeps(w: World, step: Step, w': World)
    requires Inv(w) && Next(w, step, w')
    requires step.Write? || step.SwitchMemTable? || step.ReserveOutput? || step.AbandonOutput?
             || step.DeleteObsoleteFiles?
    ensures Inv(w') && EntriesAfter(w, step, w')
  {
    match step
    case Write(ops) => EngineSteps.WriteKeeps(w, ops, w');
    case SwitchMemTable => EngineSteps.SwitchKeeps(w, w');
    case ReserveOutput => ReserveKeeps(w);
    case AbandonOutput(n) => AbandonKeeps(w, n, w');
    case DeleteObsoleteFiles => EngineSteps.DeleteKeeps(w, w');
  }

  lemma TableStepKeeps(w: World, step: Step, w': World)
    requires Inv(w) && Next(w, step, w')
    requires step.Flush? || step.Move? || step.Compact? || step.CrashAndRecover?
    ensures Inv(w') && EntriesAfter(w, step, w')
  {
    match step
    case Flush(level, size, v') => EngineSteps.FlushKeeps(w, level, size, v', w');
    case Move(level, f, lo, hi, v') => EngineSteps.MoveKeeps(w, level, f, lo, hi, v', w');
    case Compact(level, in0, in1, lo, hi, outs, v') =>
      EngineSteps.CompactKeeps(w, level, in0, in1, lo, hi, outs, v', w');
      EngineSteps.CompactChanges(w, level, in0, in1, lo, hi, outs, v', w');
    case CrashAndRecover(base, files, newLog, v') => EngineRecovery.RecoverKeeps(w, base, files, newLog, v', w');
  }

  /** Every step keeps the invariant, and only a compaction ever drops an entry. */
  lemma StepKeeps(w: World, step: Step, w': World)
    requires Inv(w) && Next(w, step, w')
    ensures Inv(w') && EntriesAfter(w, step, w')
  {
    if step.Flush? || step.Move? || step.Compact? || step.CrashAndRecover? {
      TableStepKeeps(w, step, w');
    } else if step.GetSnapshot? || step.ReleaseSnapshot? || step.PinVersion? || step.UnpinVersion? {
      SmallStepKeeps(w, step, w');
    } else {
      MemoryStepKeeps(w, step, w');
    }
  }

  lemma SameEntriesSameReads(w: World, w': World)
    requires Faithful(w) && w'.hist == w.hist && w'.floor == w.floor && DbEntries(w'.db) == DbEntries(w.db)
    ensures Faithful(w')
  {
  }

  /** Every safe step keeps the reads. */
  lemma StepIsFaithful(w: World, step: Step, w': World)
    requires Inv(w) && Faithful(w) && Next(w, step, w') && Safe(w, step)
    ensures Faithful(w')
  {
    if step.Write? {
      EngineSteps.WriteKeepsReads(w, step.ops, w');
    } else if step.Compact? {
      EngineSteps.CompactKeepsReads(w, step.level, step.in0, step.in1, step.lo, step.hi, step.outs, step.v', w');
    } else {
      StepKeeps(w, step, w');
      SameEntriesSameReads(w, w');
    }
  }

  // ---- Every run ----

  lemma NewManifest()
    ensures ManifestOk(NewDb())
  {
    var m := NewDb().disk.manifest;
    var e1, e2 := m[0], m[1];
    assert m == [e1] + [e2] && [] + [e1] == [e1];
    EverAddedAppend([], e1);
    EverAddedAppend([e1], e2);
    assert EditFiles(e1) == {} && EditFiles(e2) == {} && EverAdded([]) == {};
    assert forall i: nat :: InstallAll([], i) == {} && Added(e1, i) == {} && Added(e2, i) == {};
    NewVersion();
  }

  lemma NewVersion()
    ensures var v := NewDb().current;
            && Shape(v) && Aged(v) && VersionEntries(v) == {} && VersionFiles(v) == {}
            && forall i: nat | i < NUM_LEVELS :: v[i] == []
  {
    var v := NewDb().current;
    forall i: nat | i < NUM_LEVELS ensures v[i] == [] {
    }
  }

  lemma NewWorldOk()
    ensures Inv(NewWorld()) && Faithful(NewWorld())
  {
    var w := NewWorld();
    NewManifest();
    NewVersion();
    assert DbEntries(w.db) == {} && All(w.hist) == {};
    assert w.db.disk.logs[..0] == [];
  }

  lemma RunStep(ws: seq<World>, steps: seq<Step>, i: nat) returns (w: World, step: Step, w': World)
    requires Run(ws, steps) && i < |steps|
    ensures w == ws[i] && step == steps[i] && w' == ws[i + 1] && Next(w, step, w')
  {
    w, step, w' := ws[i], steps[i], ws[i + 1];
  }

  /** Every state of every run satisfies the invariant, crashes and unsafe compactions included. */
  lemma {:induction false} RunKeeps(ws: seq<World>, steps: seq<Step>, n: nat)
    requires Run(ws, steps) && n < |ws|
    ensures Inv(ws[n])
    decreases n, 1
  {
    if n == 0 {
      RunStarts(ws, steps);
    } else {
      RunGoesOn(ws, steps, n);
    }
  }

  lemma {:induction false} RunGoesOn(ws: seq<World>, steps: seq<Step>, n: nat)
    requires Run(ws, steps) && 0 < n < |ws|
    ensures Inv(ws[n])
    decreases n, 0
  {
    RunKeeps(ws, steps, n - 1);
    var w' := RunOn(ws, steps, n - 1);
  }

  lemma RunStarts(ws: seq<World>, steps: seq<Step>)
    requires Run(ws, steps)
    ensures Inv(ws[0]) && Faithful(ws[0])
  {
    NewWorldOk();
  }

  lemma RunOn(ws: seq<World>, steps: seq<Step>, i: nat) returns (w': World)
    requires Run(ws, steps) && i < |steps| && Inv(ws[i])
    ensures w' == ws[i + 1] && Inv(w')
  {
    var w, step;
    w, step, w' := RunStep(ws, steps, i);
    StepKeeps(w, step, w');
  }

  lemma {:induction false} RunIsFaithful(ws: seq<World>, steps: seq<Step>, n: nat)
    requires Run(ws, steps) && n < |ws| && forall i | 0 <= i < n :: Safe(ws[i], steps[i])
    ensures Inv(ws[n]) && Faithful(ws[n])
  {
    RunKeeps(ws, steps, n);
    if n == 0 {
      RunStarts(ws, steps);
    } else {
      RunIsFaithful(ws, steps, n - 1);
      var w, step, w' := RunStep(ws, steps, n - 1);
      StepIsFaithful(w, step, w');
    }
  }

  /** In every state of every run of safe steps, crashes included, what the memtables and tables hold for a user key at
      any live snapshot, or now, is what a plain map updated by the acknowledged operations holds. */
  lemma RunRefinesMap(ws: seq<World>, steps: seq<Step>, n: nat, k: UserKey, s: nat)
    requires Run(ws, steps) && n < |ws| && forall i | 0 <= i < n :: Safe(ws[i], steps[i])
    requires s in ws[n].db.snapshots || s == ws[n].db.lastSequence
    ensures s <= |ws[n].hist| && View(DbEntries(ws[n].db), k, s) == Lookup(MapAt(ws[n].hist, s), k)
  {
    RunIsFaithful(ws, steps, n);
    HistoryIsMap(ws[n].hist, k, s);
  }

  /** What the state holds at every snapshot that can still be read is what the plain map held then. */
  ghost predicate ReadsAsMap(w: World)
    requires w.floor <= |w.hist|
  {
    forall k, s: nat | w.floor <= s <= |w.hist| :: View(DbEntries(w.db), k, s) == Lookup(MapAt(w.hist, s), k)
  }

  lemma FaithfulIsMap(w: World)
    requires w.floor <= |w.hist|
    ensures Faithful(w) <==> ReadsAsMap(w)
  {
    forall k, s: nat | w.floor <= s <= |w.hist| ensures View(All(w.hist), k, s) == Lookup(MapAt(w.hist, s), k) {
      HistoryIsMap(w.hist, k, s);
    }
  }

  /** Two sets of entries that read as the history does read as each other does. */
  lemma BothReadSame(S: set<Entry>, T: set<Entry>, hist: seq<Op>, floor: nat, floor': nat)
    requires ReadsAs(S, hist, floor) && ReadsAs(T, hist, floor') && floor <= floor' <= |hist|
    requires S <= All(hist) && T <= All(hist)
    ensures SameReads(S, T, floor')
  {
    forall k, s | floor' <= s ensures View(S, k, s) == View(T, k, s) {
      if s > |hist| {
        ViewBeyond(S, hist, k, s);
        ViewBeyond(T, hist, k, s);
      }
    }
  }

  /** An unsafe compaction is seen: the reads were those of the history before it and are not after it. */
  lemma FaithfulIsSafe(w: World, step: Step, w': World)
    requires Inv(w) && Faithful(w) && Next(w, step, w') && Faithful(w')
    ensures Safe(w, step)
  {
    if step.Compact? {
      CompactFloor(w, step, w');
      StepKeeps(w, step, w');
      EngineSteps.EntriesFromHistory(w);
      EngineSteps.EntriesFromHistory(w');
      BothReadSame(DbEntries(w.db), DbEntries(w'.db), w.hist, w.floor, w'.floor);
      CompactionExact(w, step, w');
    }
  }

  lemma CompactFloor(w: World, step: Step, w': World)
    requires Inv(w) && step.Compact? && Next(w, step, w')
    ensures w'.hist == w.hist && w'.floor == SmallestSnapshot(w.db) && w.floor <= w'.floor <= |w.hist|
  {
    EngineSteps.CompactKeepsSnapshots(w, step.level, step.in0, step.in1, step.lo, step.hi, step.outs, step.v', w');
  }

  /** Every state of a run, up to the `n`th, reads as the plain map did if and only if every step before is safe. */
  lemma RunRefinesMapExactly(ws: seq<World>, steps: seq<Step>, n: nat)
    requires Run(ws, steps) && n < |ws|
    ensures forall i | 0 <= i <= n :: ws[i].floor <= |ws[i].hist|
    ensures (forall i | 0 <= i <= n :: ReadsAsMap(ws[i])) <==> (forall i | 0 <= i < n :: Safe(ws[i], steps[i]))
  {
    forall i | 0 <= i <= n ensures ws[i].floor <= |ws[i].hist| && (Faithful(ws[i]) <==> ReadsAsMap(ws[i])) {
      RunFloor(ws, steps, i);
      FaithfulIsMap(ws[i]);
    }
    RunFaithfulExactly(ws, steps, n);
  }

  lemma RunFloor(ws: seq<World>, steps: seq<Step>, i: nat)
    requires Run(ws, steps) && i < |ws|
    ensures ws[i].floor <= |ws[i].hist|
  {
    RunKeeps(ws, steps, i);
  }

  lemma RunFaithfulExactly(ws: seq<World>, steps: seq<Step>, n: nat)
    requires Run(ws, steps) && n < |ws|
    ensures (forall i | 0 <= i <= n :: Faithful(ws[i])) <==> (forall i | 0 <= i < n :: Safe(ws[i], steps[i]))
  {
    if forall i | 0 <= i <= n :: Faithful(ws[i]) {
      forall i | 0 <= i < n ensures Safe(ws[i], steps[i]) {
        RunKeeps(ws, steps, i);
        var w, step, w' := RunStep(ws, steps, i);
        FaithfulIsSafe(w, step, w');
      }
    }
    if forall i | 0 <= i < n :: Safe(ws[i], steps[i]) {
      forall i | 0 <= i <= n ensures Faithful(ws[i]) {
        RunIsFaithful(ws, steps, i);
      }
    }
  }

  /** Acknowledged operations are never lost: the logs recovery reads hold, in order, exactly those that are not
      flushed; tables hold nothing else than flushed ones; and no table a live version names is ever missing. */
  lemma RunIsDurable(ws: seq<World>, steps: seq<Step>, n: nat)
    requires Run(ws, steps) && n < |ws|
    ensures var w := ws[n]; var live := Flatten(LogsFrom(w.db.disk.logs, w.db.logNumber));
            && w.flushed <= |w.hist| && Covers(live, w.hist, w.flushed, |w.hist|)
            && RecordEntries(live) == Range(w.hist, w.flushed, |w.hist|)
            && VersionEntries(w.db.current) <= Range(w.hist, 0, w.flushed)
            && DbEntries(w.db) == VersionEntries(w.db.current) + RecordEntries(live)
            && TablesOk(w.db)
  {
    RunKeeps(ws, steps, n);
    var w := ws[n];
    LiveRecords(w);
    CoversEntries(Flatten(LogsFrom(w.db.disk.logs, w.db.logNumber)), w.hist, w.flushed, |w.hist|);
    RangeSplit(w.hist, w.flushed, w.switched, |w.hist|);
  }

  /** While compactions are safe the tables alone account for the flushed operations: with the logs, they answer
      every read a plain map would. */
  lemma RunIsDurableMap(ws: seq<World>, steps: seq<Step>, n: nat, k: UserKey, s: nat)
    requires Run(ws, steps) && n < |ws| && forall i | 0 <= i < n :: Safe(ws[i], steps[i])
    requires ws[n].floor <= s <= |ws[n].hist|
    ensures var w := ws[n];
            View(VersionEntries(w.db.current) + RecordEntries(Flatten(LogsFrom(w.db.disk.logs, w.db.logNumber))), k, s)
            == Lookup(MapAt(w.hist, s), k)
  {
    RunIsDurable(ws, steps, n);
    RunIsFaithful(ws, steps, n);
    HistoryIsMap(ws[n].hist, k, s);
  }

  /** No run writes a MANIFEST in which a file returns: one Builder over it always gives the current version. */
  lemma RunReplaysExactly(ws: seq<World>, steps: seq<Step>, n: nat, level: nat)
    requires Run(ws, steps) && n < |ws| && level < NUM_LEVELS
    ensures var w := ws[n];
            && NoneReturns(w.db.disk.manifest, level)
            && Saved({}, Fold(w.db.disk.manifest, level)) == FileSet(w.db.current[level])
  {
    RunKeeps(ws, steps, n);
    var m := ws[n].db.disk.manifest;
    assert AllAdded(m, level) <= EverAdded(m);
    ReplayIsInstall(m, level);
    ReplayExactly(m, level);
  }

  ghost predicate Reachable(w: World) {
    exists ws, steps :: Run(ws, steps) && ws[|steps|] == w
  }

  lemma NewIsReachable()
    ensures Reachable(NewWorld())
  {
    assert Run([NewWorld()], []);
  }

  lemma ReachableOn(w: World, step: Step, w': World)
    requires Reachable(w) && Next(w, step, w')
    ensures Reachable(w')
  {
    var ws, steps :| Run(ws, steps) && ws[|steps|] == w;
    var ws', steps' := ws + [w'], steps + [step];
    forall i | 0 <= i < |steps'| ensures Next(ws'[i], steps'[i], ws'[i + 1]) {
      if i < |steps| {
        var _, _, _ := RunStep(ws, steps, i);
      }
    }
    assert Run(ws', steps');
  }

  lemma ReachableKeeps(w: World)
    requires Reachable(w)
    ensures Inv(w)
  {
    var ws, steps :| Run(ws, steps) && ws[|steps|] == w;
    RunKeeps(ws, steps, |steps|);
  }

  // ---- Compaction, exactly ----

  /** A compaction of a database that satisfies the invariant keeps every read at or after the oldest snapshot
      exactly when it is safe. */
  lemma CompactionExact(w: World, step: Step, w': World)
    requires Inv(w) && step.Compact? && Next(w, step, w')
    ensures SameReads(DbEntries(w.db), DbEntries(w'.db), SmallestSnapshot(w.db)) <==> Safe(w, step)
  {
    EngineSteps.CompactChanges(w, step.level, step.in0, step.in1, step.lo, step.hi, step.outs, step.v', w');
    EngineSteps.EntriesFromHistory(w);
    CompactionPreservesReadsIff(Untouched(w.db, step.level, step.in0, step.in1), InputEntries(step.in0, step.in1),
                                SmallestSnapshot(w.db), BaseKeys(w.db.current, step.level));
  }

  lemma InputsAreOld(w: World, level: nat, in0: Level, in1: Level, lo: UserKey, hi: UserKey, e: Entry)
    requires Contents(w) && Selection(w.db.current, level, in0, in1, lo, hi) && e in InputEntries(in0, in1)
    ensures e.key.sequence <= w.flushed && e in VersionEntries(w.db.current)
    ensures e in LevelEntries(w.db.current[level]) || e in LevelEntries(w.db.current[level + 1])
  {
    Selected(w.db.current, level, in0, in1, lo, hi);
    assert e in LevelEntries(w.db.current[level]) || e in LevelEntries(w.db.current[level + 1]);
    LevelInVersion(w.db.current, level);
    LevelInVersion(w.db.current, level + 1);
    RangeEntry(w.hist, 0, w.flushed, e);
  }

  /** By age, by the choice of inputs and by the base-level test, an older entry outside can only be in `level + 1`. */
  lemma OlderInLevel(v: Version, level: nat, in0: Level, in1: Level, lo: UserKey, hi: UserKey, e: Entry, x: Entry)
    requires Shape(v) && Aged(v) && Selection(v, level, in0, in1, lo, hi)
    requires e in InputEntries(in0, in1) && e.key.user in BaseKeys(v, level)
    requires x in RestEntries(v, level, in0, in1) && x.key.user == e.key.user && x.key.sequence < e.key.sequence
    ensures exists g :: g in v[level + 1] && g !in in1 && x in g.entries
  {
    Selected(v, level, in0, in1, lo, hi);
    assert LevelEntries(in0) <= LevelEntries(v[level]) && LevelEntries(in1) <= LevelEntries(v[level + 1]);
    if x in LevelEntries(Minus(v[level + 1], in1)) {
      var g :| g in Minus(v[level + 1], in1) && x in g.entries;
      MinusMember(v[level + 1], in1, g);
    } else if x in LevelEntries(Minus(v[level], in0)) {
      MinusSet(v[level], in0);
      assert false;
    } else {
      var i: nat :| i < NUM_LEVELS && i != level && i != level + 1 && x in LevelEntries(v[i]);
      OtherLevels(v, level, i, e, x);
      assert false;
    }
  }

  /** Levels above hold newer entries; levels below hold none for a base-level key. */
  lemma OtherLevels(v: Version, level: nat, i: nat, e: Entry, x: Entry)
    requires Shape(v) && Aged(v) && level + 1 < NUM_LEVELS && i < NUM_LEVELS && i != level && i != level + 1
    requires e in LevelEntries(v[level]) || e in LevelEntries(v[level + 1])
    requires e.key.user in BaseKeys(v, level) && x in LevelEntries(v[i]) && x.key.user == e.key.user
    ensures i < level && x.key.sequence > e.key.sequence
  {
    if i < level {
      assert Above(LevelEntries(v[i]), LevelEntries(v[level])) && Above(LevelEntries(v[i]), LevelEntries(v[level + 1]));
    } else {
      var g :| g in v[i] && x in g.entries;
      EntryInRange(g, x);
      assert Spans(g, x.key.user);
    }
  }

  lemma BoundaryKey(l: Level, in0: Level, in1: Level, lo: UserKey, hi: UserKey, e: Entry, x: Entry, g: File)
    requires FilesOk(l) && PairwiseApart(FileSet(l)) && FilesOk(in0)
    requires forall f | f in in0 :: lo <= f.smallest.user && f.largest.user <= hi
    requires forall f | f in in1 :: f in l && Overlaps(f, Some(lo), Some(hi))
    requires e in InputEntries(in0, in1) && g in l && g !in in1 && !Overlaps(g, Some(lo), Some(hi)) && x in g.entries
    requires x.key.user == e.key.user && x.key.sequence < e.key.sequence
    ensures g.smallest.user == e.key.user && exists f :: f in in1 && e in f.entries && f.largest.user == g.smallest.user
  {
    LeftOutApart(l, in0, in1, lo, hi, g, e);
    EntryInRange(g, x);
    assert hi < g.smallest.user;
    assert e in LevelEntries(in1) by {
      if e in LevelEntries(in0) {
        var f :| f in in0 && e in f.entries;
        EntryInRange(f, e);
      }
    }
    var f :| f in in1 && e in f.entries;
    EntryInRange(f, e);
    FileRange(g);
    assert f in FileSet(l) && g in FileSet(l) && Apart(f, g);
  }

  lemma UntouchedInDb(w: World, level: nat, in0: Level, in1: Level, lo: UserKey, hi: UserKey, e: Entry, x: Entry)
    requires Contents(w) && Selection(w.db.current, level, in0, in1, lo, hi)
    requires e in InputEntries(in0, in1) && x in Untouched(w.db, level, in0, in1) && e.key.kind != x.key.kind
    ensures x.key.sequence != e.key.sequence
  {
    InputsAreOld(w, level, in0, in1, lo, hi, e);
    EngineSteps.EntriesFromHistory(w);
    assert e in DbEntries(w.db);
    RestInVersion(w.db.current, level, in0, in1);
    assert x in DbEntries(w.db);
  }

  lemma RestInVersion(v: Version, level: nat, in0: Level, in1: Level)
    requires level + 1 < NUM_LEVELS
    ensures RestEntries(v, level, in0, in1) <= VersionEntries(v)
  {
    MinusSet(v[level], in0);
    MinusSet(v[level + 1], in1);
    LevelInVersion(v, level);
    LevelInVersion(v, level + 1);
  }
}
