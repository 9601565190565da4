/** How long things live: tables and logs on disk, the versions iterators read, and snapshots
    (db/db_impl.cc:223-278, 1062-1087, 1166-1174; db/version_set.cc:1151-1166). */
module Lifetimes {
  import opened DbFormat
  import opened Visibility
  import opened Files
  import opened LevelSteps
  import opened CompactionLoop
  import opened Manifest
  import opened History
  import opened Engine
  import opened EngineBasics
  import opened EngineTheorems
  import opened Inputs
  import EngineSteps

  // ---- Obsolete files ----

  /** A file of the version has the number. */
  ghost predicate Names(v: Version, n: nat) {
    exists i: nat, f :: i < NUM_LEVELS && f in v[i] && f.number == n
  }

  /** Someone may still read the table, or is writing it. */
  ghost predicate Needed(db: Db, n: nat) {
    Names(db.current, n) || (exists j :: 0 <= j < |db.pinned| && Names(db.pinned[j], n)) || n in db.pending
  }

  lemma NamesNumber(v: Version, n: nat)
    ensures Names(v, n) <==> n in Numbers(VersionFiles(v))
  {
    if n in Numbers(VersionFiles(v)) {
      var f :| f in VersionFiles(v) && f.number == n;
    }
    if Names(v, n) {
      var i: nat, f :| i < NUM_LEVELS && f in v[i] && f.number == n;
      assert f in VersionFiles(v);
    }
  }

  lemma {:induction false} LogsKept(logs: seq<Log>, n: nat, log: Log)
    ensures log in LogsFrom(logs, n) <==> log in logs && log.number >= n
    decreases |logs|
  {
    if logs != [] {
      LogsKept(logs[1..], n, log);
    }
  }

  /** Deleting obsolete files removes every table that no one needs and every log below the log number, and nothing
      else; nothing but the disk changes. */
  lemma DeletesExactly(w: World, w': World)
    requires Next(w, DeleteObsoleteFiles, w')
    ensures forall n: nat :: n in w'.db.disk.tables <==> n in w.db.disk.tables && Needed(w.db, n)
    ensures forall log :: log in w'.db.disk.logs <==> log in w.db.disk.logs && log.number >= w.db.logNumber
    ensures w'.db.disk.manifest == w.db.disk.manifest && w' == w.(db := w.db.(disk := w'.db.disk))
  {
    var db := w.db;
    forall n: nat ensures n in w'.db.disk.tables <==> n in db.disk.tables && Needed(db, n) {
      NamesNumber(db.current, n);
      forall j | 0 <= j < |db.pinned| ensures Names(db.pinned[j], n) <==> n in Numbers(VersionFiles(db.pinned[j])) {
        NamesNumber(db.pinned[j], n);
      }
    }
    forall log ensures log in w'.db.disk.logs <==> log in db.disk.logs && log.number >= db.logNumber {
      LogsKept(db.disk.logs, db.logNumber, log);
    }
  }

  /** No needed table is ever missing. */
  lemma NeededIsThere(w: World, n: nat)
    requires Inv(w) && Needed(w.db, n)
    ensures n in w.db.disk.tables
  {
    NamesNumber(w.db.current, n);
    if j :| 0 <= j < |w.db.pinned| && Names(w.db.pinned[j], n) {
      NamesNumber(w.db.pinned[j], n);
    }
  }

  /** In every run, such a step leaves exactly the needed tables, and exactly the logs recovery would read. */
  lemma RunDeletesExactly(ws: seq<World>, steps: seq<Step>, i: nat)
    requires Run(ws, steps) && i < |steps| && steps[i].DeleteObsoleteFiles?
    ensures forall n: nat :: n in ws[i + 1].db.disk.tables <==> Needed(ws[i].db, n)
    ensures forall log :: log in ws[i + 1].db.disk.logs <==>
                          log in ws[i].db.disk.logs && log.number >= ws[i].db.logNumber
  {
    RunKeeps(ws, steps, i);
    var w, step, w' := RunStep(ws, steps, i);
    DeletesExactly(w, w');
    forall n: nat | Needed(w.db, n) ensures n in w.db.disk.tables {
      NeededIsThere(w, n);
    }
  }

  /** Once a compaction is installed and no iterator holds an older version, the tables of its inputs go: only those the
      new version names are left. */
  lemma CompactionReclaims(w: World, step: Step, w1: World, w2: World)
    requires Inv(w) && step.Compact? && Next(w, step, w1) && Next(w1, DeleteObsoleteFiles, w2)
    requires w.db.pinned == [] && w.db.pending == Numbers(FileSet(step.outs))
    ensures forall n: nat :: n in w2.db.disk.tables <==> Names(w2.db.current, n)
  {
    StepKeeps(w, step, w1);
    CompactLeaves(w, step, w1);
    NoneHeld(w1, w2);
  }

  lemma CompactLeaves(w: World, step: Step, w1: World)
    requires step.Compact? && Next(w, step, w1)
    ensures w1.db.pinned == w.db.pinned && w1.db.pending == w.db.pending - Numbers(FileSet(step.outs))
  {
  }

  lemma NoneHeld(w1: World, w2: World)
    requires Inv(w1) && Next(w1, DeleteObsoleteFiles, w2) && w1.db.pinned == [] && w1.db.pending == {}
    ensures forall n: nat :: n in w2.db.disk.tables <==> Names(w2.db.current, n)
  {
    DeletesExactly(w1, w2);
    forall n: nat | Names(w1.db.current, n) ensures n in w1.db.disk.tables {
      NeededIsThere(w1, n);
    }
  }

  // ---- What readers hold ----

  /** Where something held at place `p` of a list is after the place `i` of the list is given up. */
  function Shift(p: nat, i: nat): Option<nat> {
    if i < p then Some(p - 1) else if i == p then None else Some(p)
  }

  function PinAfter(p: nat, step: Step): Option<nat> {
    if step.CrashAndRecover? then None
    else if step.UnpinVersion? then Shift(p, step.index)
    else Some(p)
  }

  function SnapshotAfter(p: nat, step: Step): Option<nat> {
    if step.CrashAndRecover? then None
    else if step.ReleaseSnapshot? then Shift(p, step.index)
    else Some(p)
  }

  /** Where what was put at place `p` by step `i` is in state `j`, if it is still held. */
  function PinPlace(steps: seq<Step>, p: nat, i: nat, j: nat): Option<nat>
    requires i < j <= |steps|
    decreases j
  {
    if j == i + 1 then Some(p)
    else
      var q :- PinPlace(steps, p, i, j - 1);
      PinAfter(q, steps[j - 1])
  }

  function SnapshotPlace(steps: seq<Step>, p: nat, i: nat, j: nat): Option<nat>
    requires i < j <= |steps|
    decreases j
  {
    if j == i + 1 then Some(p)
    else
      var q :- SnapshotPlace(steps, p, i, j - 1);
      SnapshotAfter(q, steps[j - 1])
  }

  lemma RemovedAt<T>(s: seq<T>, p: nat, i: nat)
    requires p < |s| && i < |s| && i != p
    ensures var q := Shift(p, i).value; q < |RemoveAt(s, i)| && RemoveAt(s, i)[q] == s[p]
  {
  }

  lemma HoldStep(w: World, step: Step, w': World)
    requires Next(w, step, w')
    ensures step.PinVersion? ==> w'.db.pinned == w.db.pinned + [w.db.current]
    ensures step.GetSnapshot? ==> w'.db.snapshots == w.db.snapshots + [w.db.lastSequence]
    ensures w.hist <= w'.hist
  {
  }

  lemma PinStep(w: World, step: Step, w': World, p: nat)
    requires Next(w, step, w') && p < |w.db.pinned| && PinAfter(p, step).Some?
    ensures var q := PinAfter(p, step).value; q < |w'.db.pinned| && w'.db.pinned[q] == w.db.pinned[p]
  {
    if step.UnpinVersion? {
      RemovedAt(w.db.pinned, p, step.index);
    }
  }

  lemma SnapshotStep(w: World, step: Step, w': World, p: nat)
    requires Next(w, step, w') && p < |w.db.snapshots| && SnapshotAfter(p, step).Some?
    ensures var q := SnapshotAfter(p, step).value;
            q < |w'.db.snapshots| && w'.db.snapshots[q] == w.db.snapshots[p]
  {
    if step.ReleaseSnapshot? {
      RemovedAt(w.db.snapshots, p, step.index);
    }
  }

  /** What step `m` does to what is held. */
  ghost predicate Holds(ws: seq<World>, steps: seq<Step>, m: nat)
    requires m < |steps| && |ws| == |steps| + 1
  {
    var db, step, db' := ws[m].db, steps[m], ws[m + 1].db;
    && ws[m].hist <= ws[m + 1].hist
    && (step.PinVersion? ==> db'.pinned == db.pinned + [db.current])
    && (step.GetSnapshot? ==> db'.snapshots == db.snapshots + [db.lastSequence])
    && (forall p: nat | p < |db.pinned| && PinAfter(p, step).Some? ::
          PinAfter(p, step).value < |db'.pinned| && db'.pinned[PinAfter(p, step).value] == db.pinned[p])
    && (forall p: nat | p < |db.snapshots| && SnapshotAfter(p, step).Some? ::
          SnapshotAfter(p, step).value < |db'.snapshots|
          && db'.snapshots[SnapshotAfter(p, step).value] == db.snapshots[p])
  }

  lemma RunHolds(ws: seq<World>, steps: seq<Step>)
    requires Run(ws, steps)
    ensures forall m: nat | m < |steps| :: Holds(ws, steps, m)
  {
    forall m: nat | m < |steps| ensures Holds(ws, steps, m) {
      var w, step, w' := RunStep(ws, steps, m);
      HoldStep(w, step, w');
      forall p: nat | p < |w.db.pinned| && PinAfter(p, step).Some?
        ensures PinAfter(p, step).value < |w'.db.pinned| && w'.db.pinned[PinAfter(p, step).value] == w.db.pinned[p]
      {
        PinStep(w, step, w', p);
      }
      forall p: nat | p < |w.db.snapshots| && SnapshotAfter(p, step).Some?
        ensures SnapshotAfter(p, step).value < |w'.db.snapshots|
                && w'.db.snapshots[SnapshotAfter(p, step).value] == w.db.snapshots[p]
      {
        SnapshotStep(w, step, w', p);
      }
    }
  }

  lemma {:induction false} PinHeld(ws: seq<World>, steps: seq<Step>, i: nat, j: nat)
    requires |ws| == |steps| + 1 && i < j <= |steps| && steps[i].PinVersion?
    requires forall m: nat | m < |steps| :: Holds(ws, steps, m)
    requires PinPlace(steps, |ws[i].db.pinned|, i, j).Some?
    ensures var q := PinPlace(steps, |ws[i].db.pinned|, i, j).value;
            q < |ws[j].db.pinned| && ws[j].db.pinned[q] == ws[i].db.current
    decreases j
  {
    assert Holds(ws, steps, j - 1);
    if j > i + 1 {
      PinHeld(ws, steps, i, j - 1);
    }
  }

  lemma {:induction false} SnapshotHeld(ws: seq<World>, steps: seq<Step>, i: nat, j: nat)
    requires |ws| == |steps| + 1 && i < j <= |steps| && steps[i].GetSnapshot?
    requires forall m: nat | m < |steps| :: Holds(ws, steps, m)
    requires SnapshotPlace(steps, |ws[i].db.snapshots|, i, j).Some?
    ensures var q := SnapshotPlace(steps, |ws[i].db.snapshots|, i, j).value;
            q < |ws[j].db.snapshots| && ws[j].db.snapshots[q] == ws[i].db.lastSequence
    decreases j
  {
    assert Holds(ws, steps, j - 1);
    if j > i + 1 {
      SnapshotHeld(ws, steps, i, j - 1);
    }
  }

  lemma {:induction false} HistoryGrows(ws: seq<World>, steps: seq<Step>, i: nat, j: nat)
    requires |ws| == |steps| + 1 && i <= j < |ws| && forall m: nat | m < |steps| :: Holds(ws, steps, m)
    ensures ws[i].hist <= ws[j].hist
    decreases j
  {
    if i < j {
      HistoryGrows(ws, steps, i, j - 1);
      assert Holds(ws, steps, j - 1);
    }
  }

  /** A version an iterator holds: until it is let go, none of its tables is deleted, whatever happens meanwhile. */
  lemma PinnedStays(ws: seq<World>, steps: seq<Step>, i: nat, j: nat)
    requires Run(ws, steps) && i < j <= |steps| && steps[i].PinVersion?
    requires PinPlace(steps, |ws[i].db.pinned|, i, j).Some?
    ensures forall n: nat | Names(ws[i].db.current, n) :: n in ws[j].db.disk.tables
  {
    RunHolds(ws, steps);
    PinHeld(ws, steps, i, j);
    RunKeeps(ws, steps, j);
    forall n: nat | Names(ws[i].db.current, n) ensures n in ws[j].db.disk.tables {
      NeededIsThere(ws[j], n);
    }
  }

  /** A snapshot reads, until it is released, as the plain map was when it was taken, in every run of safe steps. */
  lemma SnapshotStays(ws: seq<World>, steps: seq<Step>, i: nat, j: nat, k: UserKey)
    requires Run(ws, steps) && i < j <= |steps| && steps[i].GetSnapshot?
    requires SnapshotPlace(steps, |ws[i].db.snapshots|, i, j).Some?
    requires forall m | 0 <= m < j :: Safe(ws[m], steps[m])
    ensures View(DbEntries(ws[j].db), k, ws[i].db.lastSequence) == Lookup(MapAt(ws[i].hist, |ws[i].hist|), k)
  {
    RunKeeps(ws, steps, i);
    var s := ws[i].db.lastSequence;
    RunHolds(ws, steps);
    SnapshotHeld(ws, steps, i, j);
    var q := SnapshotPlace(steps, |ws[i].db.snapshots|, i, j).value;
    assert ws[j].db.snapshots[q] == s;
    RunRefinesMap(ws, steps, j, k, s);
    HistoryGrows(ws, steps, i, j);
    MapOfFront(ws[i].hist, ws[j].hist, s);
  }

  lemma {:induction false} MapOfFront(hist: seq<Op>, hist': seq<Op>, s: nat)
    requires s <= |hist| && hist <= hist'
    ensures MapAt(hist', s) == MapAt(hist, s)
    decreases s
  {
    if s > 0 {
      MapOfFront(hist, hist', s - 1);
    }
  }

  // ---- What a compaction drops ----

  /** The oldest sequence number anyone can still read at. */
  ghost predicate IsOldest(db: Db, s: nat) {
    && (s in db.snapshots || (db.snapshots == [] && s == db.lastSequence))
    && forall t | t in db.snapshots :: s <= t
  }

  lemma SmallestIsOldest(w: World)
    requires Inv(w)
    ensures IsOldest(w.db, SmallestSnapshot(w.db))
    ensures forall s: nat | IsOldest(w.db, s) :: s == SmallestSnapshot(w.db)
  {
  }

  /** A compaction writes exactly those of its input entries that someone can still read among them, but for deletions
      older than every snapshot of keys that no file of a deeper level spans. */
  lemma CompactionKeepsExactly(w: World, step: Step, w': World, oldest: nat, e: Entry)
    requires Inv(w) && step.Compact? && Next(w, step, w') && IsOldest(w.db, oldest)
    ensures step.level + 1 < NUM_LEVELS
    ensures var inputs := InputEntries(step.in0, step.in1);
            e in LevelEntries(step.outs) <==>
            && e in inputs && (exists s: nat :: oldest <= s && Newest(inputs, e.key.user, s, e))
            && !(e.key.kind.Deletion? && e.key.sequence <= oldest
                 && forall l: nat, f | step.level + 2 <= l < NUM_LEVELS && f in w.db.current[l] ::
                      !(f.smallest.user <= e.key.user <= f.largest.user))
  {
    SmallestIsOldest(w);
    InputsInDb(w, step, w');
    KeptScan(w.db.current, step.level, InputEntries(step.in0, step.in1), oldest, e);
  }

  lemma KeptScan(v: Version, level: nat, inputs: set<Entry>, oldest: nat, e: Entry)
    requires OneEntryPerSeq(inputs)
    ensures e in Kept(inputs, oldest, BaseKeys(v, level)) <==>
            && e in inputs && (exists s: nat :: oldest <= s && Newest(inputs, e.key.user, s, e))
            && !(e.key.kind.Deletion? && e.key.sequence <= oldest
                 && forall l: nat, f | level + 2 <= l < NUM_LEVELS && f in v[l] ::
                      !(f.smallest.user <= e.key.user <= f.largest.user))
  {
    KeptExactly(inputs, oldest, BaseKeys(v, level), e);
    ScanIs(v, level, e.key.user);
  }

  lemma ScanIs(v: Version, level: nat, k: UserKey)
    ensures IsBase(v, level, k) <==> forall l: nat, f | level + 2 <= l < NUM_LEVELS && f in v[l] ::
                                       !(f.smallest.user <= k <= f.largest.user)
  {
    if IsBase(v, level, k) {
      forall l: nat, f | level + 2 <= l < NUM_LEVELS && f in v[l] ensures !(f.smallest.user <= k <= f.largest.user) {
        assert !Spans(f, k);
      }
    }
  }

  lemma InputsInDb(w: World, step: Step, w': World)
    requires Inv(w) && step.Compact? && Next(w, step, w')
    ensures step.level + 1 < NUM_LEVELS && OneEntryPerSeq(InputEntries(step.in0, step.in1))
    ensures LevelEntries(step.outs) == Kept(InputEntries(step.in0, step.in1), SmallestSnapshot(w.db),
                                            BaseKeys(w.db.current, step.level))
  {
    EngineSteps.EntriesFromHistory(w);
    forall e | e in InputEntries(step.in0, step.in1) ensures e in DbEntries(w.db) {
      InputsAreOld(w, step.level, step.in0, step.in1, step.lo, step.hi, e);
    }
  }
}
