/** DBImpl: the operations, in the form the code has them, proved to be steps of the engine. */
module DbImpl {
  import opened DbFormat
  import opened Visibility
  import opened Files
  import opened Inputs
  import opened LevelSteps
  import opened CompactionLoop
  import opened Manifest
  import opened History
  import opened Engine
  import opened EngineBasics
  import EngineSteps
  import EngineRecovery
  import EngineTheorems
  import FileSearch
  import Iterators
  import Merging
  import DbIter

  // ---- Installing an edit with a Builder ----

  /** Added files have numbers the level does not use. */
  ghost predicate Fresh(v: Version, edit: VersionEdit) {
    forall i: nat, f, g | i < NUM_LEVELS && f in v[i] && g in Added(edit, i) :: f.number != g.number
  }

  method InstallEdit(v: Version, edit: VersionEdit) returns (v': Version)
    requires SortedLevels(v) && EditOk(edit) && Fresh(v, edit)
    requires forall i: nat | i < NUM_LEVELS :: NumbersName(Added(edit, i))
    ensures Installed(v, edit, v')
  {
    var builder := new Builder(v);
    forall i: nat | i < NUM_LEVELS ensures FileSet(builder.added[i]) + Added(edit, i) == Added(edit, i) {
      assert builder.State(i) == LevelState({}, {});
    }
    builder.Apply(edit);
    forall i: nat | i < NUM_LEVELS ensures FileSet(builder.added[i]) == Added(edit, i) {
      assert builder.State(i) == ApplyLevel(LevelState({}, {}), edit, i);
    }
    forall i: nat | i < NUM_LEVELS ensures Mergeable(v[i], builder.added[i]) {
      forall f, g | f in v[i] && g in builder.added[i] ensures FileBefore(f, g) || FileBefore(g, f) {
        assert g in FileSet(builder.added[i]);
      }
    }
    v' := builder.SaveTo();
    forall i: nat | i < NUM_LEVELS ensures FileSet(v'[i]) == AfterEdit(FileSet(v[i]), edit, i) {
      FreshSaved(FileSet(v[i]), edit, i);
    }
  }

  lemma FreshSaved(s: set<File>, edit: VersionEdit, i: nat)
    requires forall f, g | f in s && g in Added(edit, i) :: f.number != g.number
    ensures Saved(s, ApplyLevel(LevelState({}, {}), edit, i)) == AfterEdit(s, edit, i)
  {
    forall f | f in s ensures f.number !in Numbers(Added(edit, i)) {
    }
  }

  lemma OneAdded(edit: VersionEdit, level: nat, f: File, i: nat)
    requires edit.added == [(level, f)]
    ensures Added(edit, i) == if i == level then {f} else {}
  {
    assert (level, f) in edit.added;
  }

  // ---- Running a compaction ----

  lemma InputsInVersion(v: Version, level: nat, in0: Level, in1: Level, lo: UserKey, hi: UserKey)
    requires Shape(v) && Selection(v, level, in0, in1, lo, hi)
    ensures LevelEntries(in0 + in1) == InputEntries(in0, in1) && LevelEntries(in0 + in1) <= VersionEntries(v)
    ensures forall e | e in InputEntries(in0, in1) :: e.key.sequence <= MAX_SEQUENCE
  {
    Selected(v, level, in0, in1, lo, hi);
    UnionEntries(in0 + in1, in0, in1);
    LevelInVersion(v, level);
    LevelInVersion(v, level + 1);
    assert LevelEntries(in0) <= LevelEntries(v[level]) && LevelEntries(in1) <= LevelEntries(v[level + 1]);
    forall e | e in InputEntries(in0, in1) ensures e.key.sequence <= MAX_SEQUENCE {
      var i: nat := if e in LevelEntries(in0) then level else level + 1;
      var f :| f in v[i] && e in f.entries;
      assert FileOk(f);
    }
  }

  /** Merge the inputs, run the compaction loop, and collect the output files. */
  method RunCompaction(v: Version, level: nat, in0: Level, in1: Level, ghost lo: UserKey, ghost hi: UserKey,
                       oldest: nat, firstNumber: nat,
                       stop: nat -> bool, full: nat -> bool, fileSize: seq<Entry> -> nat)
    returns (outs: Level)
    requires Shape(v) && Aged(v) && Selection(v, level, in0, in1, lo, hi) && InOrder(level == 0, in0)
    requires OneEntryPerSeq(VersionEntries(v)) && oldest < MAX_SEQUENCE
    ensures FilesOk(outs) && Disjoint(outs) && Made(outs, firstNumber)
    ensures LevelEntries(outs) == Kept(InputEntries(in0, in1), oldest, BaseKeys(v, level))
  {
    InputsInVersion(v, level, in0, in1, lo, hi);
    var list := Iterators.MakeInputIterator(v, level, in0, in1, lo, hi);
    var input := Iterators.Drain(list, InputEntries(in0, in1));
    assert forall e | e in input :: e in ToSet(input);
    var c := new Compaction(v, level);
    ghost var kept;
    outs, kept := DoCompactionWork(c, input, oldest, firstNumber, stop, full, fileSize);
    KeptSeqIsKept(input, oldest, BaseKeys(v, level));
    ConcatIsLevel(outs);
  }

  /** The `n` numbers from `a` on. */
  function NumbersFrom(a: nat, n: nat): set<nat> {
    if n == 0 then {} else NumbersFrom(a, n - 1) + {a + n - 1}
  }

  lemma {:induction false} NumbersFromMember(a: nat, n: nat, i: nat)
    ensures i in NumbersFrom(a, n) <==> a <= i < a + n
  {
    if n > 0 {
      NumbersFromMember(a, n - 1, i);
    }
  }

  /** `n` ReserveOutput steps at once. */
  function ReserveOutputs(db: Db, n: nat): Db {
    var taken := NumbersFrom(db.nextFile, n);
    db.(nextFile := db.nextFile + n, pending := db.pending + taken, disk := db.disk.(tables := db.disk.tables + taken))
  }

  lemma {:induction false} ReserveOutputsKeeps(w: World, n: nat)
    requires Inv(w)
    ensures Inv(w.(db := ReserveOutputs(w.db, n)))
    decreases n, 1
  {
    if n == 0 {
      ReserveNothing(w.db);
    } else {
      ReserveOutputMore(w, n);
    }
  }

  lemma {:induction false} ReserveOutputMore(w: World, n: nat)
    requires Inv(w) && n > 0
    ensures Inv(w.(db := ReserveOutputs(w.db, n)))
    decreases n, 0
  {
    ReserveOutputsKeeps(w, n - 1);
    ReserveOneMore(w.db, n);
    ReserveStep(w, ReserveOutputs(w.db, n - 1), ReserveOutputs(w.db, n));
  }

  lemma ReserveStep(w: World, db: Db, db': Db)
    requires Inv(w.(db := db)) && db' == AfterReserve(db)
    ensures Inv(w.(db := db'))
  {
    EngineTheorems.ReserveKeeps(w.(db := db));
  }

  lemma ReserveNothing(db: Db)
    ensures ReserveOutputs(db, 0) == db
  {
    assert db.disk.(tables := db.disk.tables + {}) == db.disk;
  }

  lemma ReserveOneMore(db: Db, n: nat)
    requires n > 0
    ensures ReserveOutputs(db, n) == AfterReserve(ReserveOutputs(db, n - 1))
  {
  }

  lemma MadeNumbers(outs: Level, firstNumber: nat)
    requires Made(outs, firstNumber)
    ensures NumbersName(FileSet(outs)) && forall f | f in FileSet(outs) ::
            firstNumber <= f.number < firstNumber + |outs|
  {
    forall f | f in FileSet(outs) ensures exists i :: 0 <= i < |outs| && outs[i] == f && f.number == firstNumber + i {
      var i :| 0 <= i < |outs| && outs[i] == f;
      assert outs[i] == MakeFile(firstNumber + i, f.size, f.entries);
    }
  }

  /** The outputs of a compaction are installable and are what a Compact step expects. */
  lemma OutputsReady(db: Db, level: nat, in0: Level, in1: Level, outs: Level)
    requires ManifestOk(db) && level + 1 < NUM_LEVELS
    requires FilesOk(outs) && Disjoint(outs) && Made(outs, db.nextFile)
    requires LevelEntries(outs) == Kept(InputEntries(in0, in1), SmallestSnapshot(db), BaseKeys(db.current, level))
    ensures CompactionOutputs(ReserveOutputs(db, |outs|), level, in0, in1, outs)
  {
    MadeNumbers(outs, db.nextFile);
    forall n | n in Numbers(FileSet(outs)) ensures n in NumbersFrom(db.nextFile, |outs|) {
      NumbersFromMember(db.nextFile, |outs|, n);
    }
  }

  lemma OutputsInstallable(db: Db, level: nat, in0: Level, in1: Level, outs: Level)
    requires ManifestOk(db) && level + 1 < NUM_LEVELS && Made(outs, db.nextFile)
    ensures var edit := CompactEdit(level, in0, in1, outs);
            EditOk(edit) && Fresh(db.current, edit) && forall i: nat | i < NUM_LEVELS :: NumbersName(Added(edit, i))
  {
    MadeNumbers(outs, db.nextFile);
    CurrentWasAdded(db);
    EngineSteps.CompactFiles(level, in0, in1, outs);
    forall i: nat ensures Added(CompactEdit(level, in0, in1, outs), i) == if i == level + 1 then FileSet(outs) else {} {
      EngineSteps.CompactEditIs(level, in0, in1, outs, i);
    }
    forall i: nat, g | i < NUM_LEVELS && g in db.current[i] ensures g.number < db.nextFile {
      assert g in VersionFiles(db.current);
    }
  }

  /** A file to be moved down is not yet one level down. */
  lemma NotBelowYet(upper: Level, lower: Level, f: File)
    requires FileOk(f) && f in upper && Above(LevelEntries(upper), LevelEntries(lower))
    ensures f !in lower
  {
    var first, _ := FileEnds(upper, f);
    if f in lower {
      InLevel(lower, f, first);
    }
  }

  lemma MoveInstallable(v: Version, level: nat, f: File)
    requires NumbersName(VersionFiles(v)) && level + 1 < NUM_LEVELS && f in v[level] && FileOk(f)
    requires Above(LevelEntries(v[level]), LevelEntries(v[level + 1]))
    ensures var edit := MoveEdit(level, f);
            EditOk(edit) && Fresh(v, edit) && forall i: nat | i < NUM_LEVELS :: NumbersName(Added(edit, i))
  {
    var edit := MoveEdit(level, f);
    forall i: nat ensures Added(edit, i) == if i == level + 1 then {f} else {} {
      OneAdded(edit, level + 1, f, i);
    }
    NotBelowYet(v[level], v[level + 1], f);
    forall g | g in v[level + 1] ensures g.number != f.number {
      assert g in VersionFiles(v) && f in VersionFiles(v);
    }
  }

  // ---- Reads ----

  /** Memtable, then immutable memtable, then tables: the first hit answers for the whole database. */
  lemma FirstHitAnswers(w: World)
    requires Contents(w)
    ensures Above(ToSet(w.db.mem), ToSet(ImmOf(w.db)) + VersionEntries(w.db.current))
    ensures Above(ToSet(ImmOf(w.db)), VersionEntries(w.db.current))
    ensures DbEntries(w.db) == ToSet(w.db.mem) + (ToSet(ImmOf(w.db)) + VersionEntries(w.db.current))
    ensures OneEntryPerSeq(DbEntries(w.db))
  {
    EngineSteps.EntriesFromHistory(w);
    EngineRecovery.LaterRangeAbove(w.hist, 0, w.switched, |w.hist|);
    EngineRecovery.LaterRangeAbove(w.hist, 0, w.flushed, w.switched);
    RangeSplit(w.hist, 0, w.flushed, w.switched);
  }

  /** The entries answer every lookup at `s` as the plain map does. */
  ghost predicate ReadsMap(S: set<Entry>, hist: seq<Op>, s: nat)
    requires s <= |hist|
  {
    forall k :: View(S, k, s) == Lookup(MapAt(hist, s), k)
  }

  lemma FaithfulReadsMap(w: World, s: nat)
    requires w.floor <= s <= |w.hist|
    ensures Faithful(w) ==> ReadsMap(DbEntries(w.db), w.hist, s)
  {
    if Faithful(w) {
      forall k ensures View(DbEntries(w.db), k, s) == Lookup(MapAt(w.hist, s), k) {
        HistoryIsMap(w.hist, k, s);
      }
    }
  }

  lemma OneEntryEach(w: World)
    requires Contents(w)
    ensures OneEntryPerSeq(DbEntries(w.db))
  {
    EngineSteps.EntriesFromHistory(w);
  }

  lemma OnlyFile(l: Level)
    requires |l| == 1
    ensures l == [l[0]]
  {
  }

  lemma OneEntryInLevel(w: World, level: nat)
    requires Contents(w) && level < NUM_LEVELS
    ensures OneEntryPerSeq(LevelEntries(w.db.current[level]))
  {
    EngineSteps.EntriesFromHistory(w);
    LevelInVersion(w.db.current, level);
  }

  /** A Move step. */
  /** The files a compaction takes from its level and from the next. */
  ghost function InputsOf(step: Step): (Level, Level)
    requires step.Move? || step.Compact?
  {
    if step.Move? then ([step.f], []) else (step.in0, step.in1)
  }

  ghost predicate MovesDown(w: World, step: Step, w': World) {
    && step.Move? && MoveEnabled(w.db, step.level, step.f, step.lo, step.hi, step.v')
    && w' == w.(db := LogAndApply(w.db, MoveEdit(step.level, step.f), step.v'))
  }

  /** ReserveOutput steps for the new files and a Compact step. */
  ghost predicate MergesDown(w: World, step: Step, w': World) {
    step.Compact? &&
    var db := ReserveOutputs(w.db, |step.outs|);
    && CompactEnabled(db, step.level, step.in0, step.in1, step.lo, step.hi, step.outs, step.v')
    && w' == w.(db := AfterCompact(db, step.level, step.in0, step.in1, step.outs, step.v'),
        floor := SmallestSnapshot(db))
  }

  /** A merge is a run of ReserveOutput steps and a Compact step: it keeps the invariant, and the reads if it is safe.
      */
  lemma MergesDownKeeps(w: World, step: Step, w': World)
    requires Inv(w) && MergesDown(w, step, w')
    ensures var w1 := w.(db := ReserveOutputs(w.db, |step.outs|));
            Inv(w1) && Next(w1, step, w') && Inv(w') && (Faithful(w) && Safe(w1, step) ==> Faithful(w'))
  {
    var w1 := w.(db := ReserveOutputs(w.db, |step.outs|));
    ReserveOutputsKeeps(w, |step.outs|);
    EngineTheorems.StepKeeps(w1, step, w');
    if Faithful(w) && Safe(w1, step) {
      assert DbEntries(w1.db) == DbEntries(w.db);
      EngineTheorems.SameEntriesSameReads(w, w1);
      EngineTheorems.StepIsFaithful(w1, step, w');
    }
  }

  /** A DBIter over merged runs. */
  method IteratorOver(list: seq<seq<Entry>>, ghost S: set<Entry>, s: nat) returns (it: DbIter.DBIter)
    requires Iterators.Runs(list, S) && OneEntryPerSeq(S)
    ensures fresh(it) && fresh(it.iter) && it.Valid() && !it.valid && it.sequence == s && it.Entries() == S
  {
    var iter := new Merging.MergingIterator(list);
    Iterators.UnionIs(iter.all, list, S);
    it := new DbIter.DBIter(iter, s);
  }

  class DBImpl {
    var mem: seq<Entry>
    var imm: Option<seq<Entry>>
    var current: Version
    var lastSequence: nat
    var nextFile: nat
    var logNumber: nat
    var logfileNumber: nat
    var snapshots: seq<nat>
    var pinned: seq<Version>
    var pending: set<nat>
    var disk: Disk

    // What the database stands for.
    ghost var hist: seq<Op>
    ghost var floor: nat
    ghost var flushed: nat
    ghost var switched: nat

    ghost function W(): World
      reads this
    {
      World(Db(mem, imm, current, lastSequence, nextFile, logNumber, logfileNumber, snapshots, pinned, pending, disk),
            hist, floor, flushed, switched)
    }

    /** A new database. */
    constructor ()
      ensures W() == NewWorld() && Inv(W()) && Faithful(W())
    {
      mem, imm, current, lastSequence := [], None, [[], [], [], [], [], [], []], 0;
      nextFile, logNumber, logfileNumber := 4, 3, 3;
      snapshots, pinned, pending := [], [], {};
      disk := Disk([Log(3, [])], {}, [EmptyEdit(), VersionEdit(Some(3), Some(4), Some(0), [], [])]);
      hist, floor, flushed, switched := [], 0, 0, 0;
      EngineTheorems.NewWorldOk();
    }

    /** DBImpl::Get: stopping at the first hit finds what all the entries together answer, and, as long as compactions
        have been safe, what the plain map held at that snapshot. */
    method Get(k: UserKey, snapshot: Option<nat>) returns (r: Option<Bytes>)
      requires Inv(W()) && (snapshot.Some? ==> snapshot.value in snapshots)
      ensures var s := if snapshot.Some? then snapshot.value else lastSequence;
              && s <= |hist| && r == View(DbEntries(W().db), k, s)
              && (Faithful(W()) ==> r == Lookup(MapAt(hist, s), k))
    {
      var s := if snapshot.Some? then snapshot.value else lastSequence;
      var hit := Search(k, s);
      r := if hit.Some? then Answer(hit.value) else None;
      HistoryIsMap(hist, k, s);
    }

    method Search(k: UserKey, s: nat) returns (hit: Option<Entry>)
      requires Contents(W()) && Shape(current) && Aged(current)
      ensures hit.Some? ==> View(DbEntries(W().db), k, s) == Answer(hit.value)
      ensures hit.None? ==> View(DbEntries(W().db), k, s) == None
    {
      ghost var M, I, V := ToSet(mem), ToSet(ImmOf(W().db)), VersionEntries(current);
      FirstHitAnswers(W());
      hit := FileSearch.SearchEntries(mem, k, s);
      if hit.Some? {
        HitInUpper(M, I + V, k, s, hit.value);
        ViewOfNewest(M + (I + V), k, s, hit.value);
        return;
      }
      assert OneEntryPerSeq(I + V);
      MissInUpper(M, I + V, k, s);
      if imm.Some? {
        hit := FileSearch.SearchEntries(imm.value, k, s);
        if hit.Some? {
          HitInUpper(I, V, k, s, hit.value);
          ViewOfNewest(I + V, k, s, hit.value);
          return;
        }
      }
      assert NoMatch(I, k, s);
      MissInUpper(I, V, k, s);
      hit := FileSearch.SearchVersion(current, k, s);
      if hit.Some? {
        ViewOfNewest(V, k, s, hit.value);
      }
    }

    /** DBImpl::NewIterator: an iterator over all the entries at the snapshot, and so, as long as compactions have been
        safe, over the plain map as it was then. */
    method NewIterator(snapshot: Option<nat>) returns (it: DbIter.DBIter)
      requires Inv(W()) && (snapshot.Some? ==> snapshot.value in snapshots)
      ensures fresh(it) && fresh(it.iter) && it.Valid() && !it.valid
      ensures it.sequence == (if snapshot.Some? then snapshot.value else lastSequence) <= |hist|
      ensures it.Entries() == DbEntries(W().db)
      ensures Faithful(W()) ==> ReadsMap(it.Entries(), hist, it.sequence)
    {
      var s := if snapshot.Some? then snapshot.value else lastSequence;
      var list := InternalRuns();
      OneEntryEach(W());
      it := IteratorOver(list, DbEntries(W().db), s);
      FaithfulReadsMap(W(), s);
    }

    /** DBImpl::NewInternalIterator: memtable, immutable memtable, then the tables. */
    method InternalRuns() returns (list: seq<seq<Entry>>)
      requires Contents(W()) && Shape(current) && Aged(current)
      ensures Iterators.Runs(list, DbEntries(W().db))
    {
      ghost var M, I, V := ToSet(mem), ToSet(ImmOf(W().db)), VersionEntries(current);
      FirstHitAnswers(W());
      Iterators.AboveDiffers(M, I + V);
      Iterators.AboveDiffers(I, V);
      list := [];
      Iterators.AddRun(list, {}, mem);
      list := list + [mem];
      if imm.Some? {
        Iterators.AddRun(list, M, imm.value);
        list := list + [imm.value];
      }
      list := Iterators.AddIterators(list, current, M + I);
      assert M + I + V == M + (I + V);
    }

    /** The logging and memtable part of DBImpl::Write: a Write step. */
    method Write(ops: seq<Op>)
      requires disk.logs != []
      modifies this
      ensures W() == old(W()).(db := AfterWrite(old(W().db), ops), hist := old(hist) + ops)
    {
      var first := lastSequence + 1;
      var n := |disk.logs| - 1;
      var log := disk.logs[n];
      disk := disk.(logs := disk.logs[n := log.(records := log.records + [Record(first, ops)])]);
      mem := InsertInto(mem, first, ops);
      lastSequence := lastSequence + |ops|;
      hist := hist + ops;
    }

    /** MakeRoomForWrite, when the memtable is full and none is being flushed: a SwitchMemTable step. */
    method SwitchMemTable()
      requires imm.None?
      modifies this
      ensures W() == old(W()).(db := AfterSwitch(old(W().db)), switched := |old(hist)|)
    {
      var newLog := nextFile;
      nextFile := nextFile + 1;
      disk := disk.(logs := disk.logs + [Log(newLog, [])]);
      logfileNumber := newLog;
      imm := Some(mem);
      mem := [];
      switched := |hist|;
    }

    method GetSnapshot() returns (s: nat)
      modifies this
      ensures s == old(lastSequence) && W() == old(W()).(db := old(W().db).(snapshots := old(snapshots) + [s]))
    {
      s := lastSequence;
      snapshots := snapshots + [s];
    }

    method ReleaseSnapshot(index: nat)
      requires index < |snapshots|
      modifies this
      ensures W() == old(W()).(db := old(W().db).(snapshots := RemoveAt(old(snapshots), index)))
    {
      snapshots := snapshots[..index] + snapshots[index + 1..];
    }

    /** CompactMemTable: write the immutable memtable as a table at the level picked for it, a Flush step. */
    method CompactMemTable(size: nat, maxGrandparentBytes: nat) returns (level: nat, v': Version)
      requires Inv(W()) && imm.Some?
      modifies this
      ensures level <= MAX_MEM_COMPACT_LEVEL && FlushEnabled(old(W().db), level, size, v')
      ensures var m := old(imm).value;
              m != [] ==> LevelFor(old(current), level, m[0].key.user, m[|m| - 1].key.user, maxGrandparentBytes)
      ensures W() == old(W()).(db := AfterFlush(old(W().db), level, size, v'), flushed := old(switched))
    {
      level, v' := PickFlush(size, maxGrandparentBytes);
      InstallFlush(level, size, v');
    }

    method PickFlush(size: nat, maxGrandparentBytes: nat) returns (level: nat, v': Version)
      requires Inv(W()) && imm.Some?
      ensures level <= MAX_MEM_COMPACT_LEVEL && FlushEnabled(W().db, level, size, v')
      ensures var m := imm.value;
              m != [] ==> LevelFor(current, level, m[0].key.user, m[|m| - 1].key.user, maxGrandparentBytes)
    {
      level := 0;
      var edit := EmptyEdit().(logNumber := Some(logfileNumber));
      if imm.value != [] {
        var f := MakeFile(nextFile, size, imm.value);
        level := PickLevelForMemTableOutput(current, f.smallest.user, f.largest.user, maxGrandparentBytes);
        assert ClearNoDeeper(current, level, f.smallest.user, f.largest.user, maxGrandparentBytes);
        assert FlushLevel(current, level, f);
        edit := edit.(added := [(level, f)]);
      }
      FlushInstallable(W(), level, size);
      v' := InstallEdit(current, edit);
    }

    method InstallFlush(level: nat, size: nat, v': Version)
      requires imm.Some?
      modifies this
      ensures W() == old(W()).(db := AfterFlush(old(W().db), level, size, v'), flushed := old(switched))
    {
      var edit := EmptyEdit().(logNumber := Some(logfileNumber));
      if imm.value != [] {
        disk := disk.(tables := disk.tables + {nextFile});
        edit := edit.(added := [(level, MakeFile(nextFile, size, imm.value))]);
      }
      nextFile := nextFile + 1;
      LogAndApplyEdit(edit, v');
      imm := None;
      flushed := switched;
    }

    /** BackgroundCompaction for a level due for it, or for a file that seeks have worn out: pick inputs, then move the
        one file down or merge and install.  The compaction pointer goes to the end of the inputs. */
    method CompactLevel(level: nat, pointer: Option<IKey>, seek: Option<File>, expandedLimit: nat, allowMove: bool,
                        stop: nat -> bool, full: nat -> bool, fileSize: seq<Entry> -> nat)
      returns (step: Step, pointer': IKey)
      requires Inv(W()) && level + 1 < NUM_LEVELS && current[level] != []
      requires seek.Some? ==> seek.value in current[level]
      modifies this
      ensures MovesDown(old(W()), step, W()) || MergesDown(old(W()), step, W())
      ensures step.Move? || step.Compact?
      ensures step.Move? <==> allowMove && |InputsOf(step).0| == 1 && InputsOf(step).1 == []
      ensures IsLargest(InputsOf(step).0, pointer')
      ensures StartedAt(old(current), level, pointer, seek, expandedLimit, InputsOf(step).0, InputsOf(step).1)
      ensures seek.Some? ==> seek.value in InputsOf(step).0
      ensures seek.None? ==> exists i: nat :: FirstPast(old(current)[level], pointer, i)
                                              && old(current)[level][i] in InputsOf(step).0
    {
      OneEntryInLevel(W(), level);
      var in0, in1, smallest;
      in0, in1, smallest, pointer' := PickCompaction(current, level, pointer, seek, expandedLimit);
      if |in0| == 1 && in1 == [] && allowMove {
        OnlyFile(in0);
        step := MoveDown(level, in0[0], smallest.user, pointer'.user);
      } else {
        step := MergeDown(level, in0, in1, smallest.user, pointer'.user, stop, full, fileSize);
      }
    }

    /** BackgroundCompaction for a manual compaction: never a trivial move; done when nothing meets the range. */
    method CompactManually(level: nat, begin: Option<UserKey>, end: Option<UserKey>, fileLimit: nat, expandedLimit: nat,
                           stop: nat -> bool, full: nat -> bool, fileSize: seq<Entry> -> nat)
      returns (done: bool, step: Option<Step>)
      requires Inv(W()) && level + 1 < NUM_LEVELS
      modifies this
      ensures done <==> forall f | f in old(current)[level] :: !Overlaps(f, begin, end)
      ensures done ==> step.None? && W() == old(W())
      ensures !done ==> step.Some? && MergesDown(old(W()), step.value, W()) && step.value.Compact?
      ensures !done ==> StartedIn(old(current), level, begin, end, fileLimit, expandedLimit,
                                  step.value.in0, step.value.in1)
      ensures !done ==> exists i: nat :: FirstMeeting(old(current)[level], begin, end, i)
                                         && old(current)[level][i] in step.value.in0
    {
      OneEntryInLevel(W(), level);
      var found, in0, in1, smallest, largest := CompactRange(current, level, begin, end, fileLimit, expandedLimit);
      if !found {
        return true, None;
      }
      var merge := MergeDown(level, in0, in1, smallest.user, largest.user, stop, full, fileSize);
      return false, Some(merge);
    }

    method MergeDown(level: nat, in0: Level, in1: Level, lo: UserKey, hi: UserKey,
                     stop: nat -> bool, full: nat -> bool, fileSize: seq<Entry> -> nat)
      returns (step: Step)
      requires Inv(W()) && Selection(current, level, in0, in1, lo, hi) && InOrder(level == 0, in0)
      modifies this
      ensures MergesDown(old(W()), step, W()) && step.Compact? && step.in0 == in0 && step.in1 == in1
    {
      step := PlanCompaction(level, in0, in1, lo, hi, stop, full, fileSize);
      InstallCompactionResults(step);
    }

    /** A trivial move: the file's own entry in the version changes level, and nothing is written. */
    method MoveDown(level: nat, f: File, lo: UserKey, hi: UserKey) returns (step: Step)
      requires Inv(W()) && Selection(current, level, [f], [], lo, hi)
      modifies this
      ensures MovesDown(old(W()), step, W()) && step.f == f
    {
      assert f in [f];
      MoveInstallable(current, level, f);
      var v' := InstallEdit(current, MoveEdit(level, f));
      LogAndApplyEdit(MoveEdit(level, f), v');
      step := Move(level, f, lo, hi, v');
    }

    method PlanCompaction(level: nat, in0: Level, in1: Level, lo: UserKey, hi: UserKey,
                          stop: nat -> bool, full: nat -> bool, fileSize: seq<Entry> -> nat)
      returns (step: Step)
      requires Inv(W()) && Selection(current, level, in0, in1, lo, hi) && InOrder(level == 0, in0)
      ensures step.Compact? && step == Compact(level, in0, in1, lo, hi, step.outs, step.v')
      ensures CompactEnabled(ReserveOutputs(W().db, |step.outs|), level, in0, in1, lo, hi, step.outs, step.v')
    {
      EngineSteps.EntriesFromHistory(W());
      var oldest := if snapshots == [] then lastSequence else snapshots[0];
      var outs := RunCompaction(current, level, in0, in1, lo, hi, oldest, nextFile, stop, full, fileSize);
      OutputsReady(W().db, level, in0, in1, outs);
      OutputsInstallable(W().db, level, in0, in1, outs);
      var v' := InstallEdit(current, CompactEdit(level, in0, in1, outs));
      step := Compact(level, in0, in1, lo, hi, outs, v');
    }

    method InstallCompactionResults(step: Step)
      requires step.Compact?
      modifies this
      ensures W() == old(W()).(
        db := AfterCompact(ReserveOutputs(old(W().db), |step.outs|), step.level, step.in0, step.in1, step.outs,
            step.v'),
        floor := SmallestSnapshot(old(W().db)))
    {
      floor := SmallestSnapshot(W().db);
      var taken := NumbersFrom(nextFile, |step.outs|);
      disk := disk.(tables := disk.tables + taken);
      pending := pending + taken;
      nextFile := nextFile + |step.outs|;
      LogAndApplyEdit(CompactEdit(step.level, step.in0, step.in1, step.outs), step.v');
      pending := pending - (set f | f in step.outs :: f.number);
      assert (set f | f in step.outs :: f.number) == Numbers(FileSet(step.outs));
    }

    /** VersionSet::LogAndApply once the Builder has saved `v'`. */
    method LogAndApplyEdit(edit: VersionEdit, v': Version)
      modifies `disk, `current, `logNumber
      ensures W() == old(W()).(db := LogAndApply(old(W().db), edit, v'))
    {
      var full := edit.(logNumber := if edit.logNumber.Some? then edit.logNumber else Some(logNumber),
                        nextFile := Some(nextFile), lastSequence := Some(lastSequence));
      disk := disk.(manifest := disk.manifest + [full]);
      current := v';
      logNumber := full.logNumber.value;
    }
  }

  /** WriteBatchInternal::InsertInto: the handler adds each operation at the next sequence number. */
  method InsertInto(mem: seq<Entry>, first: nat, ops: seq<Op>) returns (r: seq<Entry>)
    ensures r == AddAll(mem, first, ops)
  {
    r := mem;
    var i := 0;
    while i < |ops|
      invariant 0 <= i <= |ops|
      invariant AddAll(r, first + i, ops[i..]) == AddAll(mem, first, ops)
    {
      assert ops[i..][1..] == ops[i + 1..];
      r := InsertSorted(r, EntryOf(ops[i], first + i));
      i := i + 1;
    }
  }

  lemma FreshNumber(db: Db, edit: VersionEdit, level: nat, f: File)
    requires ManifestOk(db) && f.number == db.nextFile
    requires forall i: nat :: Added(edit, i) == if i == level then {f} else {}
    ensures Fresh(db.current, edit) && forall i: nat | i < NUM_LEVELS :: NumbersName(Added(edit, i))
  {
    CurrentWasAdded(db);
    forall i: nat, g | i < NUM_LEVELS && g in db.current[i] ensures g.number < db.nextFile {
      assert g in VersionFiles(db.current);
    }
  }

  lemma FlushInstallable(w: World, level: nat, size: nat)
    requires Inv(w) && level < NUM_LEVELS
    ensures var edit := FlushEdit(w.db, level, size);
            EditOk(edit) && Fresh(w.db.current, edit) && forall i: nat | i < NUM_LEVELS :: NumbersName(Added(edit, i))
  {
    var edit := FlushEdit(w.db, level, size);
    if ImmOf(w.db) != [] {
      var f := MakeFile(w.db.nextFile, size, ImmOf(w.db));
      forall i: nat ensures Added(edit, i) == if i == level then {f} else {} {
        OneAdded(edit, level, f, i);
      }
      FreshNumber(w.db, edit, level, f);
    }
  }
}
