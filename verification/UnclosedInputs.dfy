/** A run that ends in a compaction bringing a deleted key back: AddBoundaryInputs is applied to the inputs of `level`
    only (db/version_set.cc:1407 and 1422), never to those of `level + 1`. */
module UnclosedInputs {
  import opened DbFormat
  import opened Visibility
  import opened Files
  import opened Inputs
  import opened LevelSteps
  import opened CompactionLoop
  import opened Manifest
  import opened History
  import opened Engine
  import EngineSteps
  import EngineTheorems

  // ---- The steps, one at a time ----

  /** What the run needs to know of a state. */
  ghost predicate Reaches(w: World, v: Version, mem: seq<Entry>, hist: seq<Op>, snapshots: seq<nat>, nextFile: nat,
                         pending: set<nat>) {
    && EngineTheorems.Reachable(w) && w.db.disk.logs != []
    && w.db.current == v && w.db.mem == mem && w.db.imm == None && w.hist == hist && w.db.lastSequence == |hist|
    && w.db.snapshots == snapshots && w.db.nextFile == nextFile && w.db.pending == pending
  }

  lemma Wrote(w: World, ops: seq<Op>, v: Version, mem: seq<Entry>, hist: seq<Op>, snapshots: seq<nat>, nextFile: nat,
              pending: set<nat>)
    returns (w': World)
    requires Reaches(w, v, mem, hist, snapshots, nextFile, pending) && |hist| + |ops| < MAX_SEQUENCE
    ensures Reaches(w', v, AddAll(mem, |hist| + 1, ops), hist + ops, snapshots, nextFile, pending)
  {
    w' := w.(db := AfterWrite(w.db, ops), hist := w.hist + ops);
    EngineTheorems.ReachableOn(w, Write(ops), w');
  }

  lemma TookSnapshot(w: World, v: Version, mem: seq<Entry>, hist: seq<Op>, nextFile: nat, pending: set<nat>)
    returns (w': World)
    requires Reaches(w, v, mem, hist, [], nextFile, pending)
    ensures Reaches(w', v, mem, hist, [|hist|], nextFile, pending)
  {
    w' := w.(db := w.db.(snapshots := w.db.snapshots + [w.db.lastSequence]));
    EngineTheorems.ReachableOn(w, GetSnapshot, w');
  }

  lemma ReleasedSnapshot(w: World, v: Version, mem: seq<Entry>, hist: seq<Op>, s: nat, nextFile: nat, pending: set<nat>)
    returns (w': World)
    requires Reaches(w, v, mem, hist, [s], nextFile, pending)
    ensures Reaches(w', v, mem, hist, [], nextFile, pending)
  {
    w' := w.(db := w.db.(snapshots := RemoveAt(w.db.snapshots, 0)));
    EngineTheorems.ReachableOn(w, ReleaseSnapshot(0), w');
  }

  lemma Reserved(w: World, v: Version, mem: seq<Entry>, hist: seq<Op>, snapshots: seq<nat>, nextFile: nat,
                 pending: set<nat>)
    returns (w': World)
    requires Reaches(w, v, mem, hist, snapshots, nextFile, pending)
    ensures Reaches(w', v, mem, hist, snapshots, nextFile + 1, pending + {nextFile})
  {
    w' := w.(db := AfterReserve(w.db));
    EngineTheorems.ReachableOn(w, ReserveOutput, w');
  }

  lemma Switched(w: World) returns (w': World)
    requires EngineTheorems.Reachable(w) && w.db.imm == None
    ensures EngineTheorems.Reachable(w') && w'.hist == w.hist && w'.db.disk.logs != []
    ensures w'.db == w.db.(mem := [], imm := Some(w.db.mem), nextFile := w.db.nextFile + 1,
              logfileNumber := w.db.nextFile, disk := w'.db.disk)
  {
    w' := w.(db := AfterSwitch(w.db), switched := |w.hist|);
    EngineTheorems.ReachableOn(w, SwitchMemTable, w');
  }

  lemma ReachableShape(w: World)
    requires EngineTheorems.Reachable(w)
    ensures Shape(w.db.current)
  {
    EngineTheorems.ReachableKeeps(w);
  }

  lemma FlushInstalled(db: Db, level: nat, size: nat, v': Version)
    requires Shape(db.current) && level < NUM_LEVELS && ImmOf(db) != [] && db.current[level] == []
    requires v' == db.current[level := [MakeFile(db.nextFile, size, ImmOf(db))]]
    ensures Installed(db.current, FlushEdit(db, level, size), v')
  {
    var edit, f := FlushEdit(db, level, size), MakeFile(db.nextFile, size, ImmOf(db));
    assert (level, f) in edit.added;
    forall i: nat | i < NUM_LEVELS ensures FileSet(v'[i]) == AfterEdit(FileSet(db.current[i]), edit, i) {
      assert Added(edit, i) == if i == level then {f} else {};
      assert Deleted(edit, i) == {};
    }
  }

  /** The memtable is switched and becomes the only file of a level. */
  lemma Flushed(w: World, level: nat, v: Version, mem: seq<Entry>, hist: seq<Op>, snapshots: seq<nat>, nextFile: nat,
                pending: set<nat>)
    returns (w': World)
    requires Reaches(w, v, mem, hist, snapshots, nextFile, pending)
    requires mem != [] && level < NUM_LEVELS && v[level] == [] && FlushLevel(v, level, MakeFile(nextFile + 1, 1, mem))
    ensures Reaches(w', v[level := [MakeFile(nextFile + 1, 1, mem)]], [], hist, snapshots, nextFile + 2, pending)
  {
    var u := Switched(w);
    ReachableShape(u);
    var v' := v[level := [MakeFile(nextFile + 1, 1, mem)]];
    FlushInstalled(u.db, level, 1, v');
    w' := u.(db := AfterFlush(u.db, level, 1, v'), flushed := u.switched);
    EngineTheorems.ReachableOn(u, Flush(level, 1, v'), w');
  }

  /** Replacing the chosen files by the outputs is what the edit installs. */
  lemma CompactInstalled(v: Version, level: nat, in0: Level, in1: Level, outs: Level, v': Version)
    requires Shape(v) && level + 1 < NUM_LEVELS && (forall f | f in in0 :: f in v[level])
             && (forall f | f in in1 :: f in v[level + 1])
    requires SortedLevels(v') && Replaces(v, v', level, in0, in1, outs)
    ensures Installed(v, CompactEdit(level, in0, in1, outs), v')
  {
    EngineSteps.TakenByNumber(v, level, in0);
    EngineSteps.TakenByNumber(v, level + 1, in1);
    forall i: nat | i < NUM_LEVELS
        ensures FileSet(v'[i]) == AfterEdit(FileSet(v[i]), CompactEdit(level, in0, in1, outs), i) {
      EngineSteps.CompactEditIs(level, in0, in1, outs, i);
    }
  }

  /** A compaction, its outputs reserved. */
  lemma Compacted(w: World, step: Step, v: Version, mem: seq<Entry>, hist: seq<Op>, snapshots: seq<nat>, nextFile: nat,
                  pending: set<nat>)
    returns (w': World)
    requires Reaches(w, v, mem, hist, snapshots, nextFile, pending)
    requires step.Compact? && Selection(v, step.level, step.in0, step.in1, step.lo, step.hi)
    requires CompactionOutputs(w.db, step.level, step.in0, step.in1, step.outs)
    requires Replaces(v, step.v', step.level, step.in0, step.in1, step.outs)
    ensures Next(w, step, w')
    ensures Reaches(w', step.v', mem, hist, snapshots, nextFile, pending - Numbers(FileSet(step.outs)))
  {
    ReachableShape(w);
    Selected(v, step.level, step.in0, step.in1, step.lo, step.hi);
    CompactInstalled(v, step.level, step.in0, step.in1, step.outs, step.v');
    w' := w.(db := AfterCompact(w.db, step.level, step.in0, step.in1, step.outs, step.v'),
        floor := SmallestSnapshot(w.db));
    EngineTheorems.ReachableOn(w, step, w');
  }

  // ---- The entries and the files ----

  /** The user keys: the one-byte strings 1 and 2. */
  const KEY_A: UserKey := 2.0 / 257.0
  const KEY_B: UserKey := 3.0 / 257.0

  lemma KeysAreBytes()
    ensures KEY_A == Position([1]) && KEY_B == Position([2])
  {
    assert Position([]) == 0.0 && [1][1..] == [] && [2][1..] == [];
  }

  const PUT_B := Entry(IKey(KEY_B, 1, Value), [3])
  const DEL_B := Entry(IKey(KEY_B, 2, Deletion), [])
  const OLD_A := Entry(IKey(KEY_A, 3, Value), [2])
  const PUT_A := Entry(IKey(KEY_A, 4, Value), [1])

  /** The first memtable, flushed to level 2. */
  const BOTH := File(5, 1, OLD_A.key, PUT_B.key, [OLD_A, DEL_B, PUT_B])

  /** Compacted to level 3, while a snapshot still reads the value of KEY_B: the key is split over two files. */
  const FIRST := File(6, 1, OLD_A.key, DEL_B.key, [OLD_A, DEL_B])
  const SECOND := File(7, 1, PUT_B.key, PUT_B.key, [PUT_B])

  /** The second memtable, flushed to level 2. */
  const UPPER := File(9, 1, PUT_A.key, PUT_A.key, [PUT_A])

  /** What compacting UPPER writes. */
  const MERGED := File(10, 1, PUT_A.key, PUT_A.key, [PUT_A])

  function Deep(two: Level, three: Level): Version {
    [[], [], two, three, [], [], []]
  }

  function Ops(): seq<Op> {
    [Put(KEY_B, [3]), Delete(KEY_B), Put(KEY_A, [2]), Put(KEY_A, [1])]
  }

  lemma FilesAreOk()
    ensures FileOk(BOTH) && FileOk(FIRST) && FileOk(SECOND) && FileOk(UPPER) && FileOk(MERGED)
  {
  }

  lemma LevelOf(l: Level, f: File)
    requires l == [f]
    ensures LevelEntries(l) == FileEntries(f) && FileSet(l) == {f}
  {
    assert f in l;
  }

  lemma LevelOfTwo(l: Level, f: File, g: File)
    requires l == [f, g]
    ensures LevelEntries(l) == FileEntries(f) + FileEntries(g) && FileSet(l) == {f, g}
  {
    assert f in l && g in l;
  }

  lemma FileEntriesAre()
    ensures FileEntries(BOTH) == {OLD_A, DEL_B, PUT_B} && FileEntries(FIRST) == {OLD_A, DEL_B}
            && FileEntries(SECOND) == {PUT_B}
    ensures FileEntries(UPPER) == {PUT_A} && FileEntries(MERGED) == {PUT_A}
  {
    assert OLD_A in BOTH.entries && DEL_B in BOTH.entries && PUT_B in BOTH.entries;
    assert OLD_A in FIRST.entries && DEL_B in FIRST.entries && PUT_B in SECOND.entries;
    assert PUT_A in UPPER.entries && PUT_A in MERGED.entries;
  }

  lemma MinusAll(f: File)
    ensures Minus([f], [f]) == []
  {
    assert [f][..0] == [];
  }

  lemma OverlapsFirst()
    ensures Overlapping([FIRST, SECOND], Some(KEY_A), Some(KEY_A)) == [FIRST]
  {
    var l := [FIRST, SECOND];
    assert l[..1] == [FIRST] && l[..1][..0] == [];
    assert Overlapping(l[..1], Some(KEY_A), Some(KEY_A)) == [FIRST];
    assert Overlapping(l, Some(KEY_A), Some(KEY_A)) == [FIRST] + [];
  }

  // ---- The run ----

  lemma FirstMemtable()
    ensures AddAll(AddAll([], 1, Ops()[..1]), 2, Ops()[1..3]) == [OLD_A, DEL_B, PUT_B]
            && Ops()[..1] + Ops()[1..3] == Ops()[..3]
  {
    assert Ops()[..1] == [Put(KEY_B, [3])] && Ops()[1..3] == [Delete(KEY_B), Put(KEY_A, [2])];
    assert AddAll([], 1, [Put(KEY_B, [3])]) == [PUT_B];
    var ops := [Delete(KEY_B), Put(KEY_A, [2])];
    assert ops[1..] == [Put(KEY_A, [2])] && ops[1..][1..] == [];
    assert InsertSorted([PUT_B], DEL_B) == [DEL_B, PUT_B];
    assert InsertSorted([DEL_B, PUT_B], OLD_A) == [OLD_A, DEL_B, PUT_B];
  }

  /** A write and a snapshot. */
  lemma Started() returns (w: World)
    ensures Reaches(w, Deep([], []), AddAll([], 1, Ops()[..1]), Ops()[..1], [1], 4, {})
  {
    var v := Deep([], []);
    EngineTheorems.NewIsReachable();
    var a := Wrote(NewWorld(), Ops()[..1], v, [], [], [], 4, {});
    assert [] + Ops()[..1] == Ops()[..1];
    w := TookSnapshot(a, v, AddAll([], 1, Ops()[..1]), Ops()[..1], 4, {});
  }

  lemma EmptyIsClear(lo: UserKey, hi: UserKey)
    ensures ClearDownTo(Deep([], []), 2, lo, hi)
  {
    assert forall i: nat | i < NUM_LEVELS :: Deep([], [])[i] == [];
  }

  /** Another write. */
  lemma Collected() returns (w: World)
    ensures Reaches(w, Deep([], []), [OLD_A, DEL_B, PUT_B], Ops()[..3], [1], 4, {})
  {
    var b := Started();
    w := Wrote(b, Ops()[1..3], Deep([], []), AddAll([], 1, Ops()[..1]), Ops()[..1], [1], 4, {});
    FirstMemtable();
  }

  /** And a flush to level 2. */
  lemma Filled() returns (w: World)
    ensures Reaches(w, Deep([BOTH], []), [], Ops()[..3], [1], 6, {})
  {
    var v := Deep([], []);
    var c := Collected();
    EmptyIsClear(KEY_A, KEY_B);
    w := Flushed(c, 2, v, [OLD_A, DEL_B, PUT_B], Ops()[..3], [1], 4, {});
    assert v[2 := [BOTH]] == Deep([BOTH], []);
  }

  lemma SplitSelection()
    ensures Selection(Deep([BOTH], []), 2, [BOTH], [], KEY_A, KEY_B)
  {
    MinusAll(BOTH);
  }

  lemma SplitKept(base: iset<UserKey>)
    ensures var inputs := {OLD_A, DEL_B, PUT_B}; Kept(inputs, 1, base) == inputs
  {
  }

  lemma SplitOutputs(db: Db)
    requires db.current == Deep([BOTH], []) && db.snapshots == [1] && db.pending == {6, 7}
    ensures CompactionOutputs(db, 2, [BOTH], [], [FIRST, SECOND])
  {
    FilesAreOk();
    FileEntriesAre();
    LevelOf([BOTH], BOTH);
    LevelOfTwo([FIRST, SECOND], FIRST, SECOND);
    SplitKept(BaseKeys(db.current, 2));
    assert InputEntries([BOTH], []) == {OLD_A, DEL_B, PUT_B};
    assert Numbers({FIRST, SECOND}) == {6, 7};
  }

  lemma SplitReplaces()
    ensures Replaces(Deep([BOTH], []), Deep([], [FIRST, SECOND]), 2, [BOTH], [], [FIRST, SECOND])
  {
    var v, v' := Deep([BOTH], []), Deep([], [FIRST, SECOND]);
    LevelOf(v[2], BOTH);
    LevelOfTwo(v'[3], FIRST, SECOND);
    forall i: nat | i < NUM_LEVELS ensures SortedFiles(v'[i]) && (i != 2 && i != 3 ==> v'[i] == v[i]) {
      assert v'[i] == if i == 3 then [FIRST, SECOND] else [];
    }
  }

  /** The file of level 2 is compacted into two files of level 3 (a manual compaction does not just move it), and the
      snapshot is released. */
  lemma Split() returns (w: World)
    ensures Reaches(w, Deep([], [FIRST, SECOND]), [], Ops()[..3], [], 8, {})
  {
    var v, hist := Deep([BOTH], []), Ops()[..3];
    var a := Filled();
    var b := Reserved(a, v, [], hist, [1], 6, {});
    var c := Reserved(b, v, [], hist, [1], 7, {} + {6});
    assert {} + {6} + {7} == {6, 7};
    SplitSelection();
    SplitOutputs(c.db);
    SplitReplaces();
    var step := Compact(2, [BOTH], [], KEY_A, KEY_B, [FIRST, SECOND], Deep([], [FIRST, SECOND]));
    var d := Compacted(c, step, v, [], hist, [1], 8, {6, 7});
    LevelOfTwo([FIRST, SECOND], FIRST, SECOND);
    assert {6, 7} - Numbers({FIRST, SECOND}) == {};
    w := ReleasedSnapshot(d, Deep([], [FIRST, SECOND]), [], hist, 1, 8, {});
  }

  lemma Rewritten() returns (w: World)
    ensures Reaches(w, Deep([], [FIRST, SECOND]), [PUT_A], Ops(), [], 8, {})
  {
    var a := Split();
    w := Wrote(a, [Put(KEY_A, [1])], Deep([], [FIRST, SECOND]), [], Ops()[..3], [], 8, {});
    assert Ops()[..3] + [Put(KEY_A, [1])] == Ops();
    assert AddAll([], 4, [Put(KEY_A, [1])]) == [PUT_A];
  }

  /** The state the unsafe compaction starts from: a newer value of KEY_A is flushed above the two files. */
  lemma Ready() returns (w: World)
    ensures Reaches(w, ExampleVersion(), [], Ops(), [], 11, {10})
  {
    var v := Deep([], [FIRST, SECOND]);
    var b := Rewritten();
    var c := Flushed(b, 2, v, [PUT_A], Ops(), [], 8, {});
    assert v[2 := [UPPER]] == ExampleVersion();
    w := Reserved(c, ExampleVersion(), [], Ops(), [], 10, {});
  }

  function ExampleVersion(): Version {
    Deep([UPPER], [FIRST, SECOND])
  }

  // ---- The compaction ----

  lemma ExampleSelection()
    ensures Selection(ExampleVersion(), 2, [UPPER], [FIRST], KEY_A, KEY_A)
  {
    OverlapsFirst();
    MinusAll(UPPER);
  }

  lemma ExampleShape()
    ensures Shape(ExampleVersion())
  {
    var w := Ready();
    ReachableShape(w);
  }

  lemma ExampleLevel()
    ensures OneEntryPerSeq(LevelEntries(ExampleVersion()[2]))
  {
    LevelOf([UPPER], UPPER);
    FileEntriesAre();
  }

  lemma OnlyUpper(in0: Level)
    requires in0 != [] && Disjoint(in0) && forall f | f in in0 :: f in [UPPER]
    ensures in0 == [UPPER]
  {
    assert in0[0] in in0;
    if |in0| > 1 {
      NotBefore(in0[0], in0[1]);
    }
  }

  lemma NotBefore(f: File, g: File)
    requires f in [UPPER] && g in [UPPER]
    ensures !Less(f.largest, g.smallest)
  {
  }

  /** Whatever the compaction pointer and the size limits, and even for a seek, the code picks UPPER and FIRST, and
      leaves SECOND. */
  method PickExample(pointer: Option<IKey>, seek: bool, expandedLimit: nat)
    returns (in0: Level, in1: Level, lo: UserKey, hi: UserKey)
    ensures in0 == [UPPER] && in1 == [FIRST] && lo == KEY_A && hi == KEY_A
  {
    ExampleShape();
    ExampleLevel();
    OverlapsFirst();
    var smallest, largest;
    in0, in1, smallest, largest :=
      PickCompaction(ExampleVersion(), 2, pointer, if seek then Some(UPPER) else None, expandedLimit);
    OnlyUpper(in0);
    lo, hi := smallest.user, largest.user;
  }

  function ExampleStep(): Step {
    Compact(2, [UPPER], [FIRST], KEY_A, KEY_A, [MERGED], Deep([], [MERGED, SECOND]))
  }

  lemma ExampleBase()
    ensures KEY_B in BaseKeys(ExampleVersion(), 2)
  {
    var v := ExampleVersion();
    assert forall lvl: nat | 4 <= lvl < NUM_LEVELS :: v[lvl] == [];
  }

  lemma ExampleKept(base: iset<UserKey>)
    requires KEY_B in base
    ensures var inputs := {PUT_A, OLD_A, DEL_B}; Kept(inputs, 4, base) == {PUT_A}
  {
    var inputs := {PUT_A, OLD_A, DEL_B};
    assert Hidden(inputs, 4, OLD_A) by {
      assert PUT_A in inputs;
    }
    assert !Hidden(inputs, 4, PUT_A);
  }

  lemma ExampleOutputs(db: Db)
    requires db.current == ExampleVersion() && db.snapshots == [] && db.lastSequence == 4 && db.pending == {10}
    ensures CompactionOutputs(db, 2, [UPPER], [FIRST], [MERGED])
  {
    FilesAreOk();
    FileEntriesAre();
    LevelOf([UPPER], UPPER);
    LevelOf([FIRST], FIRST);
    LevelOf([MERGED], MERGED);
    ExampleBase();
    ExampleKept(BaseKeys(db.current, 2));
    assert InputEntries([UPPER], [FIRST]) == {PUT_A, OLD_A, DEL_B};
    assert Numbers({MERGED}) == {10};
  }

  lemma ExampleReplaces()
    ensures Replaces(ExampleVersion(), Deep([], [MERGED, SECOND]), 2, [UPPER], [FIRST], [MERGED])
  {
    var v, v' := ExampleVersion(), Deep([], [MERGED, SECOND]);
    LevelOf(v[2], UPPER);
    LevelOf([FIRST], FIRST);
    LevelOf([MERGED], MERGED);
    LevelOfTwo(v[3], FIRST, SECOND);
    LevelOfTwo(v'[3], MERGED, SECOND);
    assert {FIRST, SECOND} - {FIRST} + {MERGED} == {MERGED, SECOND};
    forall i: nat | i < NUM_LEVELS ensures SortedFiles(v'[i]) && (i != 2 && i != 3 ==> v'[i] == v[i]) {
      assert v'[i] == if i == 3 then [MERGED, SECOND] else [];
    }
  }

  lemma EntriesAt(two: Level, three: Level)
    ensures VersionEntries(Deep(two, three)) == LevelEntries(two) + LevelEntries(three)
  {
    var v := Deep(two, three);
    forall e ensures e in VersionEntries(v) <==> e in LevelEntries(two) + LevelEntries(three) {
      if e in VersionEntries(v) {
        var i: nat :| i < NUM_LEVELS && e in LevelEntries(v[i]);
        assert v[i] == if i == 2 then two else if i == 3 then three else [];
      }
      assert v[2] == two && v[3] == three;
    }
  }

  /** The entries of the database before and after. */
  lemma ExampleEntries(w: World, v: Version)
    requires w.db.mem == [] && w.db.imm == None && w.db.current == v
    ensures v == ExampleVersion() ==> DbEntries(w.db) == {PUT_A, OLD_A, DEL_B, PUT_B}
    ensures v == Deep([], [MERGED, SECOND]) ==> DbEntries(w.db) == {PUT_A, PUT_B}
  {
    FileEntriesAre();
    LevelOf([UPPER], UPPER);
    LevelOfTwo([FIRST, SECOND], FIRST, SECOND);
    LevelOfTwo([MERGED, SECOND], MERGED, SECOND);
    EntriesAt([UPPER], [FIRST, SECOND]);
    EntriesAt([], [MERGED, SECOND]);
  }

  lemma ExampleReads()
    ensures View({PUT_A, OLD_A, DEL_B, PUT_B}, KEY_B, 4) == None && View({PUT_A, PUT_B}, KEY_B, 4) == Some([3])
  {
    var S, T := {PUT_A, OLD_A, DEL_B, PUT_B}, {PUT_A, PUT_B};
    assert OneEntryPerSeq(S) && OneEntryPerSeq(T);
    ViewOfNewest(S, KEY_B, 4, DEL_B);
    ViewOfNewest(T, KEY_B, 4, PUT_B);
  }

  lemma ExampleMap()
    ensures Lookup(MapAt(Ops(), 4), KEY_B) == None
  {
  }

  /** The run goes on with that compaction.  Before it the deleted KEY_B reads as deleted; after it, though nothing was
      written, the old value is back.  So RunRefinesMap does not hold of every run. */
  lemma DeletedKeyComesBack() returns (w: World, w': World)
    ensures EngineTheorems.Reachable(w) && w.db.current == ExampleVersion()
    ensures Next(w, ExampleStep(), w') && EngineTheorems.Reachable(w') && !Safe(w, ExampleStep())
    ensures w'.hist == w.hist && Lookup(MapAt(w.hist, |w.hist|), KEY_B) == None
    ensures View(DbEntries(w.db), KEY_B, w.db.lastSequence) == None
            && View(DbEntries(w'.db), KEY_B, w'.db.lastSequence) == Some([3])
  {
    w := Ready();
    ExampleSelection();
    ExampleOutputs(w.db);
    ExampleReplaces();
    w' := Compacted(w, ExampleStep(), ExampleVersion(), [], Ops(), [], 11, {10});
    ExampleEntries(w, ExampleVersion());
    ExampleEntries(w', Deep([], [MERGED, SECOND]));
    ExampleReads();
    ExampleMap();
    NotSafe(w, w');
  }

  lemma NotSafe(w: World, w': World)
    requires EngineTheorems.Reachable(w) && Next(w, ExampleStep(), w') && w.db.snapshots == [] && w.db.lastSequence == 4
    requires View(DbEntries(w.db), KEY_B, 4) != View(DbEntries(w'.db), KEY_B, 4)
    ensures !Safe(w, ExampleStep())
  {
    EngineTheorems.ReachableKeeps(w);
    EngineTheorems.CompactionExact(w, ExampleStep(), w');
  }
}
