/** When a compaction is safe, from what can be looked up before it: the one file a boundary step at `level + 1` would
    add, and the entry the oldest snapshot reads for the user key that file starts with. */
module SafeCompaction {
  import opened DbFormat
  import opened Visibility
  import opened Files
  import opened Inputs
  import opened LevelSteps
  import opened CompactionLoop
  import opened History
  import opened Engine
  import opened EngineTheorems
  import EngineSteps

  /** `g` is the first file left in `level + 1` that starts with the user key ending the input file `f`: what
      FindSmallestBoundaryFile would find there. */
  ghost predicate BoundaryAbove(v: Version, level: nat, in1: Level, f: File, g: File)
    requires level + 1 < NUM_LEVELS
  {
    && f in in1 && g in v[level + 1] && g !in in1 && f.largest.user == g.smallest.user
    && forall h | h in v[level + 1] && h !in in1 && h.smallest.user == g.smallest.user :: Leq(g.smallest, h.smallest)
  }

  /** The oldest snapshot reads a deletion in `f` for the shared user key, the compaction drops it, and `g` starts with
      a value of that key. */
  ghost predicate Uncovers(w: World, step: Step, f: File, g: File, e: Entry)
    requires step.Compact? && step.level + 1 < NUM_LEVELS
  {
    && BoundaryAbove(w.db.current, step.level, step.in1, f, g) && g.smallest.kind.Value?
    && e in f.entries && ObsoleteDeletion(SmallestSnapshot(w.db), BaseKeys(w.db.current, step.level), e)
    && Newest(DbEntries(w.db), g.smallest.user, SmallestSnapshot(w.db), e)
  }

  ghost predicate Chosen(w: World, step: Step) {
    && step.Compact? && Contents(w) && Shape(w.db.current) && Aged(w.db.current)
    && Selection(w.db.current, step.level, step.in0, step.in1, step.lo, step.hi)
  }

  ghost function Rest(w: World, step: Step): set<Entry>
    requires step.Compact? && step.level + 1 < NUM_LEVELS
  {
    Untouched(w.db, step.level, step.in0, step.in1)
  }

  lemma OneEntryEach(w: World)
    requires Contents(w)
    ensures OneEntryPerSeq(DbEntries(w.db))
  {
    EngineSteps.EntriesFromHistory(w);
  }

  lemma AllAre(w: World, step: Step)
    requires Chosen(w, step)
    ensures DbEntries(w.db) == Rest(w, step) + InputEntries(step.in0, step.in1)
  {
    RestAndInputs(w.db.current, step.level, step.in0, step.in1, step.lo, step.hi);
  }

  lemma RestAndInputs(v: Version, level: nat, in0: Level, in1: Level, lo: UserKey, hi: UserKey)
    requires Selection(v, level, in0, in1, lo, hi)
    ensures VersionEntries(v) == RestEntries(v, level, in0, in1) + InputEntries(in0, in1)
  {
    Selected(v, level, in0, in1, lo, hi);
    MinusSet(v[level], in0);
    MinusSet(v[level + 1], in1);
    SplitEntries(v, level);
  }

  /** An older entry outside the inputs is in a left-out file starting with its user key. */
  lemma OlderStartsFile(w: World, step: Step, e: Entry, x: Entry) returns (f: File, g: File)
    requires Chosen(w, step) && e in InputEntries(step.in0, step.in1)
             && e.key.user in BaseKeys(w.db.current, step.level)
    requires x in Rest(w, step) && x.key.user == e.key.user && x.key.sequence < e.key.sequence
    ensures f in step.in1 && e in f.entries && g in w.db.current[step.level + 1] && g !in step.in1 && x in g.entries
    ensures f.largest.user == g.smallest.user == e.key.user
  {
    g := OlderIsOneDown(w, step, e, x);
    f := EndsAtBoundary(w.db.current, step.level, step.in0, step.in1, step.lo, step.hi, e, x, g);
  }

  lemma EndsAtBoundary(v: Version, level: nat, in0: Level, in1: Level, lo: UserKey, hi: UserKey, e: Entry, x: Entry,
                       g: File)
    returns (f: File)
    requires Shape(v) && Selection(v, level, in0, in1, lo, hi) && e in InputEntries(in0, in1)
    requires g in v[level + 1] && g !in in1 && x in g.entries && x.key.user == e.key.user
             && x.key.sequence < e.key.sequence
    ensures f in in1 && e in f.entries && f.largest.user == g.smallest.user == e.key.user
  {
    InputsMeet(v, level, in0, in1, lo, hi);
    BoundaryKey(v[level + 1], in0, in1, lo, hi, e, x, g);
    f :| f in in1 && e in f.entries && f.largest.user == g.smallest.user;
  }

  lemma InputsMeet(v: Version, level: nat, in0: Level, in1: Level, lo: UserKey, hi: UserKey)
    requires Shape(v) && Selection(v, level, in0, in1, lo, hi)
    ensures FilesOk(v[level + 1]) && PairwiseApart(FileSet(v[level + 1])) && FilesOk(in0)
    ensures forall f | f in in1 :: f in v[level + 1] && Overlaps(f, Some(lo), Some(hi))
    ensures forall f | f in v[level + 1] && f !in in1 :: !Overlaps(f, Some(lo), Some(hi))
  {
    Selected(v, level, in0, in1, lo, hi);
    FilesAbove(v, level);
  }

  lemma MemoryIsNew(w: World, x: Entry)
    requires Contents(w)
    ensures x in ToSet(w.db.mem) || x in ToSet(ImmOf(w.db)) ==> x.key.sequence > w.flushed
  {
    RangeEntry(w.hist, w.switched, |w.hist|, x);
    RangeEntry(w.hist, w.flushed, w.switched, x);
  }

  lemma OlderIsOneDown(w: World, step: Step, e: Entry, x: Entry) returns (g: File)
    requires Chosen(w, step) && e in InputEntries(step.in0, step.in1)
             && e.key.user in BaseKeys(w.db.current, step.level)
    requires x in Rest(w, step) && x.key.user == e.key.user && x.key.sequence < e.key.sequence
    ensures g in w.db.current[step.level + 1] && g !in step.in1 && x in g.entries
  {
    InputsAreOld(w, step.level, step.in0, step.in1, step.lo, step.hi, e);
    MemoryIsNew(w, x);
    OlderInLevel(w.db.current, step.level, step.in0, step.in1, step.lo, step.hi, e, x);
    g :| g in w.db.current[step.level + 1] && g !in step.in1 && x in g.entries;
  }

  /** Of a user key, what a left-out file starting with it holds is older than what the inputs hold. */
  lemma StartIsOlder(w: World, step: Step, f: File, e: Entry, h: File)
    requires Chosen(w, step) && f in step.in1 && e in f.entries
    requires h in w.db.current[step.level + 1] && h !in step.in1 && h.smallest.user == e.key.user == f.largest.user
    ensures Less(e.key, h.smallest) && h.smallest.sequence <= e.key.sequence
  {
    var v := w.db.current;
    Selected(v, step.level, step.in0, step.in1, step.lo, step.hi);
    FilesAbove(v, step.level);
    StartIsAfter(v[step.level + 1], f, e, h, step.lo, step.hi);
  }

  lemma FilesAbove(v: Version, level: nat)
    requires Shape(v) && level + 1 < NUM_LEVELS
    ensures FilesOk(v[level + 1]) && PairwiseApart(FileSet(v[level + 1]))
  {
    DisjointIsApart(v[level + 1]);
  }

  lemma StartIsAfter(l: Level, f: File, e: Entry, h: File, lo: UserKey, hi: UserKey)
    requires FilesOk(l) && PairwiseApart(FileSet(l)) && f in l && h in l && e in f.entries
    requires Overlaps(f, Some(lo), Some(hi)) && !Overlaps(h, Some(lo), Some(hi))
    requires h.smallest.user == e.key.user == f.largest.user
    ensures Less(e.key, h.smallest) && h.smallest.sequence <= e.key.sequence
  {
    assert f in FileSet(l) && h in FileSet(l) && Apart(f, h);
    EntryInRange(f, e);
    FileRange(h);
    FileRange(f);
  }

  lemma LeftOutInRest(w: World, step: Step, h: File, y: Entry)
    requires Chosen(w, step) && h in w.db.current[step.level + 1] && h !in step.in1 && y in h.entries
    ensures y in Rest(w, step) && y in DbEntries(w.db)
  {
    AllAre(w, step);
    MinusMember(w.db.current[step.level + 1], step.in1, h);
    InLevel(Minus(w.db.current[step.level + 1], step.in1), h, y);
  }

  /** What the inputs hold is not also outside them. */
  lemma NotBoth(w: World, step: Step, f: File, e: Entry)
    requires Chosen(w, step) && f in step.in1 && e in f.entries
    ensures e !in Rest(w, step)
  {
    InLevel(step.in1, f, e);
    InputsAreOld(w, step.level, step.in0, step.in1, step.lo, step.hi, e);
    MemoryIsNew(w, e);
    NotBothInTables(w.db.current, step.level, step.in0, step.in1, step.lo, step.hi, f, e);
  }

  lemma NotBothInTables(v: Version, level: nat, in0: Level, in1: Level, lo: UserKey, hi: UserKey, f: File, e: Entry)
    requires Shape(v) && Aged(v) && Selection(v, level, in0, in1, lo, hi) && f in in1 && e in f.entries
    ensures e !in RestEntries(v, level, in0, in1)
  {
    Selected(v, level, in0, in1, lo, hi);
    InLevel(v[level + 1], f, e);
    NotInOtherLevels(v, level, in0, e);
    FilesAbove(v, level);
    NotInLeftOut(v[level + 1], in1, f, e);
  }

  lemma NotInLeftOut(l: Level, in1: Level, f: File, e: Entry)
    requires FilesOk(l) && PairwiseApart(FileSet(l)) && f in l && f in in1 && e in f.entries
    ensures e !in LevelEntries(Minus(l, in1))
  {
    if e in LevelEntries(Minus(l, in1)) {
      var h :| h in Minus(l, in1) && e in h.entries;
      MinusMember(l, in1, h);
      ApartShareNothing(l, f, h, e);
    }
  }

  lemma NotInOtherLevels(v: Version, level: nat, in0: Level, e: Entry)
    requires Aged(v) && level + 1 < NUM_LEVELS && e in LevelEntries(v[level + 1])
    ensures forall i: nat | i < NUM_LEVELS && i != level + 1 :: e !in LevelEntries(v[i])
    ensures e !in LevelEntries(Minus(v[level], in0))
  {
    forall i: nat | i < NUM_LEVELS && i != level + 1 ensures e !in LevelEntries(v[i]) {
      assert i < level + 1 ==> Above(LevelEntries(v[i]), LevelEntries(v[level + 1]));
      assert i > level + 1 ==> Above(LevelEntries(v[level + 1]), LevelEntries(v[i]));
    }
    MinusSet(v[level], in0);
  }

  lemma ApartShareNothing(l: Level, f: File, h: File, e: Entry)
    requires FilesOk(l) && PairwiseApart(FileSet(l)) && f in l && h in l && f != h && e in f.entries
    ensures e !in h.entries
  {
    assert f in FileSet(l) && h in FileSet(l);
    if e in h.entries {
      EntryInRange(f, e);
      EntryInRange(h, e);
    }
  }

  lemma NewerFirst(a: IKey, b: IKey)
    requires a.user == b.user && Leq(a, b)
    ensures a.sequence >= b.sequence
  {
  }

  lemma NewestFirst(a: IKey, b: IKey)
    requires a.user == b.user && a.sequence > b.sequence
    ensures Less(a, b)
  {
  }

  /** An uncovered value is the first entry of the boundary file. */
  lemma ResurrectedIsFirst(w: World, step: Step, e: Entry, x: Entry, f: File, g: File)
    requires Chosen(w, step) && f in step.in1 && e in f.entries
    requires Newest(Rest(w, step), e.key.user, e.key.sequence, x)
    requires g in w.db.current[step.level + 1] && g !in step.in1 && x in g.entries
             && f.largest.user == g.smallest.user == e.key.user
    ensures g.smallest == x.key
  {
    var y, _ := FileEnds(w.db.current[step.level + 1], g);
    LeftOutInRest(w, step, g, y);
    LeftOutInRest(w, step, g, x);
    StartIsOlder(w, step, f, e, g);
    EntryInRange(g, x);
    NewerFirst(y.key, x.key);
    SameEntry(w, x, y);
  }

  lemma SameEntry(w: World, a: Entry, b: Entry)
    requires Contents(w) && a in DbEntries(w.db) && b in DbEntries(w.db) && a.key.sequence == b.key.sequence
    ensures a == b
  {
    OneEntryEach(w);
  }

  lemma FirstIsBoundary(w: World, step: Step, e: Entry, x: Entry, f: File, g: File)
    requires Chosen(w, step) && f in step.in1 && e in f.entries
    requires Newest(Rest(w, step), e.key.user, e.key.sequence, x)
    requires g in w.db.current[step.level + 1] && g !in step.in1 && f.largest.user == g.smallest.user == e.key.user
             && g.smallest == x.key
    requires x in DbEntries(w.db)
    ensures BoundaryAbove(w.db.current, step.level, step.in1, f, g)
  {
    forall h | h in w.db.current[step.level + 1] && h !in step.in1 && h.smallest.user == g.smallest.user
      ensures Leq(g.smallest, h.smallest)
    {
      FirstBefore(w, step, e, x, f, h);
    }
  }

  lemma FirstBefore(w: World, step: Step, e: Entry, x: Entry, f: File, h: File)
    requires Chosen(w, step) && f in step.in1 && e in f.entries && x in DbEntries(w.db)
    requires Newest(Rest(w, step), e.key.user, e.key.sequence, x)
    requires h in w.db.current[step.level + 1] && h !in step.in1 && f.largest.user == h.smallest.user == e.key.user
    ensures Leq(x.key, h.smallest)
  {
    var z, _ := FileEnds(w.db.current[step.level + 1], h);
    LeftOutInRest(w, step, h, z);
    StartIsOlder(w, step, f, e, h);
    if z.key.sequence < x.key.sequence {
      NewestFirst(x.key, z.key);
    } else {
      SameEntry(w, x, z);
    }
  }

  lemma ResurrectsUncovers(w: World, step: Step, e: Entry, x: Entry)
    requires Chosen(w, step)
    requires Resurrects(Rest(w, step), InputEntries(step.in0, step.in1), SmallestSnapshot(w.db),
               BaseKeys(w.db.current, step.level), e, x)
    ensures exists f, g :: Uncovers(w, step, f, g, e)
  {
    AllAre(w, step);
    UntouchedInDb(w, step.level, step.in0, step.in1, step.lo, step.hi, e, x);
    var f, g := OlderStartsFile(w, step, e, x);
    ResurrectedIsFirst(w, step, e, x, f, g);
    FirstIsBoundary(w, step, e, x, f, g);
    assert Uncovers(w, step, f, g, e);
  }

  lemma UncoveredIsNewest(w: World, step: Step, f: File, g: File, e: Entry, x: Entry, z: Entry)
    requires Chosen(w, step) && Uncovers(w, step, f, g, e) && x.key == g.smallest
    requires z in Rest(w, step) && Matches(z, e.key.user, e.key.sequence)
    ensures z.key.sequence <= x.key.sequence
  {
    AllAre(w, step);
    OneEntryEach(w);
    NotBoth(w, step, f, e);
    assert z.key.sequence != e.key.sequence;
    InLevel(step.in1, f, e);
    var _, h := OlderStartsFile(w, step, e, z);
    EntryInRange(h, z);
    NewerFirst(g.smallest, h.smallest);
    NewerFirst(h.smallest, z.key);
  }

  lemma UncoversResurrects(w: World, step: Step, f: File, g: File, e: Entry)
    requires Chosen(w, step) && Uncovers(w, step, f, g, e)
    ensures exists x :: Resurrects(Rest(w, step), InputEntries(step.in0, step.in1), SmallestSnapshot(w.db),
                                   BaseKeys(w.db.current, step.level), e, x)
  {
    AllAre(w, step);
    InLevel(step.in1, f, e);
    var x, _ := FileEnds(w.db.current[step.level + 1], g);
    LeftOutInRest(w, step, g, x);
    StartIsOlder(w, step, f, e, g);
    forall z | z in Rest(w, step) && Matches(z, e.key.user, e.key.sequence) ensures z.key.sequence <= x.key.sequence {
      UncoveredIsNewest(w, step, f, g, e, x, z);
    }
    assert Resurrects(Rest(w, step), InputEntries(step.in0, step.in1), SmallestSnapshot(w.db),
             BaseKeys(w.db.current, step.level), e, x);
  }

  /** A chosen compaction is safe exactly when no boundary file one level down starts with a value that the deletion
      read by the oldest snapshot hides. */
  lemma SafeExactly(w: World, step: Step)
    requires Chosen(w, step)
    ensures Safe(w, step) <==> forall f, g, e :: !Uncovers(w, step, f, g, e)
  {
    if Safe(w, step) {
      forall f, g, e ensures !Uncovers(w, step, f, g, e) {
        if Uncovers(w, step, f, g, e) {
          UncoversIsUnsafe(w, step, f, g, e);
        }
      }
    } else {
      var f, g, e := UnsafeUncovers(w, step);
    }
  }

  lemma UncoversIsUnsafe(w: World, step: Step, f: File, g: File, e: Entry)
    requires Chosen(w, step) && Uncovers(w, step, f, g, e)
    ensures !Safe(w, step)
  {
    UncoversResurrects(w, step, f, g, e);
  }

  lemma UnsafeUncovers(w: World, step: Step) returns (f: File, g: File, e: Entry)
    requires Chosen(w, step) && !Safe(w, step)
    ensures Uncovers(w, step, f, g, e)
  {
    var x;
    e, x :| Resurrects(Untouched(w.db, step.level, step.in0, step.in1), InputEntries(step.in0, step.in1),
                       SmallestSnapshot(w.db), BaseKeys(w.db.current, step.level), e, x);
    ResurrectsUncovers(w, step, e, x);
    f, g :| Uncovers(w, step, f, g, e);
  }

  /** So a compaction keeps every read at or after the oldest snapshot exactly under that condition. */
  lemma CompactionKeepsReadsExactly(w: World, step: Step, w': World)
    requires Inv(w) && step.Compact? && Next(w, step, w')
    ensures SameReads(DbEntries(w.db), DbEntries(w'.db), SmallestSnapshot(w.db)) <==>
            forall f, g, e :: !Uncovers(w, step, f, g, e)
  {
    CompactionExact(w, step, w');
    SafeExactly(w, step);
  }

  /** No file left in `level + 1` starts with the user key that ends an input file there. */
  ghost predicate ClosedAbove(v: Version, level: nat, in1: Level)
    requires level + 1 < NUM_LEVELS
  {
    forall f, g | f in in1 && g in v[level + 1] && g !in in1 :: f.largest.user != g.smallest.user
  }

  /** With boundary files taken at `level + 1` too, as they are at `level`, every compaction would be safe. */
  lemma ClosedIsSafe(w: World, step: Step)
    requires Chosen(w, step) && ClosedAbove(w.db.current, step.level, step.in1)
    ensures Safe(w, step)
  {
    forall f, g, e ensures !Uncovers(w, step, f, g, e) {
      ClosedUncoversNothing(w, step, f, g, e);
    }
    SafeExactly(w, step);
  }

  lemma ClosedUncoversNothing(w: World, step: Step, f: File, g: File, e: Entry)
    requires step.Compact? && step.level + 1 < NUM_LEVELS && ClosedAbove(w.db.current, step.level, step.in1)
    ensures !Uncovers(w, step, f, g, e)
  {
  }
}
