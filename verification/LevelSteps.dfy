/** Why a flush, a trivial move and a compaction leave a well-shaped, age-ordered version behind. */
module LevelSteps {
  import opened DbFormat
  import opened Visibility
  import opened Files
  import opened Inputs

  ghost predicate SortedLevels(v: Version) {
    forall i: nat | i < NUM_LEVELS :: SortedFiles(v[i])
  }

  lemma AboveSubset(A: set<Entry>, B: set<Entry>, A': set<Entry>, B': set<Entry>)
    requires Above(A, B) && A' <= A && B' <= B
    ensures Above(A', B')
  {
  }

  lemma LevelInVersion(v: Version, i: nat)
    requires i < NUM_LEVELS
    ensures LevelEntries(v[i]) <= VersionEntries(v) && FileSet(v[i]) <= VersionFiles(v)
  {
  }

  lemma SameSetSameEntries(l: Level, m: Level)
    requires FileSet(l) == FileSet(m)
    ensures LevelEntries(l) == LevelEntries(m) && (FilesOk(l) ==> FilesOk(m))
  {
    assert forall f :: f in l <==> f in FileSet(l);
    assert forall f :: f in m <==> f in FileSet(m);
  }

  /** Entries of a level made of the files of two others. */
  lemma UnionEntries(l: Level, a: Level, b: Level)
    requires FileSet(l) == FileSet(a) + FileSet(b)
    ensures LevelEntries(l) == LevelEntries(a) + LevelEntries(b)
    ensures FilesOk(a) && FilesOk(b) ==> FilesOk(l)
  {
    assert forall f :: f in l <==> f in FileSet(l);
    assert forall f :: f in a <==> f in FileSet(a);
    assert forall f :: f in b <==> f in FileSet(b);
  }

  lemma MinusSet(l: Level, taken: Level)
    ensures FileSet(Minus(l, taken)) == FileSet(l) - FileSet(taken)
    ensures LevelEntries(Minus(l, taken)) <= LevelEntries(l)
    ensures (forall f | f in taken :: f in l) ==> LevelEntries(l) == LevelEntries(Minus(l, taken)) + LevelEntries(taken)
    ensures FilesOk(l) ==> FilesOk(Minus(l, taken))
  {
    forall f ensures f in Minus(l, taken) <==> f in l && f !in taken {
      MinusMember(l, taken, f);
    }
  }

  // ---- Flush ----

  /** `v'` is `v` with file `f` added to `level`. */
  ghost predicate Adds(v: Version, v': Version, level: nat, f: File) {
    && level < NUM_LEVELS && SortedLevels(v')
    && FileSet(v'[level]) == FileSet(v[level]) + {f}
    && forall i: nat | i < NUM_LEVELS && i != level :: v'[i] == v[i]
  }

  /** A flush may go to `level` (db/version_set.cc:491-516). */
  ghost predicate FlushLevel(v: Version, level: nat, f: File) {
    level == 0 || ClearDownTo(v, level, f.smallest.user, f.largest.user)
  }

  lemma AddsEntries(v: Version, v': Version, level: nat, f: File)
    requires Adds(v, v', level, f)
    ensures LevelEntries(v'[level]) == LevelEntries(v[level]) + FileEntries(f)
    ensures VersionEntries(v') == VersionEntries(v) + FileEntries(f)
    ensures VersionFiles(v') == VersionFiles(v) + {f}
  {
    UnionEntries(v'[level], v[level], [f]);
    assert LevelEntries([f]) == FileEntries(f);
    forall e ensures e in VersionEntries(v') <==> e in VersionEntries(v) + FileEntries(f) {
      assert e in LevelEntries(v'[level]) <==> e in LevelEntries(v[level]) || e in FileEntries(f);
      if e in FileEntries(f) {
        assert e in LevelEntries(v'[level]);
      }
    }
    forall g ensures g in VersionFiles(v') <==> g in VersionFiles(v) + {f} {
      assert g in v'[level] <==> g in FileSet(v'[level]);
      assert g in v[level] <==> g in FileSet(v[level]);
    }
  }

  lemma ClearOfEntries(v: Version, i: nat, level: nat, f: File)
    requires Shape(v) && FileOk(f) && ClearDownTo(v, level, f.smallest.user, f.largest.user) && i <= level
    ensures forall e, x | e in FileEntries(f) && x in LevelEntries(v[i]) :: e.key.user != x.key.user
  {
    forall e, x | e in FileEntries(f) && x in LevelEntries(v[i]) ensures e.key.user != x.key.user {
      var g :| g in v[i] && x in g.entries;
      assert !Overlaps(g, Some(f.smallest.user), Some(f.largest.user));
      EntryInRange(f, e);
      EntryInRange(g, x);
    }
  }

  /** One level after a file is added where nothing meets it. */
  lemma DisjointAfterAdd(l: Level, l': Level, f: File)
    requires FilesOk(l) && Disjoint(l) && FileOk(f) && SortedFiles(l') && FileSet(l') == FileSet(l) + {f}
    requires forall g | g in l :: !Overlaps(g, Some(f.smallest.user), Some(f.largest.user))
    ensures Disjoint(l')
  {
    UnionEntries(l', l, [f]);
    DisjointIsApart(l);
    forall g, h | g in FileSet(l') && h in FileSet(l') && g != h ensures Apart(g, h) {
      if g == f || h == f {
        var o := if g == f then h else g;
        assert o in l;
        assert !Overlaps(o, Some(f.smallest.user), Some(f.largest.user));
        FileRange(o);
        FileRange(f);
      }
    }
    ApartIsDisjoint(l');
  }

  lemma FlushKeepsShape(v: Version, v': Version, level: nat, f: File)
    requires Shape(v) && FileOk(f) && Adds(v, v', level, f) && FlushLevel(v, level, f)
    requires forall g | g in VersionFiles(v) :: g.number < f.number
    ensures Shape(v')
  {
    AddsEntries(v, v', level, f);
    UnionEntries(v'[level], v[level], [f]);
    NumbersAfterAdd(VersionFiles(v), f);
    if level > 0 {
      DisjointAfterAdd(v[level], v'[level], f);
    }
  }

  lemma NumbersAfterAdd(s: set<File>, f: File)
    requires NumbersName(s) && forall g | g in s :: g.number < f.number
    ensures NumbersName(s + {f})
  {
  }

  lemma ZeroAfterAdd(l: Level, l': Level, f: File)
    requires ZeroAged(l) && FileSet(l') == FileSet(l) + {f}
    requires (forall g | g in l :: g.number < f.number) && Above(FileEntries(f), LevelEntries(l))
    ensures ZeroAged(l')
  {
    forall g, h | g in l' && h in l' && g.number > h.number ensures Above(FileEntries(g), FileEntries(h)) {
      assert g in FileSet(l') && h in FileSet(l');
      if g == f {
        assert h in l;
        assert FileEntries(h) <= LevelEntries(l);
      }
    }
  }

  lemma FlushKeepsAge(v: Version, v': Version, level: nat, f: File)
    requires Shape(v) && Aged(v) && FileOk(f) && Adds(v, v', level, f) && FlushLevel(v, level, f)
    requires forall g | g in VersionFiles(v) :: g.number < f.number
    requires Above(FileEntries(f), VersionEntries(v))
    ensures Aged(v')
  {
    AddsEntries(v, v', level, f);
    forall i: nat, j: nat | i < j < NUM_LEVELS ensures Above(LevelEntries(v'[i]), LevelEntries(v'[j])) {
      assert Above(LevelEntries(v[i]), LevelEntries(v[j]));
      if i == level {
        LevelInVersion(v, j);
        AboveSubset(FileEntries(f), VersionEntries(v), FileEntries(f), LevelEntries(v[j]));
      } else if j == level {
        ClearOfEntries(v, i, level, f);
        assert Above(LevelEntries(v[i]), FileEntries(f));
      }
    }
    if level == 0 {
      LevelInVersion(v, 0);
      ZeroAfterAdd(v[0], v'[0], f);
    }
  }

  // ---- Trivial move and compaction ----

  /** `v'` is `v` with `in0` and `in1` replaced by `outs` at `level + 1`. */
  ghost predicate Replaces(v: Version, v': Version, level: nat, in0: Level, in1: Level, outs: Level) {
    && level + 1 < NUM_LEVELS && SortedLevels(v')
    && FileSet(v'[level]) == FileSet(v[level]) - FileSet(in0)
    && FileSet(v'[level + 1]) == (FileSet(v[level + 1]) - FileSet(in1)) + FileSet(outs)
    && forall i: nat | i < NUM_LEVELS && i != level && i != level + 1 :: v'[i] == v[i]
  }

  ghost function InputEntries(in0: Level, in1: Level): set<Entry> {
    LevelEntries(in0) + LevelEntries(in1)
  }

  /** The entries of the version that are not inputs. */
  ghost function RestEntries(v: Version, level: nat, in0: Level, in1: Level): set<Entry>
    requires level + 1 < NUM_LEVELS
  {
    (set i: nat, e | i < NUM_LEVELS && i != level && i != level + 1 && e in LevelEntries(v[i]) :: e)
    + LevelEntries(Minus(v[level], in0)) + LevelEntries(Minus(v[level + 1], in1))
  }

  lemma Selected(v: Version, level: nat, in0: Level, in1: Level, lo: UserKey, hi: UserKey)
    requires Selection(v, level, in0, in1, lo, hi)
    ensures forall f | f in in1 :: f in v[level + 1] && Overlaps(f, Some(lo), Some(hi))
    ensures forall f | f in v[level + 1] && f !in in1 :: !Overlaps(f, Some(lo), Some(hi))
  {
    forall f ensures f in in1 <==> f in v[level + 1] && Overlaps(f, Some(lo), Some(hi)) {
      OverlappingMember(v[level + 1], Some(lo), Some(hi), f);
    }
  }

  lemma ReplacedLevels(v: Version, v': Version, level: nat, in0: Level, in1: Level, outs: Level)
    requires Replaces(v, v', level, in0, in1, outs)
    ensures LevelEntries(v'[level]) == LevelEntries(Minus(v[level], in0))
    ensures LevelEntries(v'[level + 1]) == LevelEntries(Minus(v[level + 1], in1)) + LevelEntries(outs)
    ensures FilesOk(v[level]) ==> FilesOk(v'[level])
    ensures FilesOk(v[level + 1]) && FilesOk(outs) ==> FilesOk(v'[level + 1])
  {
    MinusSet(v[level], in0);
    MinusSet(v[level + 1], in1);
    SameSetSameEntries(Minus(v[level], in0), v'[level]);
    UnionEntries(v'[level + 1], Minus(v[level + 1], in1), outs);
  }

  /** The entries of the version before and after. */
  lemma ReplacedEntries(v: Version, v': Version, level: nat, in0: Level, in1: Level, outs: Level, lo: UserKey,
                        hi: UserKey)
    requires Selection(v, level, in0, in1, lo, hi) && Replaces(v, v', level, in0, in1, outs)
    ensures VersionEntries(v) == RestEntries(v, level, in0, in1) + InputEntries(in0, in1)
    ensures VersionEntries(v') == RestEntries(v, level, in0, in1) + LevelEntries(outs)
  {
    Selected(v, level, in0, in1, lo, hi);
    MinusSet(v[level], in0);
    MinusSet(v[level + 1], in1);
    ReplacedLevels(v, v', level, in0, in1, outs);
    SplitEntries(v, level);
    SplitEntries(v', level);
    var others := set i: nat, e | i < NUM_LEVELS && i != level && i != level + 1 && e in LevelEntries(v[i]) :: e;
    var others' := set i: nat, e | i < NUM_LEVELS && i != level && i != level + 1 && e in LevelEntries(v'[i]) :: e;
    assert others == others';
  }

  lemma SplitEntries(v: Version, level: nat)
    requires level + 1 < NUM_LEVELS
    ensures VersionEntries(v)
      == (set i: nat, e | i < NUM_LEVELS && i != level && i != level + 1 && e in LevelEntries(v[i]) :: e)
         + LevelEntries(v[level]) + LevelEntries(v[level + 1])
  {
  }

  /** A file left out of `level + 1` lies wholly before or wholly after the inputs. */
  lemma LeftOutApart(l: Level, in0: Level, in1: Level, lo: UserKey, hi: UserKey, g: File, e: Entry)
    requires FilesOk(l) && PairwiseApart(FileSet(l)) && FilesOk(in0)
    requires forall f | f in in0 :: lo <= f.smallest.user && f.largest.user <= hi
    requires forall f | f in in1 :: f in l && Overlaps(f, Some(lo), Some(hi))
    requires g in l && g !in in1 && !Overlaps(g, Some(lo), Some(hi)) && e in InputEntries(in0, in1)
    ensures g.largest.user < lo ==> Less(g.largest, e.key)
    ensures g.largest.user >= lo ==> hi < g.smallest.user && Less(e.key, g.smallest)
  {
    FileRange(g);
    if e in LevelEntries(in0) {
      var f :| f in in0 && e in f.entries;
      EntryInRange(f, e);
    } else {
      var f :| f in in1 && e in f.entries;
      EntryInRange(f, e);
      assert f in FileSet(l) && g in FileSet(l) && Apart(f, g);
    }
  }

  lemma CompactionKeepsShape(v: Version, v': Version, level: nat, in0: Level, in1: Level, outs: Level, lo: UserKey,
                             hi: UserKey)
    requires Shape(v) && Selection(v, level, in0, in1, lo, hi) && Replaces(v, v', level, in0, in1, outs)
    requires FilesOk(outs) && Disjoint(outs) && LevelEntries(outs) <= InputEntries(in0, in1)
    requires NumbersName(VersionFiles(v) + FileSet(outs))
    ensures Shape(v')
  {
    ReplacedLevels(v, v', level, in0, in1, outs);
    assert Disjoint(v'[level + 1]) by {
      Selected(v, level, in0, in1, lo, hi);
      OutputsApart(v[level + 1], in0, in1, outs, lo, hi);
      ApartIsDisjoint(v'[level + 1]);
    }
    if level > 0 {
      DisjointIsApart(v[level]);
      ApartIsDisjoint(v'[level]);
    }
    ReplacedFiles(v, v', level, in0, in1, outs);
  }

  lemma ReplacedFiles(v: Version, v': Version, level: nat, in0: Level, in1: Level, outs: Level)
    requires Replaces(v, v', level, in0, in1, outs)
    ensures VersionFiles(v') <= VersionFiles(v) + FileSet(outs)
  {
    forall f | f in VersionFiles(v') ensures f in VersionFiles(v) + FileSet(outs) {
      var i: nat :| i < NUM_LEVELS && f in v'[i];
      assert f in FileSet(v'[i]);
      if f !in FileSet(outs) {
        assert f in v[i];
      }
    }
  }

  lemma OutputsApart(l: Level, in0: Level, in1: Level, outs: Level, lo: UserKey, hi: UserKey)
    requires FilesOk(l) && Disjoint(l) && FilesOk(in0)
    requires forall f | f in in0 :: lo <= f.smallest.user && f.largest.user <= hi
    requires forall f | f in in1 :: f in l && Overlaps(f, Some(lo), Some(hi))
    requires forall f | f in l && f !in in1 :: !Overlaps(f, Some(lo), Some(hi))
    requires FilesOk(outs) && Disjoint(outs) && LevelEntries(outs) <= InputEntries(in0, in1)
    ensures PairwiseApart((FileSet(l) - FileSet(in1)) + FileSet(outs))
  {
    DisjointIsApart(l);
    DisjointIsApart(outs);
    forall g, o | g in FileSet(l) - FileSet(in1) && o in outs ensures Apart(g, o) && Apart(o, g) {
      var first, last := FileEnds(outs, o);
      LeftOutApart(l, in0, in1, lo, hi, g, first);
      LeftOutApart(l, in0, in1, lo, hi, g, last);
    }
  }

  lemma CompactionKeepsAge(v: Version, v': Version, level: nat, in0: Level, in1: Level, outs: Level, lo: UserKey,
                           hi: UserKey)
    requires Shape(v) && Aged(v) && Selection(v, level, in0, in1, lo, hi) && Replaces(v, v', level, in0, in1, outs)
    requires LevelEntries(outs) <= InputEntries(in0, in1)
    ensures Aged(v')
  {
    ReplacedLevels(v, v', level, in0, in1, outs);
    Selected(v, level, in0, in1, lo, hi);
    MinusSet(v[level], in0);
    MinusSet(v[level + 1], in1);
    assert LevelEntries(in1) <= LevelEntries(v[level + 1]);
    forall i: nat, j: nat | i < j < NUM_LEVELS ensures Above(LevelEntries(v'[i]), LevelEntries(v'[j])) {
      AgePair(v, v', level, in0, i, j);
    }
    ZeroShrinks(v[0], v'[0]);
  }

  lemma ZeroShrinks(l: Level, l': Level)
    requires ZeroAged(l) && FileSet(l') <= FileSet(l)
    ensures ZeroAged(l')
  {
    assert forall f :: f in l' ==> f in FileSet(l');
  }

  lemma AgePair(v: Version, v': Version, level: nat, in0: Level, i: nat, j: nat)
    requires Aged(v) && level + 1 < NUM_LEVELS && i < j < NUM_LEVELS
    requires forall k: nat | k < NUM_LEVELS && k != level && k != level + 1 :: v'[k] == v[k]
    requires LevelEntries(v'[level]) <= LevelEntries(v[level])
    requires LevelEntries(v'[level + 1]) <= LevelEntries(in0) + LevelEntries(v[level + 1])
    requires LevelEntries(in0) <= LevelEntries(v[level])
    requires Above(LevelEntries(v'[level]), LevelEntries(in0))
    ensures Above(LevelEntries(v'[i]), LevelEntries(v'[j]))
  {
    var L, M := LevelEntries(v[level]), LevelEntries(v[level + 1]);
    if j == level + 1 {
      assert Above(LevelEntries(v[i]), M);
      if i < level {
        assert Above(LevelEntries(v[i]), L);
      }
    } else {
      assert Above(LevelEntries(v[i]), LevelEntries(v[j]));
      if i == level + 1 {
        assert Above(L, LevelEntries(v[j]));
      }
    }
  }
}
