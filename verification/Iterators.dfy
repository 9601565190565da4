/** The children of the merging iterators: over the whole database and over a compaction's inputs
    (DBImpl::NewInternalIterator, Version::AddIterators, VersionSet::MakeInputIterator). */
module Iterators {
  import opened DbFormat
  import opened Visibility
  import opened Files
  import opened Inputs
  import opened LevelSteps
  import opened CompactionLoop
  import Merging

  ghost function Keys(S: set<Entry>): set<IKey> {
    set e | e in S :: e.key
  }

  ghost predicate KeysDiffer(A: set<Entry>, B: set<Entry>) {
    Keys(A) !! Keys(B)
  }

  lemma PartDiffers(U: set<Entry>, A: set<Entry>, B: set<Entry>)
    requires KeysDiffer(U, B) && A <= B
    ensures KeysDiffer(U, A)
  {
    assert Keys(A) <= Keys(B);
  }

  lemma UnionDiffers(A: set<Entry>, B: set<Entry>, C: set<Entry>)
    requires KeysDiffer(A, C) && KeysDiffer(B, C)
    ensures KeysDiffer(A + B, C)
  {
    assert Keys(A + B) == Keys(A) + Keys(B);
  }

  lemma AboveDiffers(A: set<Entry>, B: set<Entry>)
    requires Above(A, B)
    ensures KeysDiffer(A, B) && KeysDiffer(B, A)
  {
  }

  /** Sorted runs with keys of their own that together hold `U`. */
  ghost predicate Runs(list: seq<seq<Entry>>, U: set<Entry>) {
    && Merging.AllSorted(list) && Merging.DistinctRuns(list)
    && (forall k, e | 0 <= k < |list| && e in list[k] :: e in U)
    && (forall e | e in U :: exists k :: 0 <= k < |list| && e in list[k])
  }

  lemma AddRun(list: seq<seq<Entry>>, U: set<Entry>, run: seq<Entry>)
    requires Runs(list, U) && Sorted(run) && KeysDiffer(U, ToSet(run))
    ensures Runs(list + [run], U + ToSet(run))
  {
    var r := list + [run];
    forall a, b, x: Entry, y: Entry | 0 <= a < b < |r| && x in r[a] && y in r[b] ensures x.key != y.key {
      assert x in list[a];
      if b == |list| {
        assert x.key in Keys(U) && y.key in Keys(ToSet(run));
      }
    }
    forall e | e in U + ToSet(run) ensures exists k :: 0 <= k < |r| && e in r[k] {
      if e in U {
        var k :| 0 <= k < |list| && e in list[k];
        assert e in r[k];
      } else {
        assert e in r[|list|];
      }
    }
  }

  /** Files one after the other make one sorted run. */
  lemma {:induction false} ConcatSorted(files: Level)
    requires FilesOk(files) && Disjoint(files)
    ensures Sorted(Concat(files))
  {
    if files != [] {
      var n := |files| - 1;
      var init, last := files[..n], files[n];
      ConcatSorted(init);
      ConcatIsLevel(init);
      var s, t := Concat(init), last.entries;
      forall i, j | 0 <= i < |s| && 0 <= j < |t| ensures Less(s[i].key, t[j].key) {
        assert s[i] in ToSet(s);
        var f :| f in init && s[i] in f.entries;
        var k :| 0 <= k < n && files[k] == f;
        assert FileOk(f) && FileOk(last) && Less(files[k].largest, last.smallest);
        EntryInRange(f, s[i]);
        EntryInRange(last, t[j]);
      }
      assert FileOk(last);
      SortedJoin(s, t);
    }
  }

  lemma SortedJoin(s: seq<Entry>, t: seq<Entry>)
    requires Sorted(s) && Sorted(t) && forall i, j | 0 <= i < |s| && 0 <= j < |t| :: Less(s[i].key, t[j].key)
    ensures Sorted(s + t)
  {
  }

  /** The file at `i` shares no key with those before it. */
  lemma ZeroDiffers(files: Level, i: nat)
    requires ZeroAged(files) && NumbersName(FileSet(files)) && SortedFiles(files) && i < |files|
    ensures KeysDiffer(LevelEntries(files[..i]), FileEntries(files[i]))
  {
    forall x, y | x in LevelEntries(files[..i]) && y in FileEntries(files[i]) ensures x.key != y.key {
      var f :| f in files[..i] && x in f.entries;
      var j :| 0 <= j < i && files[j] == f;
      assert FileBefore(files[j], files[i]);
      assert f in FileSet(files) && files[i] in FileSet(files) && f in files && files[i] in files;
      if f.number > files[i].number {
        assert Above(FileEntries(f), FileEntries(files[i]));
      } else {
        assert Above(FileEntries(files[i]), FileEntries(f));
      }
    }
  }

  lemma FileDiffers(files: Level, i: nat, U: set<Entry>)
    requires FilesOk(files) && ZeroAged(files) && NumbersName(FileSet(files)) && SortedFiles(files) && i < |files|
    requires KeysDiffer(U, LevelEntries(files))
    ensures Sorted(files[i].entries) && KeysDiffer(U + LevelEntries(files[..i]), ToSet(files[i].entries))
    ensures U + LevelEntries(files[..i + 1]) == (U + LevelEntries(files[..i])) + ToSet(files[i].entries)
  {
    var run := files[i].entries;
    ZeroDiffers(files, i);
    assert files[i] in files;
    forall e | e in ToSet(run) ensures e in LevelEntries(files) {
      InLevel(files, files[i], e);
    }
    PartDiffers(U, ToSet(run), LevelEntries(files));
    UnionDiffers(U, LevelEntries(files[..i]), ToSet(run));
    OneMoreFile(files, i);
  }

  lemma OneMoreFile(files: Level, i: nat)
    requires i < |files|
    ensures LevelEntries(files[..i + 1]) == LevelEntries(files[..i]) + ToSet(files[i].entries)
  {
    assert files[..i + 1] == files[..i] + [files[i]];
    UnionEntries(files[..i + 1], files[..i], [files[i]]);
    assert LevelEntries([files[i]]) == ToSet(files[i].entries);
  }

  /** One iterator for each file of level 0. */
  method AddFiles(list: seq<seq<Entry>>, files: Level, ghost U: set<Entry>) returns (r: seq<seq<Entry>>)
    requires FilesOk(files) && ZeroAged(files) && NumbersName(FileSet(files)) && SortedFiles(files)
    requires Runs(list, U) && KeysDiffer(U, LevelEntries(files))
    ensures Runs(r, U + LevelEntries(files))
  {
    r := list;
    assert U + LevelEntries(files[..0]) == U;
    for i := 0 to |files|
      invariant Runs(r, U + LevelEntries(files[..i]))
    {
      FileDiffers(files, i, U);
      AddRun(r, U + LevelEntries(files[..i]), files[i].entries);
      r := r + [files[i].entries];
    }
    assert files[..|files|] == files;
  }

  /** One iterator running through the files of a deeper level. */
  method AddConcatenation(list: seq<seq<Entry>>, files: Level, ghost U: set<Entry>) returns (r: seq<seq<Entry>>)
    requires FilesOk(files) && Disjoint(files) && Runs(list, U) && KeysDiffer(U, LevelEntries(files))
    ensures Runs(r, U + LevelEntries(files))
  {
    ConcatSorted(files);
    ConcatIsLevel(files);
    AddRun(list, U, Concat(files));
    r := list + [Concat(files)];
  }

  /** The entries of the first `n` levels. */
  ghost function UpTo(v: Version, n: nat): set<Entry>
    requires n <= NUM_LEVELS
  {
    set i: nat, e | i < n && e in LevelEntries(v[i]) :: e
  }

  lemma UpToNext(v: Version, n: nat)
    requires n < NUM_LEVELS && Aged(v)
    ensures UpTo(v, n + 1) == UpTo(v, n) + LevelEntries(v[n]) && KeysDiffer(UpTo(v, n), LevelEntries(v[n]))
  {
    forall x, y | x in UpTo(v, n) && y in LevelEntries(v[n]) ensures x.key != y.key {
      var i: nat :| i < n && x in LevelEntries(v[i]);
      assert Above(LevelEntries(v[i]), LevelEntries(v[n]));
    }
  }

  /** Version::AddIterators: each file of level 0, then each deeper level as a whole. */
  method AddIterators(list: seq<seq<Entry>>, v: Version, ghost U: set<Entry>) returns (r: seq<seq<Entry>>)
    requires Shape(v) && Aged(v) && Runs(list, U) && KeysDiffer(U, VersionEntries(v))
    ensures Runs(r, U + VersionEntries(v))
  {
    r := list;
    UpToEnds(v, U);
    for level := 0 to NUM_LEVELS
      invariant Runs(r, U + UpTo(v, level))
    {
      r := AddLevel(r, v, level, U);
    }
  }

  lemma UpToEnds(v: Version, U: set<Entry>)
    ensures U + UpTo(v, 0) == U && U + UpTo(v, NUM_LEVELS) == U + VersionEntries(v)
  {
    assert UpTo(v, NUM_LEVELS) == VersionEntries(v);
  }

  method AddLevel(list: seq<seq<Entry>>, v: Version, level: nat, ghost U: set<Entry>) returns (r: seq<seq<Entry>>)
    requires Shape(v) && Aged(v) && level < NUM_LEVELS && KeysDiffer(U, VersionEntries(v))
    requires Runs(list, U + UpTo(v, level))
    ensures Runs(r, U + UpTo(v, level + 1))
  {
    UpToNext(v, level);
    LevelAdds(v, level, U);
    if v[level] == [] {
      r := list;
    } else if level == 0 {
      NamedInLevel(v, 0);
      r := AddFiles(list, v[0], U + UpTo(v, 0));
    } else {
      r := AddConcatenation(list, v[level], U + UpTo(v, level));
    }
  }

  lemma NamedInLevel(v: Version, level: nat)
    requires NumbersName(VersionFiles(v)) && level < NUM_LEVELS
    ensures NumbersName(FileSet(v[level]))
  {
    assert forall f | f in FileSet(v[level]) :: f in VersionFiles(v);
  }

  lemma LevelAdds(v: Version, level: nat, U: set<Entry>)
    requires level < NUM_LEVELS && KeysDiffer(U, VersionEntries(v))
    requires UpTo(v, level + 1) == UpTo(v, level) + LevelEntries(v[level])
             && KeysDiffer(UpTo(v, level), LevelEntries(v[level]))
    ensures U + UpTo(v, level + 1) == (U + UpTo(v, level)) + LevelEntries(v[level])
    ensures KeysDiffer(U + UpTo(v, level), LevelEntries(v[level]))
    ensures v[level] == [] ==> U + UpTo(v, level + 1) == U + UpTo(v, level)
  {
    LevelInVersion(v, level);
    PartDiffers(U, LevelEntries(v[level]), VersionEntries(v));
    UnionDiffers(U, UpTo(v, level), LevelEntries(v[level]));
    if v[level] == [] {
      assert LevelEntries(v[level]) == {};
    }
  }

  /** Drive a merging iterator from first to last. */
  method Drain(list: seq<seq<Entry>>, ghost U: set<Entry>) returns (all: seq<Entry>)
    requires Runs(list, U)
    ensures Sorted(all) && ToSet(all) == U
  {
    var iter := new Merging.MergingIterator(list);
    all := [];
    iter.SeekToFirst();
    while iter.current.Some?
      invariant iter.Valid() && fresh(iter) && iter.runs == list && 0 <= iter.at <= |iter.all|
                && all == iter.all[..iter.at]
      decreases |iter.all| - iter.at
    {
      var e := iter.Current();
      assert iter.all[..iter.at + 1] == all + [e];
      all := all + [e];
      iter.Next();
    }
    assert all == iter.all;
    UnionIs(iter.all, list, U);
  }

  lemma UnionIs(all: seq<Entry>, list: seq<seq<Entry>>, U: set<Entry>)
    requires Runs(list, U) && Merging.Merge(all, list)
    ensures ToSet(all) == U
  {
    Merging.Merges(all, list);
    forall e ensures e in all <==> e in U {
    }
  }

  /** VersionSet::MakeInputIterator: each input file at level 0, else one run for the inputs of each level. */
  method MakeInputIterator(v: Version, level: nat, in0: Level, in1: Level, ghost lo: UserKey, ghost hi: UserKey)
    returns (list: seq<seq<Entry>>)
    requires Shape(v) && Aged(v) && Selection(v, level, in0, in1, lo, hi) && InOrder(level == 0, in0)
    ensures Runs(list, InputEntries(in0, in1))
  {
    InputFiles(v, level, in0, in1, lo, hi);
    list := [];
    assert {} + LevelEntries(in0) == LevelEntries(in0);
    if level == 0 {
      ZeroInputs(v[0], in0);
      NamedInLevel(v, 0);
      list := AddFiles(list, in0, {});
    } else {
      list := AddConcatenation(list, in0, {});
    }
    if in1 != [] {
      list := AddConcatenation(list, in1, LevelEntries(in0));
    }
    assert in1 == [] ==> LevelEntries(in1) == {};
  }

  lemma InputFiles(v: Version, level: nat, in0: Level, in1: Level, lo: UserKey, hi: UserKey)
    requires Shape(v) && Aged(v) && Selection(v, level, in0, in1, lo, hi)
    ensures FilesOk(in0) && FilesOk(in1) && Disjoint(in1) && KeysDiffer(LevelEntries(in0), LevelEntries(in1))
  {
    Selected(v, level, in0, in1, lo, hi);
    OverlappingDisjoint(v[level + 1], Some(lo), Some(hi));
    assert Above(LevelEntries(v[level]), LevelEntries(v[level + 1]));
    assert LevelEntries(in0) <= LevelEntries(v[level]) && LevelEntries(in1) <= LevelEntries(v[level + 1]);
    AboveDiffers(LevelEntries(in0), LevelEntries(in1));
  }

  lemma ZeroInputs(files: Level, in0: Level)
    requires ZeroAged(files) && (forall f | f in in0 :: f in files)
    ensures ZeroAged(in0) && (NumbersName(FileSet(files)) ==> NumbersName(FileSet(in0)))
  {
  }
}
