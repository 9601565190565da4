/** Version edits, the Builder that applies them, and MANIFEST replay (db/version_set.cc:590-755, 801-884, 886-1000,
    1088-1116). */
module Manifest {
  import opened DbFormat
  import opened Files

  /** An edit as the engine sees it: files are what they hold.  EditCodec has the edit as its bytes say it, with
      metadata for files; ManifestBytes relates the two. */
  datatype VersionEdit = VersionEdit(
    logNumber: Option<nat>, nextFile: Option<nat>, lastSequence: Option<nat>,
    deleted: seq<(nat, nat)>, added: seq<(nat, File)>)

  ghost predicate EditOk(edit: VersionEdit) {
    (forall p | p in edit.deleted :: p.0 < NUM_LEVELS) && (forall p | p in edit.added :: p.0 < NUM_LEVELS)
  }

  ghost function Deleted(edit: VersionEdit, level: nat): set<nat> {
    set p | p in edit.deleted && p.0 == level :: p.1
  }

  ghost function Added(edit: VersionEdit, level: nat): set<File> {
    set p | p in edit.added && p.0 == level :: p.1
  }

  ghost function Numbers(s: set<File>): set<nat> {
    set f | f in s :: f.number
  }

  ghost function Without(s: set<File>, numbers: set<nat>): set<File> {
    set f | f in s && f.number !in numbers
  }

  /** What installing one edit on its own does to the files of a level. */
  ghost function AfterEdit(s: set<File>, edit: VersionEdit, level: nat): set<File> {
    Without(s, Deleted(edit, level)) + Added(edit, level)
  }

  // ---- One Builder for many edits ----

  /** A builder's record for one level: numbers deleted, files added. */
  datatype LevelState = LevelState(deleted: set<nat>, added: set<File>)

  ghost function ApplyLevel(s: LevelState, edit: VersionEdit, level: nat): LevelState {
    LevelState(s.deleted + Deleted(edit, level) - Numbers(Added(edit, level)), s.added + Added(edit, level))
  }

  ghost function Saved(base: set<File>, s: LevelState): set<File> {
    Without(base + s.added, s.deleted)
  }

  ghost function Fold(edits: seq<VersionEdit>, level: nat): LevelState {
    if edits == [] then LevelState({}, {})
    else ApplyLevel(Fold(edits[..|edits| - 1], level), edits[|edits| - 1], level)
  }

  /** Installing the edits one by one, from the empty version. */
  ghost function InstallAll(edits: seq<VersionEdit>, level: nat): set<File> {
    if edits == [] then {}
    else AfterEdit(InstallAll(edits[..|edits| - 1], level), edits[|edits| - 1], level)
  }

  /** Every file any of the edits adds at a level. */
  ghost function AllAdded(edits: seq<VersionEdit>, level: nat): set<File> {
    if edits == [] then {}
    else AllAdded(edits[..|edits| - 1], level) + Added(edits[|edits| - 1], level)
  }

  // ---- When the two agree ----

  /** Edit `i` adds the file at the level, and no later edit deletes its number there. */
  ghost predicate StandsFrom(edits: seq<VersionEdit>, level: nat, f: File, i: nat) {
    && i < |edits| && f in Added(edits[i], level)
    && forall j: nat | i < j < |edits| :: f.number !in Deleted(edits[j], level)
  }

  ghost predicate Stands(edits: seq<VersionEdit>, level: nat, f: File) {
    exists i: nat :: StandsFrom(edits, level, f, i)
  }

  /** Some edit adds the file at the level. */
  ghost predicate Comes(edits: seq<VersionEdit>, level: nat, f: File) {
    exists i: nat :: i < |edits| && f in Added(edits[i], level)
  }

  /** Wherever a number stands for some file, every file that ever came under it stands. */
  ghost predicate NoneReturns(edits: seq<VersionEdit>, level: nat) {
    forall f, g | Comes(edits, level, f) && Stands(edits, level, g) && f.number == g.number :: Stands(edits, level, f)
  }

  lemma StandsInit(edits: seq<VersionEdit>, level: nat, f: File, i: nat)
    requires edits != [] && i < |edits| - 1
    ensures StandsFrom(edits, level, f, i) <==>
            StandsFrom(edits[..|edits| - 1], level, f, i) && f.number !in Deleted(edits[|edits| - 1], level)
  {
    var n := |edits| - 1;
    assert forall j: nat | j < n :: edits[..n][j] == edits[j];
  }

  /** Installing one by one leaves the files that stand. */
  lemma {:induction false} InstalledStands(edits: seq<VersionEdit>, level: nat, f: File)
    ensures f in InstallAll(edits, level) <==> Stands(edits, level, f)
    decreases |edits|
  {
    if edits != [] {
      var n := |edits| - 1;
      InstalledStands(edits[..n], level, f);
      if i: nat :| StandsFrom(edits[..n], level, f, i) {
        StandsInit(edits, level, f, i);
      }
      if i: nat :| i < n && StandsFrom(edits, level, f, i) {
        StandsInit(edits, level, f, i);
      }
      if f in Added(edits[n], level) {
        assert StandsFrom(edits, level, f, n);
      }
    }
  }

  lemma {:induction false} AddedComes(edits: seq<VersionEdit>, level: nat, f: File)
    ensures f in AllAdded(edits, level) <==> Comes(edits, level, f)
    decreases |edits|
  {
    if edits != [] {
      var n := |edits| - 1;
      AddedComes(edits[..n], level, f);
      if i: nat :| i < n && f in Added(edits[i], level) {
        assert edits[..n][i] == edits[i];
      }
      if i: nat :| i < n && f in Added(edits[..n][i], level) {
        assert edits[..n][i] == edits[i];
      }
    }
  }

  /** The Builder holds every file that came, and has deleted exactly the numbers under which none is left. */
  lemma {:induction false} FoldHolds(edits: seq<VersionEdit>, level: nat)
    ensures Fold(edits, level).added == AllAdded(edits, level)
    ensures InstallAll(edits, level) <= AllAdded(edits, level)
    ensures forall f | f in AllAdded(edits, level) ::
              f.number !in Fold(edits, level).deleted <==> f.number in Numbers(InstallAll(edits, level))
  {
    if edits != [] {
      var init, last := edits[..|edits| - 1], edits[|edits| - 1];
      FoldHolds(init, level);
      forall f | f in AllAdded(edits, level)
        ensures f.number !in Fold(edits, level).deleted <==> f.number in Numbers(InstallAll(edits, level))
      {
        NumberAfter(InstallAll(init, level), last, level, f.number);
        if f !in AllAdded(init, level) {
          assert f.number in Numbers(Added(last, level));
        }
      }
    }
  }

  lemma NumberAfter(s: set<File>, edit: VersionEdit, level: nat, n: nat)
    ensures n in Numbers(AfterEdit(s, edit, level)) <==>
            n in Numbers(Added(edit, level)) || (n in Numbers(s) && n !in Deleted(edit, level))
  {
    if n in Numbers(s) && n !in Deleted(edit, level) {
      var f :| f in s && f.number == n;
      assert f in AfterEdit(s, edit, level);
    }
    if n in Numbers(Added(edit, level)) {
      var f :| f in Added(edit, level) && f.number == n;
      assert f in AfterEdit(s, edit, level);
    }
  }

  /** Folding all edits through one Builder and saving once gives what installing them one by one gives if and only if
      no file that was taken away returns because its number was added again for another. */
  lemma ReplayExactly(edits: seq<VersionEdit>, level: nat)
    ensures Saved({}, Fold(edits, level)) == InstallAll(edits, level) <==> NoneReturns(edits, level)
  {
    FoldHolds(edits, level);
    forall f ensures (f in InstallAll(edits, level) <==> Stands(edits, level, f))
                     && (f in AllAdded(edits, level) <==> Comes(edits, level, f))
    {
      InstalledStands(edits, level, f);
      AddedComes(edits, level, f);
    }
    SavedExactly(edits, level);
  }

  /** The same over the sets. */
  lemma SavedExactly(edits: seq<VersionEdit>, level: nat)
    requires Fold(edits, level).added == AllAdded(edits, level) && InstallAll(edits, level) <= AllAdded(edits, level)
    requires forall f | f in AllAdded(edits, level) ::
               f.number !in Fold(edits, level).deleted <==> f.number in Numbers(InstallAll(edits, level))
    ensures Saved({}, Fold(edits, level)) == InstallAll(edits, level) <==>
            forall f, g | f in AllAdded(edits, level) && g in InstallAll(edits, level) && f.number == g.number ::
              f in InstallAll(edits, level)
  {
    var saved, installed := Saved({}, Fold(edits, level)), InstallAll(edits, level);
    forall f ensures f in saved <==> f in AllAdded(edits, level) && f.number in Numbers(installed) {
    }
    forall f, g | f in AllAdded(edits, level) && g in installed && f.number == g.number ensures f in saved {
    }
    forall f | f in saved ensures exists g :: g in installed && f.number == g.number {
    }
    forall f | f in installed ensures f in saved {
    }
  }

  /** It does when a file number that comes back to a level names the same file. */
  lemma ReplayIsInstall(edits: seq<VersionEdit>, level: nat)
    requires NumbersName(AllAdded(edits, level))
    ensures Saved({}, Fold(edits, level)) == InstallAll(edits, level)
    ensures Fold(edits, level).added == AllAdded(edits, level)
  {
    FoldHolds(edits, level);
    SavedExactly(edits, level);
  }

  /** A file number that leaves a level and comes back naming another file brings the first one back. */
  lemma ReplayNeedsNames()
    ensures exists edits: seq<VersionEdit>, level: nat ::
              level < NUM_LEVELS && Saved({}, Fold(edits, level)) != InstallAll(edits, level)
  {
    var a, b := IKey(Position([1]), 1, Value), IKey(Position([2]), 2, Value);
    var f := File(5, 0, a, a, [Entry(a, [])]);
    var g := File(5, 0, b, b, [Entry(b, [])]);
    var e1 := VersionEdit(None, None, None, [], [(0, f)]);
    var e2 := VersionEdit(None, None, None, [(0, 5)], []);
    var e3 := VersionEdit(None, None, None, [], [(0, g)]);
    assert (0, f) in e1.added && f in Added(e1, 0);
    assert (0, 5) in e2.deleted && 5 in Deleted(e2, 0);
    assert (0, g) in e3.added && g in Added(e3, 0);
    ComesBack(e1, e2, e3, f, g, 0);
  }

  lemma ComesBack(e1: VersionEdit, e2: VersionEdit, e3: VersionEdit, f: File, g: File, level: nat)
    requires f in Added(e1, level) && f.number in Deleted(e2, level) && f.number !in Deleted(e3, level)
    requires f !in Added(e2, level) && f !in Added(e3, level) && g in Added(e3, level) && g.number == f.number
    ensures var edits := [e1, e2, e3]; Saved({}, Fold(edits, level)) != InstallAll(edits, level)
  {
    var edits := [e1, e2, e3];
    assert f in Added(edits[0], level) && StandsFrom(edits, level, g, 2);
    assert !StandsFrom(edits, level, f, 0) by {
      assert f.number in Deleted(edits[1], level);
    }
    assert !Stands(edits, level, f);
    ReplayExactly(edits, level);
  }

  // ---- The Builder ----

  /** Adds a file to a list kept in BySmallestKey order, as std::set::insert does. */
  method InsertFile(l: Level, f: File) returns (r: Level)
    requires SortedFiles(l) && NumbersName(FileSet(l) + {f})
    ensures SortedFiles(r) && FileSet(r) == FileSet(l) + {f}
  {
    var i := 0;
    while i < |l| && FileBefore(l[i], f)
      invariant 0 <= i <= |l|
      invariant forall j | 0 <= j < i :: FileBefore(l[j], f)
    {
      i := i + 1;
    }
    if i < |l| && !FileBefore(f, l[i]) {
      assert l[i] in FileSet(l) + {f} && f in FileSet(l) + {f};
      r := l;
    } else {
      r := l[..i] + [f] + l[i..];
      assert l == l[..i] + l[i..];
      InsertedSorted(l, i, f);
    }
  }

  lemma InsertedSorted(l: Level, i: nat, f: File)
    requires SortedFiles(l) && i <= |l|
    requires forall j | 0 <= j < i :: FileBefore(l[j], f)
    requires i < |l| ==> FileBefore(f, l[i])
    ensures SortedFiles(l[..i] + [f] + l[i..])
  {
    var r := l[..i] + [f] + l[i..];
    assert forall j | i <= j < |l| :: FileBefore(f, l[j]);
    forall a, b | 0 <= a < b < |r| ensures FileBefore(r[a], r[b]) {
      assert r[a] == if a < i then l[a] else if a == i then f else l[a - 1];
      assert r[b] == if b < i then l[b] else if b == i then f else l[b - 1];
    }
  }

  class Builder {
    const base: Version
    var deleted: seq<set<nat>>
    var added: seq<Level>

    ghost predicate Valid()
      reads this
    {
      && |deleted| == NUM_LEVELS && |added| == NUM_LEVELS
      && forall i: nat | i < NUM_LEVELS :: SortedFiles(added[i])
    }

    ghost function State(i: nat): LevelState
      requires Valid() && i < NUM_LEVELS
      reads this
    {
      LevelState(deleted[i], FileSet(added[i]))
    }

    constructor (base: Version)
      ensures Valid() && this.base == base
      ensures forall i: nat | i < NUM_LEVELS :: State(i) == LevelState({}, {})
    {
      this.base := base;
      deleted := seq(NUM_LEVELS, _ => {});
      added := seq(NUM_LEVELS, _ => []);
    }

    /** Builder::Apply: record the deletions, then the additions, which undo a deletion of the same number. */
    method Apply(edit: VersionEdit)
      requires Valid() && EditOk(edit)
      requires forall i: nat | i < NUM_LEVELS :: NumbersName(FileSet(added[i]) + Added(edit, i))
      modifies this
      ensures Valid()
      ensures forall i: nat | i < NUM_LEVELS :: State(i) == ApplyLevel(old(State(i)), edit, i)
    {
      ApplyDeletions(edit);
      ghost var dels := deleted;
      var j := 0;
      while j < |edit.added|
        invariant 0 <= j <= |edit.added| && Valid()
        invariant forall i: nat | i < NUM_LEVELS ::
          State(i) == LevelState(dels[i] - Numbers(AddedUpTo(edit, j, i)),
              old(FileSet(added[i])) + AddedUpTo(edit, j, i))
      {
        AddOne(edit, j, dels, old(added));
        j := j + 1;
      }
      assert forall i :: AddedUpTo(edit, j, i) == Added(edit, i);
    }

    method ApplyDeletions(edit: VersionEdit)
      requires Valid() && EditOk(edit)
      modifies `deleted
      ensures Valid()
      ensures forall i: nat | i < NUM_LEVELS :: deleted[i] == old(deleted[i]) + Deleted(edit, i)
    {
      var j := 0;
      while j < |edit.deleted|
        invariant 0 <= j <= |edit.deleted| && Valid()
        invariant forall i: nat | i < NUM_LEVELS :: deleted[i] == old(deleted[i])
                                                    + (set p | p in edit.deleted[..j] && p.0 == i :: p.1)
      {
        var (level, number) := edit.deleted[j];
        assert edit.deleted[j] in edit.deleted;
        deleted := deleted[level := deleted[level] + {number}];
        assert edit.deleted[..j + 1] == edit.deleted[..j] + [edit.deleted[j]];
        j := j + 1;
      }
      assert edit.deleted[..j] == edit.deleted;
    }

    method AddOne(edit: VersionEdit, j: nat, ghost dels: seq<set<nat>>, ghost was: seq<Level>)
      requires Valid() && EditOk(edit) && j < |edit.added| && |dels| == |was| == NUM_LEVELS
      requires forall i: nat | i < NUM_LEVELS :: NumbersName(FileSet(was[i]) + Added(edit, i))
      requires forall i: nat | i < NUM_LEVELS ::
        State(i) == LevelState(dels[i] - Numbers(AddedUpTo(edit, j, i)), FileSet(was[i]) + AddedUpTo(edit, j, i))
      modifies this
      ensures Valid()
      ensures forall i: nat | i < NUM_LEVELS ::
        State(i) == LevelState(dels[i] - Numbers(AddedUpTo(edit, j + 1, i)),
            FileSet(was[i]) + AddedUpTo(edit, j + 1, i))
    {
      var (level, f) := edit.added[j];
      assert edit.added[j] in edit.added;
      AddedUpToNext(edit, j);
      assert FileSet(added[level]) + {f} <= FileSet(was[level]) + Added(edit, level);
      deleted := deleted[level := deleted[level] - {f.number}];
      var l := InsertFile(added[level], f);
      added := added[level := l];
      assert dels[level] - Numbers(AddedUpTo(edit, j + 1, level)) ==
             dels[level] - Numbers(AddedUpTo(edit, j, level)) - {f.number};
    }

    /** Builder::SaveTo: merge the added files into the base files, leaving out the deleted ones. */
    method SaveTo() returns (v: Version)
      requires Valid()
      requires forall i: nat | i < NUM_LEVELS :: SortedFiles(base[i]) && Mergeable(base[i], added[i])
      ensures forall i: nat | i < NUM_LEVELS :: SortedFiles(v[i]) && FileSet(v[i]) == Saved(FileSet(base[i]), State(i))
    {
      var levels: seq<Level> := [];
      while |levels| < NUM_LEVELS
        invariant |levels| <= NUM_LEVELS
        invariant forall i: nat | i < |levels| :: SortedFiles(levels[i])
                                                  && FileSet(levels[i]) == Saved(FileSet(base[i]), State(i))
      {
        var i := |levels|;
        var l := MergeLevel(base[i], added[i], deleted[i]);
        levels := levels + [l];
      }
      v := levels;
    }
  }

  ghost function AddedUpTo(edit: VersionEdit, j: nat, level: nat): set<File>
    requires j <= |edit.added|
  {
    set p | p in edit.added[..j] && p.0 == level :: p.1
  }

  lemma AddedUpToNext(edit: VersionEdit, j: nat)
    requires j < |edit.added|
    ensures forall i: nat :: AddedUpTo(edit, j + 1, i) == AddedUpTo(edit, j, i)
                             + (if edit.added[j].0 == i then {edit.added[j].1} else {})
    ensures forall i: nat :: AddedUpTo(edit, j + 1, i) <= Added(edit, i)
  {
    assert edit.added[..j + 1] == edit.added[..j] + [edit.added[j]];
  }

  /** No file of the one list ties with a file of the other. */
  ghost predicate Mergeable(a: Level, b: Level) {
    forall f, g | f in a && g in b :: FileBefore(f, g) || FileBefore(g, f)
  }

  /** Everything in `r` comes before `f`. */
  ghost predicate AllBefore(r: Level, f: File) {
    forall g | g in r :: FileBefore(g, f)
  }

  method MaybeAddFile(r: Level, f: File, deleted: set<nat>) returns (r': Level)
    requires SortedFiles(r) && AllBefore(r, f)
    ensures SortedFiles(r') && FileSet(r') == FileSet(r) + Without({f}, deleted)
    ensures forall g | AllBefore(r, g) && FileBefore(f, g) :: AllBefore(r', g)
  {
    r' := if f.number in deleted then r else r + [f];
  }

  method MergeLevel(base: Level, added: Level, deleted: set<nat>) returns (r: Level)
    requires SortedFiles(base) && SortedFiles(added) && Mergeable(base, added)
    ensures SortedFiles(r) && FileSet(r) == Without(FileSet(base) + FileSet(added), deleted)
  {
    r := [];
    var b, a := 0, 0;
    while b < |base| || a < |added|
      invariant 0 <= b <= |base| && 0 <= a <= |added|
      invariant SortedFiles(r) && FileSet(r) == Without(FileSet(base[..b]) + FileSet(added[..a]), deleted)
      invariant b < |base| ==> AllBefore(r, base[b])
      invariant a < |added| ==> AllBefore(r, added[a])
      decreases |base| - b + |added| - a
    {
      if a == |added| || (b < |base| && FileBefore(base[b], added[a])) {
        r := MaybeAddFile(r, base[b], deleted);
        assert base[..b + 1] == base[..b] + [base[b]];
        b := b + 1;
      } else {
        r := MaybeAddFile(r, added[a], deleted);
        assert added[..a + 1] == added[..a] + [added[a]];
        a := a + 1;
      }
    }
    assert base[..b] == base && added[..a] == added;
  }
}
