/** Table files, levels and versions: the shape every version must have (db/version_set.h, db/version_edit.h). */
module Files {
  import opened DbFormat
  import opened Visibility

  /** FileMetaData together with the table it names.  A table never changes once it is written, so the file number
      stands for its contents. */
  datatype File = File(number: nat, size: nat, smallest: IKey, largest: IKey, entries: seq<Entry>)

  type Level = seq<File>

  const NUM_LEVELS: nat := 7

  type Version = v: seq<Level> | |v| == NUM_LEVELS witness [[], [], [], [], [], [], []]

  ghost predicate FileOk(f: File) {
    && |f.entries| > 0
    && Sorted(f.entries)
    && f.smallest == f.entries[0].key
    && f.largest == f.entries[|f.entries| - 1].key
    && forall e | e in f.entries :: e.key.sequence <= MAX_SEQUENCE
  }

  ghost predicate FilesOk(l: Level) {
    forall f | f in l :: FileOk(f)
  }

  /** Builder's BySmallestKey order. */
  predicate FileBefore(f: File, g: File) {
    Less(f.smallest, g.smallest) || (f.smallest == g.smallest && f.number < g.number)
  }

  ghost predicate SortedFiles(l: Level) {
    forall i, j | 0 <= i < j < |l| :: FileBefore(l[i], l[j])
  }

  /** Levels 1 and up: the internal-key ranges follow one another. */
  ghost predicate Disjoint(l: Level) {
    forall i, j | 0 <= i < j < |l| :: Less(l[i].largest, l[j].smallest)
  }

  ghost function FileEntries(f: File): set<Entry> {
    ToSet(f.entries)
  }

  ghost function LevelEntries(l: Level): set<Entry> {
    set f, e | f in l && e in f.entries :: e
  }

  ghost function VersionEntries(v: Version): set<Entry> {
    set i: nat, e | i < NUM_LEVELS && e in LevelEntries(v[i]) :: e
  }

  /** The internal-key ranges of two files do not meet. */
  predicate Apart(f: File, g: File) {
    Less(f.largest, g.smallest) || Less(g.largest, f.smallest)
  }

  ghost predicate PairwiseApart(s: set<File>) {
    forall f, g | f in s && g in s && f != g :: Apart(f, g)
  }

  /** File numbers name files. */
  ghost predicate NumbersName(s: set<File>) {
    forall f, g | f in s && g in s && f.number == g.number :: f == g
  }

  ghost function FileSet(l: Level): set<File> {
    set f | f in l
  }

  ghost function VersionFiles(v: Version): set<File> {
    set i: nat, f | i < NUM_LEVELS && f in v[i] :: f
  }

  ghost predicate Shape(v: Version) {
    && (forall i: nat | i < NUM_LEVELS :: FilesOk(v[i]) && SortedFiles(v[i]))
    && (forall i: nat | 0 < i < NUM_LEVELS :: Disjoint(v[i]))
    && NumbersName(VersionFiles(v))
  }

  /** Newer level-0 files hold newer entries. */
  ghost predicate ZeroAged(l: Level) {
    forall f, g | f in l && g in l && f.number > g.number :: Above(FileEntries(f), FileEntries(g))
  }

  /** Going down the levels, the entries of a user key only get older. */
  ghost predicate Aged(v: Version) {
    && ZeroAged(v[0])
    && forall i: nat, j: nat | i < j < NUM_LEVELS :: Above(LevelEntries(v[i]), LevelEntries(v[j]))
  }

  // ---- User-key ranges; None is the open end of a range (db/version_set.cc:108-120) ----

  predicate AfterFile(k: Option<UserKey>, f: File) {
    k.Some? && k.value > f.largest.user
  }

  predicate BeforeFile(k: Option<UserKey>, f: File) {
    k.Some? && k.value < f.smallest.user
  }

  predicate Overlaps(f: File, lo: Option<UserKey>, hi: Option<UserKey>) {
    !AfterFile(lo, f) && !BeforeFile(hi, f)
  }

  // ---- Facts about single files and levels ----

  lemma EntryInRange(f: File, e: Entry)
    requires FileOk(f) && e in f.entries
    ensures Leq(f.smallest, e.key) && Leq(e.key, f.largest)
    ensures f.smallest.user <= e.key.user <= f.largest.user
  {
    var i :| 0 <= i < |f.entries| && f.entries[i] == e;
  }

  lemma InLevel(l: Level, f: File, e: Entry)
    requires f in l && e in f.entries
    ensures e in LevelEntries(l)
  {
  }

  /** The two ends of a file are entries of it. */
  lemma FileEnds(l: Level, f: File) returns (first: Entry, last: Entry)
    requires f in l && FileOk(f)
    ensures first in f.entries && first.key == f.smallest && first in LevelEntries(l)
    ensures last in f.entries && last.key == f.largest && last in LevelEntries(l)
  {
    first, last := f.entries[0], f.entries[|f.entries| - 1];
    InLevel(l, f, first);
    InLevel(l, f, last);
  }

  lemma FileRange(f: File)
    requires FileOk(f)
    ensures Leq(f.smallest, f.largest) && f.smallest.user <= f.largest.user
    ensures f.largest.sequence <= MAX_SEQUENCE && f.smallest.sequence <= MAX_SEQUENCE
  {
    EntryInRange(f, f.entries[0]);
    assert f.entries[|f.entries| - 1] in f.entries;
  }

  /** Files sorted by smallest key whose ranges do not meet follow one another. */
  lemma ApartIsDisjoint(l: Level)
    requires FilesOk(l) && SortedFiles(l) && PairwiseApart(FileSet(l))
    ensures Disjoint(l)
  {
    forall i, j | 0 <= i < j < |l| ensures Less(l[i].largest, l[j].smallest) {
      assert FileBefore(l[i], l[j]);
      FileRange(l[i]);
      FileRange(l[j]);
      assert l[i] in FileSet(l) && l[j] in FileSet(l) && Apart(l[i], l[j]);
    }
  }

  lemma DisjointIsApart(l: Level)
    requires Disjoint(l)
    ensures PairwiseApart(FileSet(l))
  {
    forall f, g | f in FileSet(l) && g in FileSet(l) && f != g ensures Apart(f, g) {
      var i :| 0 <= i < |l| && l[i] == f;
      var j :| 0 <= j < |l| && l[j] == g;
    }
  }

  /** A sorted level is determined by its set of files. */
  lemma {:induction false} SortedFilesUnique(l: Level, m: Level)
    requires SortedFiles(l) && SortedFiles(m) && FileSet(l) == FileSet(m)
    ensures l == m
  {
    if l == [] {
      FileSetEmpty(m);
    } else {
      assert l[0] in FileSet(m) && m != [];
      assert m[0] in FileSet(l);
      assert l[0] == m[0] by {
        var i :| 0 <= i < |m| && m[i] == l[0];
        var j :| 0 <= j < |l| && l[j] == m[0];
        if 0 < i && 0 < j {
          assert FileBefore(m[0], m[i]) && FileBefore(l[0], l[j]);
        }
      }
      FileSetTail(l);
      FileSetTail(m);
      SortedFilesUnique(l[1..], m[1..]);
      assert l == [l[0]] + l[1..] && m == [m[0]] + m[1..];
    }
  }

  lemma FileSetEmpty(l: Level)
    ensures l == [] <==> FileSet(l) == {}
  {
    if l != [] {
      assert l[0] in FileSet(l);
    }
  }

  lemma FileSetTail(l: Level)
    requires l != [] && SortedFiles(l)
    ensures FileSet(l[1..]) == FileSet(l) - {l[0]}
  {
    forall f ensures f in FileSet(l[1..]) <==> f in FileSet(l) - {l[0]} {
      if f in FileSet(l[1..]) {
        var i :| 0 <= i < |l| - 1 && l[1..][i] == f;
        assert f == l[i + 1] && FileBefore(l[0], l[i + 1]);
      }
      if f in FileSet(l) - {l[0]} {
        var i :| 0 <= i < |l| && l[i] == f;
        assert l[1..][i - 1] == f;
      }
    }
  }
}
