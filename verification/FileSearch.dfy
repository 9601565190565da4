/** Searching versions: db/version_set.cc:88-157 and the lookups of db/version_set.cc:326-421,
    db/memtable.cc:100-134 and db/db_impl.cc:1126-1134. */
module FileSearch {
  import opened DbFormat
  import opened Visibility
  import opened Files

  /** The split point of a level at `key`: files before it end before `key`. */
  ghost predicate SplitsAt(files: Level, key: IKey, i: nat) {
    && i <= |files|
    && (forall j | 0 <= j < i :: Less(files[j].largest, key))
    && (forall j | i <= j < |files| :: Leq(key, files[j].largest))
  }

  /** Binary search for the first file whose largest key is at or after `key`. */
  method FindFile(files: Level, key: IKey) returns (r: nat)
    requires FilesOk(files) && Disjoint(files)
    ensures SplitsAt(files, key, r)
  {
    var left: nat := 0;
    var right: nat := |files|;
    while left < right
      invariant left <= right <= |files|
      invariant forall j | 0 <= j < left :: Less(files[j].largest, key)
      invariant forall j | right <= j < |files| :: Leq(key, files[j].largest)
    {
      var mid := (left + right) / 2;
      forall i, j | 0 <= i < j < |files| ensures Less(files[i].largest, files[j].largest) {
        FileRange(files[j]);
      }
      if Less(files[mid].largest, key) {
        left := mid + 1;
      } else {
        right := mid;
      }
    }
    r := right;
  }

  /** Whether some file of a level meets a user-key range. */
  method SomeFileOverlapsRange(disjoint: bool, files: Level, lo: Option<UserKey>, hi: Option<UserKey>) returns (b: bool)
    requires FilesOk(files)
    requires disjoint ==> Disjoint(files)
    ensures b <==> exists f :: f in files && Overlaps(f, lo, hi)
  {
    if !disjoint {
      var i := 0;
      while i < |files|
        invariant 0 <= i <= |files|
        invariant forall j | 0 <= j < i :: !Overlaps(files[j], lo, hi)
      {
        if AfterFile(lo, files[i]) || BeforeFile(hi, files[i]) {
        } else {
          assert files[i] in files && Overlaps(files[i], lo, hi);
          return true;
        }
        i := i + 1;
      }
      return false;
    }
    var index := 0;
    if lo.Some? {
      index := FindFile(files, IKey(lo.value, MAX_SEQUENCE, Value));
    }
    forall j | 0 <= j < |files| ensures files[j].largest.sequence <= MAX_SEQUENCE {
      FileRange(files[j]);
    }
    assert forall j | 0 <= j < index :: AfterFile(lo, files[j]);
    if index >= |files| {
      return false;
    }
    b := !BeforeFile(hi, files[index]);
    if b {
      assert files[index] in files && Overlaps(files[index], lo, hi);
    } else {
      forall j | index < j < |files| ensures BeforeFile(hi, files[j]) {
        FileRange(files[index]);
      }
    }
  }

  /** Table lookup: the first entry at or after the lookup key, if it is for the same user key. Stands for the seek
      through the table's index and block. */
  method SearchEntries(s: seq<Entry>, k: UserKey, snap: nat) returns (r: Option<Entry>)
    requires Sorted(s)
    ensures r.Some? ==> Newest(ToSet(s), k, snap, r.value)
    ensures r.None? ==> NoMatch(ToSet(s), k, snap)
  {
    var i := 0;
    while i < |s| && Less(s[i].key, LookupKey(k, snap))
      invariant 0 <= i <= |s|
      invariant forall j | 0 <= j < i :: Less(s[j].key, LookupKey(k, snap))
    {
      i := i + 1;
    }
    SeekFindsNewest(s, k, snap, i);
    r := if i < |s| && s[i].key.user == k then Some(s[i]) else None;
  }

  // ---- One level ----

  /** A match in a file after the split point's means one at least as new in the split point's file. */
  lemma MatchBeyond(a: File, f: File, k: UserKey, snap: nat, x: Entry) returns (last: Entry)
    requires FileOk(a) && FileOk(f) && Less(a.largest, f.smallest) && !Less(a.largest, LookupKey(k, snap))
    requires x in f.entries && Matches(x, k, snap)
    ensures last in FileEntries(a) && Matches(last, k, snap) && x.key.sequence <= last.key.sequence
    ensures a.smallest.user <= k
  {
    EntryInRange(f, x);
    FileRange(a);
    last := a.entries[|a.entries| - 1];
  }

  lemma NoMatchBefore(f: File, k: UserKey, snap: nat, x: Entry)
    requires FileOk(f) && Less(f.largest, LookupKey(k, snap)) && x in f.entries
    ensures !Matches(x, k, snap)
  {
    EntryInRange(f, x);
  }

  /** In a level of disjoint files, a hit in the file at the split point is the newest in the level. */
  lemma HitAtSplit(files: Level, k: UserKey, snap: nat, i: nat, e: Entry)
    requires FilesOk(files) && Disjoint(files)
    requires SplitsAt(files, LookupKey(k, snap), i) && i < |files|
    requires Newest(FileEntries(files[i]), k, snap, e)
    ensures Newest(LevelEntries(files), k, snap, e)
  {
    forall x | x in LevelEntries(files) && Matches(x, k, snap) ensures x.key.sequence <= e.key.sequence {
      var f :| f in files && x in f.entries;
      var j :| 0 <= j < |files| && files[j] == f;
      if i < j {
        var last := MatchBeyond(files[i], files[j], k, snap, x);
      } else if j < i {
        NoMatchBefore(f, k, snap, x);
      }
    }
  }

  /** A miss there is a miss in the level. */
  lemma MissAtSplit(files: Level, k: UserKey, snap: nat, i: nat)
    requires FilesOk(files) && Disjoint(files)
    requires SplitsAt(files, LookupKey(k, snap), i)
    requires i < |files| && files[i].smallest.user <= k ==> NoMatch(FileEntries(files[i]), k, snap)
    ensures NoMatch(LevelEntries(files), k, snap)
  {
    forall x | x in LevelEntries(files) ensures !Matches(x, k, snap) {
      var f :| f in files && x in f.entries;
      var j :| 0 <= j < |files| && files[j] == f;
      if j < i {
        NoMatchBefore(f, k, snap, x);
      } else {
        MissFrom(files, k, snap, i, j, x);
      }
    }
  }

  lemma MissFrom(files: Level, k: UserKey, snap: nat, i: nat, j: nat, x: Entry)
    requires FilesOk(files) && Disjoint(files) && SplitsAt(files, LookupKey(k, snap), i)
    requires i < |files| && files[i].smallest.user <= k ==> NoMatch(FileEntries(files[i]), k, snap)
    requires i <= j < |files| && x in files[j].entries
    ensures !Matches(x, k, snap)
  {
    if i == j {
      EntryInRange(files[i], x);
      assert x in FileEntries(files[i]);
    } else if Matches(x, k, snap) {
      var last := MatchBeyond(files[i], files[j], k, snap, x);
    }
  }

  method SearchDisjointLevel(files: Level, k: UserKey, snap: nat) returns (r: Option<Entry>)
    requires FilesOk(files) && Disjoint(files)
    ensures r.Some? ==> Newest(LevelEntries(files), k, snap, r.value)
    ensures r.None? ==> NoMatch(LevelEntries(files), k, snap)
  {
    var index := FindFile(files, LookupKey(k, snap));
    r := None;
    if index < |files| && files[index].smallest.user <= k {
      assert FileOk(files[index]);
      r := SearchEntries(files[index].entries, k, snap);
      if r.Some? {
        HitAtSplit(files, k, snap, index, r.value);
        return;
      }
    }
    MissAtSplit(files, k, snap, index);
  }

  // ---- Level 0 ----

  /** Inserts a file into a list kept newest first. */
  method InsertNewestFirst(l: Level, f: File) returns (r: Level)
    requires forall i, j | 0 <= i < j < |l| :: l[i].number >= l[j].number
    ensures forall i, j | 0 <= i < j < |r| :: r[i].number >= r[j].number
    ensures FileSet(r) == FileSet(l) + {f}
  {
    var i := 0;
    while i < |l| && l[i].number > f.number
      invariant 0 <= i <= |l|
      invariant forall j | 0 <= j < i :: l[j].number > f.number
    {
      i := i + 1;
    }
    r := l[..i] + [f] + l[i..];
    SplicedSet(l, i, f);
  }

  lemma SplicedSet(l: Level, i: nat, f: File)
    requires i <= |l|
    ensures FileSet(l[..i] + [f] + l[i..]) == FileSet(l) + {f}
  {
    assert l == l[..i] + l[i..];
  }

  /** The level-0 files whose user-key range holds `k`, newest first. */
  method OverlappingNewestFirst(files: Level, k: UserKey) returns (tmp: Level)
    ensures forall i, j | 0 <= i < j < |tmp| :: tmp[i].number >= tmp[j].number
    ensures forall f :: f in tmp <==> f in files && f.smallest.user <= k <= f.largest.user
  {
    tmp := [];
    var i := 0;
    while i < |files|
      invariant 0 <= i <= |files|
      invariant forall i, j | 0 <= i < j < |tmp| :: tmp[i].number >= tmp[j].number
      invariant forall f :: f in FileSet(tmp) <==> f in files[..i] && f.smallest.user <= k <= f.largest.user
    {
      var f := files[i];
      if k >= f.smallest.user && k <= f.largest.user {
        tmp := InsertNewestFirst(tmp, f);
      }
      assert files[..i + 1] == files[..i] + [f];
      i := i + 1;
    }
    assert files[..i] == files;
    forall f ensures f in tmp <==> f in files && f.smallest.user <= k <= f.largest.user {
      assert f in tmp <==> f in FileSet(tmp);
    }
  }

  /** The first hit among the overlapping level-0 files, newest first, is the newest in level 0. */
  method SearchLevelZero(files: Level, k: UserKey, snap: nat) returns (r: Option<Entry>)
    requires FilesOk(files) && ZeroAged(files) && NumbersName(FileSet(files))
    ensures r.Some? ==> Newest(LevelEntries(files), k, snap, r.value)
    ensures r.None? ==> NoMatch(LevelEntries(files), k, snap)
  {
    var tmp := OverlappingNewestFirst(files, k);
    var i := 0;
    while i < |tmp|
      invariant 0 <= i <= |tmp|
      invariant forall j | 0 <= j < i :: NoMatch(FileEntries(tmp[j]), k, snap)
    {
      r := SearchEntries(tmp[i].entries, k, snap);
      if r.Some? {
        HitInZero(files, k, snap, tmp, i, r.value);
        return;
      }
      i := i + 1;
    }
    r := None;
    MissInZero(files, k, snap, tmp);
  }

  lemma HitInZero(files: Level, k: UserKey, snap: nat, tmp: Level, i: nat, e: Entry)
    requires FilesOk(files) && ZeroAged(files) && NumbersName(FileSet(files))
    requires forall i, j | 0 <= i < j < |tmp| :: tmp[i].number >= tmp[j].number
    requires forall f :: f in tmp <==> f in files && f.smallest.user <= k <= f.largest.user
    requires i < |tmp| && forall j | 0 <= j < i :: NoMatch(FileEntries(tmp[j]), k, snap)
    requires Newest(FileEntries(tmp[i]), k, snap, e)
    ensures Newest(LevelEntries(files), k, snap, e)
  {
    InLevel(files, tmp[i], e);
    forall x | x in LevelEntries(files) && Matches(x, k, snap) ensures x.key.sequence <= e.key.sequence {
      var f :| f in files && x in f.entries;
      EntryInRange(f, x);
      var j :| 0 <= j < |tmp| && tmp[j] == f;
      HitAgainst(files, k, snap, tmp, i, e, j, x);
    }
  }

  lemma HitAgainst(files: Level, k: UserKey, snap: nat, tmp: Level, i: nat, e: Entry, j: nat, x: Entry)
    requires ZeroAged(files) && NumbersName(FileSet(files)) && i < |tmp| && j < |tmp| && tmp[i] in files
             && tmp[j] in files
    requires i < j ==> tmp[i].number >= tmp[j].number
    requires j < i ==> NoMatch(FileEntries(tmp[j]), k, snap)
    requires Newest(FileEntries(tmp[i]), k, snap, e) && x in tmp[j].entries && Matches(x, k, snap)
    ensures x.key.sequence <= e.key.sequence
  {
    assert x in FileEntries(tmp[j]);
    if i < j {
      OlderFile(files, tmp[i], tmp[j], e, x);
    }
  }

  lemma OlderFile(files: Level, f: File, g: File, e: Entry, x: Entry)
    requires ZeroAged(files) && NumbersName(FileSet(files)) && f in files && g in files
    requires e in FileEntries(f) && x in FileEntries(g) && e.key.user == x.key.user
    ensures f.number > g.number ==> x.key.sequence < e.key.sequence
    ensures f.number == g.number ==> f == g
  {
    assert f in FileSet(files) && g in FileSet(files);
    if f.number > g.number {
      assert Above(FileEntries(f), FileEntries(g));
    }
  }

  lemma MissInZero(files: Level, k: UserKey, snap: nat, tmp: Level)
    requires FilesOk(files)
    requires forall f :: f in tmp <==> f in files && f.smallest.user <= k <= f.largest.user
    requires forall j | 0 <= j < |tmp| :: NoMatch(FileEntries(tmp[j]), k, snap)
    ensures NoMatch(LevelEntries(files), k, snap)
  {
    forall x | x in LevelEntries(files) ensures !Matches(x, k, snap) {
      var f :| f in files && x in f.entries;
      EntryInRange(f, x);
      assert x in FileEntries(f);
    }
  }

  // ---- The whole version, and the whole database ----

  /** Version::Get: level by level, stopping at the first hit. */
  method SearchVersion(v: Version, k: UserKey, snap: nat) returns (r: Option<Entry>)
    requires Shape(v) && Aged(v)
    ensures r.Some? ==> Newest(VersionEntries(v), k, snap, r.value)
    ensures r.None? ==> NoMatch(VersionEntries(v), k, snap)
  {
    r := None;
    var level := 0;
    while level < NUM_LEVELS
      invariant 0 <= level <= NUM_LEVELS
      invariant forall i: nat | i < level :: NoMatch(LevelEntries(v[i]), k, snap)
    {
      r := SearchLevel(v, level, k, snap);
      if r.Some? {
        HitInLevel(v, level, k, snap, r.value);
        return;
      }
      level := level + 1;
    }
    r := None;
  }

  lemma ZeroNames(v: Version)
    requires NumbersName(VersionFiles(v))
    ensures NumbersName(FileSet(v[0]))
  {
    forall f | f in FileSet(v[0]) ensures f in VersionFiles(v) {
    }
  }

  /** The files of one level. */
  method SearchLevel(v: Version, level: nat, k: UserKey, snap: nat) returns (r: Option<Entry>)
    requires Shape(v) && Aged(v) && level < NUM_LEVELS
    ensures r.Some? ==> Newest(LevelEntries(v[level]), k, snap, r.value)
    ensures r.None? ==> NoMatch(LevelEntries(v[level]), k, snap)
  {
    r := None;
    if |v[level]| != 0 {
      if level == 0 {
        ZeroNames(v);
        r := SearchLevelZero(v[0], k, snap);
      } else {
        r := SearchDisjointLevel(v[level], k, snap);
      }
    }
  }

  lemma HitInLevel(v: Version, level: nat, k: UserKey, snap: nat, e: Entry)
    requires Aged(v) && level < NUM_LEVELS
    requires forall i: nat | i < level :: NoMatch(LevelEntries(v[i]), k, snap)
    requires Newest(LevelEntries(v[level]), k, snap, e)
    ensures Newest(VersionEntries(v), k, snap, e)
  {
    forall x | x in VersionEntries(v) && Matches(x, k, snap) ensures x.key.sequence <= e.key.sequence {
      var i: nat :| i < NUM_LEVELS && x in LevelEntries(v[i]);
      if level < i {
        assert Above(LevelEntries(v[level]), LevelEntries(v[i]));
      }
    }
  }
}
