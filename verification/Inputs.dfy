/** Choosing the files of a compaction and the level of a flush (db/version_set.cc:491-559, 1202-1235, 1270-1495). */
module Inputs {
  import opened DbFormat
  import opened Visibility
  import opened Files
  import FileSearch

  /** The files of a list that meet a user-key range, in list order. */
  function Overlapping(files: Level, lo: Option<UserKey>, hi: Option<UserKey>): Level {
    if files == [] then []
    else
      var last := files[|files| - 1];
      Overlapping(files[..|files| - 1], lo, hi) + (if Overlaps(last, lo, hi) then [last] else [])
  }

  lemma {:induction false} OverlappingMember(files: Level, lo: Option<UserKey>, hi: Option<UserKey>, f: File)
    ensures f in Overlapping(files, lo, hi) <==> f in files && Overlaps(f, lo, hi)
  {
    if files != [] {
      var n := |files| - 1;
      OverlappingMember(files[..n], lo, hi, f);
      assert files == files[..n] + [files[n]];
    }
  }

  predicate WiderLow(a: Option<UserKey>, b: Option<UserKey>) {
    a.None? || (b.Some? && a.value <= b.value)
  }

  predicate WiderHigh(a: Option<UserKey>, b: Option<UserKey>) {
    a.None? || (b.Some? && a.value >= b.value)
  }

  /** Widening the range keeps the files already found; if their number is the same so are the files. */
  lemma {:induction false} OverlappingWider(files: Level, lo: Option<UserKey>, hi: Option<UserKey>,
                                            lo': Option<UserKey>, hi': Option<UserKey>)
    requires WiderLow(lo', lo) && WiderHigh(hi', hi)
    ensures |Overlapping(files, lo, hi)| <= |Overlapping(files, lo', hi')|
    ensures |Overlapping(files, lo, hi)| == |Overlapping(files, lo', hi')| ==>
            Overlapping(files, lo, hi) == Overlapping(files, lo', hi')
  {
    if files != [] {
      OverlappingWider(files[..|files| - 1], lo, hi, lo', hi');
    }
  }

  // ---- GetOverlappingInputs ----

  /** How many files still stick out below `lo`: the measure of the restarting search. */
  function StickOutLow(files: Level, lo: Option<UserKey>): nat {
    if files == [] then 0
    else (if lo.Some? && files[0].smallest.user < lo.value then 1 else 0) + StickOutLow(files[1..], lo)
  }

  function StickOutHigh(files: Level, hi: Option<UserKey>): nat {
    if files == [] then 0
    else (if hi.Some? && files[0].largest.user > hi.value then 1 else 0) + StickOutHigh(files[1..], hi)
  }

  lemma {:induction false} StickOutLowFalls(files: Level, lo: UserKey, lo': UserKey)
    requires lo' <= lo
    ensures StickOutLow(files, Some(lo')) <= StickOutLow(files, Some(lo))
    ensures (exists f :: f in files && f.smallest.user < lo && f.smallest.user == lo')
            ==> StickOutLow(files, Some(lo')) < StickOutLow(files, Some(lo))
  {
    if files != [] {
      StickOutLowFalls(files[1..], lo, lo');
      assert files == [files[0]] + files[1..];
    }
  }

  lemma {:induction false} StickOutHighFalls(files: Level, hi: UserKey, hi': UserKey)
    requires hi <= hi'
    ensures StickOutHigh(files, Some(hi')) <= StickOutHigh(files, Some(hi))
    ensures (exists f :: f in files && f.largest.user > hi && f.largest.user == hi')
            ==> StickOutHigh(files, Some(hi')) < StickOutHigh(files, Some(hi))
  {
    if files != [] {
      StickOutHighFalls(files[1..], hi, hi');
      assert files == [files[0]] + files[1..];
    }
  }

  ghost predicate Within(f: File, lo: Option<UserKey>, hi: Option<UserKey>) {
    (lo.Some? ==> lo.value <= f.smallest.user) && (hi.Some? ==> f.largest.user <= hi.value)
  }

  /** No file that meets the range sticks out of it. */
  ghost predicate Closed(files: Level, lo: Option<UserKey>, hi: Option<UserKey>) {
    forall f | f in files && Overlaps(f, lo, hi) :: Within(f, lo, hi)
  }

  /** Every closed range that covers [begin, end] covers [lo, hi]. */
  ghost predicate NoWider(files: Level, begin: Option<UserKey>, end: Option<UserKey>,
                          lo: Option<UserKey>, hi: Option<UserKey>) {
    forall a, b | WiderLow(a, begin) && WiderHigh(b, end) && Closed(files, a, b) :: WiderLow(a, lo) && WiderHigh(b, hi)
  }

  /** The least closed range that covers [begin, end]. */
  ghost predicate LeastClosed(files: Level, begin: Option<UserKey>, end: Option<UserKey>,
                              lo: Option<UserKey>, hi: Option<UserKey>) {
    WiderLow(lo, begin) && WiderHigh(hi, end) && Closed(files, lo, hi) && NoWider(files, begin, end, lo, hi)
  }

  /** A file that meets the range so far is within every closed range that covers it. */
  lemma MustReach(files: Level, begin: Option<UserKey>, end: Option<UserKey>, lo: Option<UserKey>, hi: Option<UserKey>,
                  f: File)
    requires NoWider(files, begin, end, lo, hi) && f in files && Overlaps(f, lo, hi)
    ensures lo.Some? ==> NoWider(files, begin, end, Some(if f.smallest.user < lo.value then f.smallest.user
                                                         else lo.value), hi)
    ensures hi.Some? ==> NoWider(files, begin, end, lo, Some(if f.largest.user > hi.value then f.largest.user
                                                             else hi.value))
  {
    forall a, b | WiderLow(a, begin) && WiderHigh(b, end) && Closed(files, a, b)
      ensures WiderLow(a, lo) && WiderHigh(b, hi) && Within(f, a, b)
    {
      assert Overlaps(f, a, b);
    }
  }

  ghost predicate SomeMeets(files: Level, begin: Option<UserKey>, end: Option<UserKey>) {
    exists f :: f in files && Overlaps(f, begin, end)
  }

  ghost predicate AllWithin(files: Level, lo: Option<UserKey>, hi: Option<UserKey>) {
    forall f | f in files :: Within(f, lo, hi)
  }

  /** A range all of whose files are within it is closed. */
  lemma WithinIsClosed(files: Level, lo: Option<UserKey>, hi: Option<UserKey>)
    requires AllWithin(Overlapping(files, lo, hi), lo, hi)
    ensures Closed(files, lo, hi)
  {
    forall f | f in files && Overlaps(f, lo, hi) ensures Within(f, lo, hi) {
      OverlappingMember(files, lo, hi, f);
    }
  }

  /** All files meeting [begin, end].  At level 0 the range grows with every file taken and the search starts again,
      until no file left out meets the widened range. */
  method GetOverlappingInputs(zero: bool, files: Level, begin: Option<UserKey>, end: Option<UserKey>)
    returns (inputs: Level, lo: Option<UserKey>, hi: Option<UserKey>)
    ensures inputs == Overlapping(files, lo, hi)
    ensures WiderLow(lo, begin) && WiderHigh(hi, end) && lo.Some? == begin.Some? && hi.Some? == end.Some?
    ensures !zero ==> lo == begin && hi == end
    ensures zero ==> (forall f | f in inputs :: Within(f, lo, hi)) && LeastClosed(files, begin, end, lo, hi)
    ensures inputs != [] ==> exists f :: f in files && Overlaps(f, begin, end)
  {
    inputs, lo, hi := [], begin, end;
    var i := 0;
    while i < |files|
      invariant 0 <= i <= |files|
      invariant inputs == Overlapping(files[..i], lo, hi)
      invariant WiderLow(lo, begin) && WiderHigh(hi, end) && lo.Some? == begin.Some? && hi.Some? == end.Some?
      invariant !zero ==> lo == begin && hi == end
      invariant zero ==> AllWithin(inputs, lo, hi) && NoWider(files, begin, end, lo, hi)
      invariant inputs != [] || lo != begin || hi != end ==> SomeMeets(files, begin, end)
      decreases StickOutLow(files, lo) + StickOutHigh(files, hi), |files| - i
    {
      var f := files[i];
      assert files[..i + 1][..i] == files[..i];
      i := i + 1;
      if lo.Some? && f.largest.user < lo.value {
      } else if hi.Some? && f.smallest.user > hi.value {
      } else {
        inputs := inputs + [f];
        assert SomeMeets(files, begin, end) by {
          assert f in files && (lo == begin && hi == end ==> Overlaps(f, begin, end));
        }
        if zero {
          MustReach(files, begin, end, lo, hi, f);
          if lo.Some? && f.smallest.user < lo.value {
            StickOutLowFalls(files, lo.value, f.smallest.user);
            lo, inputs, i := Some(f.smallest.user), [], 0;
          } else if hi.Some? && f.largest.user > hi.value {
            StickOutHighFalls(files, hi.value, f.largest.user);
            hi, inputs, i := Some(f.largest.user), [], 0;
          }
        }
      }
    }
    assert files[..i] == files;
    if zero {
      WithinIsClosed(files, lo, hi);
    }
  }

  /** What the level-0 search leaves out shares no user key with what it takes. */
  lemma ZeroClosed(files: Level, lo: Option<UserKey>, hi: Option<UserKey>, f: File, g: File)
    requires f in Overlapping(files, lo, hi) && Within(f, lo, hi)
    requires g in files && g !in Overlapping(files, lo, hi)
    ensures g.largest.user < f.smallest.user || f.largest.user < g.smallest.user
  {
    OverlappingMember(files, lo, hi, g);
  }

  // ---- Ranges ----

  ghost predicate IsSmallest(files: Level, k: IKey) {
    (exists f :: f in files && f.smallest == k) && forall f | f in files :: Leq(k, f.smallest)
  }

  ghost predicate IsLargest(files: Level, k: IKey) {
    (exists f :: f in files && f.largest == k) && forall f | f in files :: Leq(f.largest, k)
  }

  /** GetRange: the least range covering all the files. */
  method GetRange(inputs: Level) returns (smallest: IKey, largest: IKey)
    requires inputs != []
    ensures IsSmallest(inputs, smallest) && IsLargest(inputs, largest)
  {
    smallest, largest := inputs[0].smallest, inputs[0].largest;
    var i := 1;
    while i < |inputs|
      invariant 1 <= i <= |inputs|
      invariant IsSmallest(inputs[..i], smallest) && IsLargest(inputs[..i], largest)
    {
      var f := inputs[i];
      assert inputs[..i + 1] == inputs[..i] + [f];
      assert f in inputs[..i + 1];
      if Less(f.smallest, smallest) {
        smallest := f.smallest;
      }
      if Less(largest, f.largest) {
        largest := f.largest;
      }
      i := i + 1;
    }
    assert inputs[..i] == inputs;
  }

  // ---- Boundary files ----

  /** `f` starts after `largest` with the same user key. */
  predicate Boundary(f: File, largest: IKey) {
    Less(largest, f.smallest) && f.smallest.user == largest.user
  }

  method FindSmallestBoundaryFile(files: Level, largest: IKey) returns (r: Option<File>)
    ensures r.None? ==> forall f | f in files :: !Boundary(f, largest)
    ensures r.Some? ==> r.value in files && Boundary(r.value, largest)
    ensures r.Some? ==> forall f | f in files && Boundary(f, largest) :: Leq(r.value.smallest, f.smallest)
  {
    r := None;
    var i := 0;
    while i < |files|
      invariant 0 <= i <= |files|
      invariant r.None? ==> forall j | 0 <= j < i :: !Boundary(files[j], largest)
      invariant r.Some? ==> r.value in files && Boundary(r.value, largest)
      invariant r.Some? ==> forall j | 0 <= j < i && Boundary(files[j], largest) ::
                            Leq(r.value.smallest, files[j].smallest)
    {
      var f := files[i];
      if Less(largest, f.smallest) && f.smallest.user == largest.user {
        if r.None? || Less(f.smallest, r.value.smallest) {
          r := Some(f);
        }
      }
      i := i + 1;
    }
  }

  function StartAfter(files: Level, k: IKey): nat {
    if files == [] then 0
    else (if Less(k, files[0].smallest) then 1 else 0) + StartAfter(files[1..], k)
  }

  lemma {:induction false} StartAfterFalls(files: Level, k: IKey, k': IKey)
    requires Less(k, k')
    ensures StartAfter(files, k') <= StartAfter(files, k)
    ensures (exists f :: f in files && Less(k, f.smallest) && Leq(f.smallest, k')) ==>
            StartAfter(files, k') < StartAfter(files, k)
  {
    if files != [] {
      StartAfterFalls(files[1..], k, k');
      assert files == [files[0]] + files[1..];
    }
  }

  /** Nothing left out lies between two files that are taken. */
  ghost predicate Convex(files: Level, taken: Level) {
    forall f, g, h | f in taken && g in files && h in taken && Less(f.largest, g.smallest)
      && Less(g.largest, h.smallest) :: g in taken
  }

  /** File `m` taken is the nearest one that continues the largest user key of those before it. */
  ghost predicate Continues(files: Level, out: Level, m: nat)
    requires m < |out|
  {
    exists k :: IsLargest(out[..m], k) && out[m] in files && Boundary(out[m], k)
                && forall f | f in files && Boundary(f, k) :: Leq(out[m].smallest, f.smallest)
  }

  /** What is taken beyond `taken` continues its largest user key file by file, until no file continues it. */
  ghost predicate Chain(files: Level, taken: Level, out: Level) {
    && taken <= out && (forall m: nat | |taken| <= m < |out| :: Continues(files, out, m))
    && exists k :: IsLargest(out, k) && forall f | f in files :: !Boundary(f, k)
  }

  lemma ContinuesOn(files: Level, taken: Level, out: Level, largest: IKey, b: File)
    requires forall m: nat | |taken| <= m < |out| :: Continues(files, out, m)
    requires IsLargest(out, largest) && b in files && Boundary(b, largest)
             && forall f | f in files && Boundary(f, largest) :: Leq(b.smallest, f.smallest)
    ensures forall m: nat | |taken| <= m < |out + [b]| :: Continues(files, out + [b], m)
  {
    forall m: nat | |taken| <= m < |out + [b]| ensures Continues(files, out + [b], m) {
      if m < |out| {
        assert Continues(files, out, m) && (out + [b])[..m] == out[..m];
      } else {
        assert (out + [b])[..m] == out;
      }
    }
  }

  /** AddBoundaryInputs: while some file continues the largest taken user key, take it too. */
  method AddBoundaryInputs(files: Level, taken: Level) returns (out: Level)
    requires FilesOk(files) && forall f | f in taken :: f in files
    ensures taken <= out && forall f | f in out :: f in files
    ensures if taken == [] then out == [] else Chain(files, taken, out)
    ensures Disjoint(files) && Convex(files, taken) ==> Convex(files, out)
    ensures (forall k, f | IsLargest(taken, k) && f in files :: !Boundary(f, k)) ==> out == taken
    ensures Disjoint(taken) ==> Disjoint(out)
  {
    out := taken;
    if taken == [] {
      return;
    }
    var _, largest := GetRange(taken);
    var searching := true;
    while searching
      invariant taken <= out && forall f | f in out :: f in files
      invariant IsLargest(out, largest)
      invariant forall m: nat | |taken| <= m < |out| :: Continues(files, out, m)
      invariant Disjoint(files) && Convex(files, taken) ==> Convex(files, out)
      invariant !searching ==> forall f | f in files :: !Boundary(f, largest)
      invariant (forall k, f | IsLargest(taken, k) && f in files :: !Boundary(f, k)) ==> out == taken
      invariant Disjoint(taken) ==> Disjoint(out)
      decreases searching, StartAfter(files, largest)
    {
      var b := FindSmallestBoundaryFile(files, largest);
      if b.Some? {
        FileRange(b.value);
        StartAfterFalls(files, largest, b.value.largest);
        ChoiceExtends(files, out, largest, b.value);
        ContinuesOn(files, taken, out, largest, b.value);
        out := out + [b.value];
        largest := b.value.largest;
      } else {
        searching := false;
      }
    }
  }

  lemma LargestExtends(taken: Level, largest: IKey, b: File)
    requires IsLargest(taken, largest) && Less(largest, b.largest)
    ensures IsLargest(taken + [b], b.largest)
  {
    assert b in taken + [b];
  }

  lemma ChoiceExtends(files: Level, taken: Level, largest: IKey, b: File)
    requires FilesOk(files) && (forall f | f in taken :: f in files) && IsLargest(taken, largest) && b in files
             && Boundary(b, largest)
    requires forall f | f in files && Boundary(f, largest) :: Leq(b.smallest, f.smallest)
    requires Less(largest, b.largest)
    ensures IsLargest(taken + [b], b.largest)
    ensures Disjoint(files) && Convex(files, taken) ==> Convex(files, taken + [b])
    ensures Disjoint(taken) ==> Disjoint(taken + [b])
  {
    LargestExtends(taken, largest, b);
    if Disjoint(files) && Convex(files, taken) {
      ConvexExtends(files, taken, largest, b);
    }
    if Disjoint(taken) {
      DisjointExtends(taken, largest, b);
    }
  }

  lemma DisjointExtends(taken: Level, largest: IKey, b: File)
    requires IsLargest(taken, largest) && Less(largest, b.smallest) && Disjoint(taken)
    ensures Disjoint(taken + [b])
  {
    forall i | 0 <= i < |taken| ensures Less(taken[i].largest, b.smallest) {
      assert taken[i] in taken;
    }
  }

  lemma ConvexExtends(files: Level, taken: Level, largest: IKey, b: File)
    requires FilesOk(files) && Disjoint(files) && Convex(files, taken) && (forall f | f in taken :: f in files)
    requires IsLargest(taken, largest) && b in files && Boundary(b, largest)
    requires forall f | f in files && Boundary(f, largest) :: Leq(b.smallest, f.smallest)
    ensures Convex(files, taken + [b])
  {
    var top :| top in taken && top.largest == largest;
    forall f, g, h | f in taken + [b] && g in files && h in taken + [b] && Less(f.largest, g.smallest)
      && Less(g.largest, h.smallest)
      ensures g in taken + [b]
    {
      if h == b {
        if g != top {
          BeforeBoundary(files, taken, largest, b, f, g, top);
        }
      } else {
        FileRange(b);
        FileRange(g);
        FileRange(h);
        assert Leq(h.largest, largest);
      }
    }
  }

  lemma BeforeBoundary(files: Level, taken: Level, largest: IKey, b: File, f: File, g: File, top: File)
    requires FilesOk(files) && Disjoint(files) && Convex(files, taken)
    requires b in files && Boundary(b, largest) && (Boundary(g, largest) ==> Leq(b.smallest, g.smallest))
    requires top in taken && top in files && top.largest == largest
    requires f in taken || f == b
    requires g in files && g != top && Less(f.largest, g.smallest) && Less(g.largest, b.smallest)
    ensures g in taken
  {
    FileRange(g);
    FileRange(b);
    DisjointIsApart(files);
    assert g in FileSet(files) && top in FileSet(files) && Apart(g, top);
  }

  // ---- What a selection promises ----

  function Minus(l: Level, taken: Level): Level {
    if l == [] then []
    else
      var last := l[|l| - 1];
      Minus(l[..|l| - 1], taken) + (if last in taken then [] else [last])
  }

  lemma {:induction false} MinusMember(l: Level, taken: Level, f: File)
    ensures f in Minus(l, taken) <==> f in l && f !in taken
  {
    if l != [] {
      MinusMember(l[..|l| - 1], taken, f);
      assert l == l[..|l| - 1] + [l[|l| - 1]];
    }
  }

  /** Nothing older than a taken entry of the same user key stays behind in its level. */
  ghost predicate NoOlderLeft(files: Level, taken: Level) {
    Above(LevelEntries(Minus(files, taken)), LevelEntries(taken))
  }

  /** `in0` from `level` and `in1` from `level + 1` may be merged: `in1` is exactly what meets the user-key range of
      `in0`, and `level` keeps nothing older than `in0`. */
  ghost predicate Selection(v: Version, level: nat, in0: Level, in1: Level, lo: UserKey, hi: UserKey) {
    && level + 1 < NUM_LEVELS
    && in0 != [] && (forall f | f in in0 :: f in v[level])
    && (forall f | f in in0 :: lo <= f.smallest.user && f.largest.user <= hi)
    && in1 == Overlapping(v[level + 1], Some(lo), Some(hi))
    && NoOlderLeft(v[level], in0)
  }

  /** The inputs of a compaction and the ends of what they take from `level`. */
  ghost predicate Picked(v: Version, level: nat, in0: Level, in1: Level, smallest: IKey, largest: IKey) {
    && Selection(v, level, in0, in1, smallest.user, largest.user)
    && IsSmallest(in0, smallest) && IsLargest(in0, largest)
  }

  /** In a level of disjoint files: a convex choice with no boundary file left has nothing older outside. */
  lemma ConvexLeavesNoOlder(files: Level, taken: Level, largest: IKey)
    requires FilesOk(files) && Disjoint(files) && Convex(files, taken) && (forall f | f in taken :: f in files)
    requires IsLargest(taken, largest) && forall f | f in files :: !Boundary(f, largest)
    requires OneEntryPerSeq(LevelEntries(files))
    ensures NoOlderLeft(files, taken)
  {
    var top :| top in taken && top.largest == largest;
    forall x, e | x in LevelEntries(Minus(files, taken)) && e in LevelEntries(taken) && x.key.user == e.key.user
      ensures x.key.sequence > e.key.sequence
    {
      var f :| f in taken && e in f.entries;
      var g :| g in Minus(files, taken) && x in g.entries;
      MinusMember(files, taken, g);
      LeftBehindIsNewer(files, largest, f, g, top, e, x);
    }
  }

  lemma LeftBehindIsNewer(files: Level, largest: IKey, f: File, g: File, top: File, e: Entry, x: Entry)
    requires FilesOk(files) && Disjoint(files) && OneEntryPerSeq(LevelEntries(files))
    requires f in files && g in files && top in files && g != f && g != top
    requires top.largest == largest && Leq(f.largest, largest) && !Boundary(g, largest)
    requires Less(f.largest, g.smallest) ==> !Less(g.largest, top.smallest)
    requires e in f.entries && x in g.entries && e.key.user == x.key.user
    ensures x.key.sequence > e.key.sequence
  {
    EntryInRange(f, e);
    EntryInRange(g, x);
    FileRange(top);
    DisjointIsApart(files);
    assert f in FileSet(files) && g in FileSet(files) && top in FileSet(files);
    assert Apart(f, g) && Apart(g, top);
    LeftBehindKeys(f.smallest, f.largest, g.smallest, g.largest, top.smallest, largest, e.key, x.key);
    SmallerKeyIsNewer(LevelEntries(files), e, x);
  }

  lemma SmallerKeyIsNewer(S: set<Entry>, e: Entry, x: Entry)
    requires OneEntryPerSeq(S) && e in S && x in S && e.key.user == x.key.user && Less(x.key, e.key)
    ensures x.key.sequence > e.key.sequence
  {
  }

  lemma LeftBehindKeys(f0: IKey, f1: IKey, g0: IKey, g1: IKey, top0: IKey, top1: IKey, e: IKey, x: IKey)
    requires Leq(f0, e) && Leq(e, f1) && Leq(g0, x) && Leq(x, g1) && Leq(top0, top1) && Leq(f1, top1)
    requires Less(f1, g0) || Less(g1, f0)
    requires Less(g1, top0) || Less(top1, g0)
    requires Less(f1, g0) ==> !Less(g1, top0)
    requires !(Less(top1, g0) && g0.user == top1.user)
    requires e.user == x.user
    ensures Less(x, e)
  {
  }

  lemma OverlappingConvex(files: Level, lo: Option<UserKey>, hi: Option<UserKey>)
    requires FilesOk(files)
    ensures Convex(files, Overlapping(files, lo, hi))
  {
    var taken := Overlapping(files, lo, hi);
    forall f, g, h | f in taken && g in files && h in taken && Less(f.largest, g.smallest)
      && Less(g.largest, h.smallest)
      ensures g in taken
    {
      FileRange(g);
      OverlappingMember(files, lo, hi, f);
      OverlappingMember(files, lo, hi, g);
      OverlappingMember(files, lo, hi, h);
    }
  }

  // ---- The pickers ----

  function TotalFileSize(files: Level): nat {
    if files == [] then 0 else files[0].size + TotalFileSize(files[1..])
  }

  /** A first choice the boundary step can complete. */
  ghost predicate Pickable(files: Level, zero: bool, base: Level) {
    && base != [] && (forall f | f in base :: f in files)
    && (zero ==> forall f, g | f in base && g in files && g !in base ::
                 g.largest.user < f.smallest.user || f.largest.user < g.smallest.user)
    && (!zero ==> Convex(files, base))
  }

  /** GetOverlappingInputs always yields such a choice. */
  lemma OverlappingPickable(files: Level, zero: bool, lo: Option<UserKey>, hi: Option<UserKey>)
    requires FilesOk(files) && Overlapping(files, lo, hi) != []
    requires zero ==> forall f | f in Overlapping(files, lo, hi) :: Within(f, lo, hi)
    ensures Pickable(files, zero, Overlapping(files, lo, hi))
  {
    var base := Overlapping(files, lo, hi);
    forall f | f in base ensures f in files {
      OverlappingMember(files, lo, hi, f);
    }
    if zero {
      forall f, g | f in base && g in files && g !in base
          ensures g.largest.user < f.smallest.user || f.largest.user < g.smallest.user {
        ZeroClosed(files, lo, hi, f, g);
      }
    } else {
      OverlappingConvex(files, lo, hi);
    }
  }

  /** At level 0 a closed choice has no boundary file. */
  lemma ZeroHasNoBoundary(files: Level, base: Level, k: IKey, f: File)
    requires FilesOk(files) && Pickable(files, true, base) && IsLargest(base, k) && f in files
    ensures !Boundary(f, k)
  {
    FileRange(f);
    var top :| top in base && top.largest == k;
    FileRange(top);
  }

  /** The inputs stand in the order of their level's files. */
  ghost predicate InOrder(zero: bool, files: Level) {
    if zero then SortedFiles(files) else Disjoint(files)
  }

  lemma {:induction false} OverlappingInOrder(zero: bool, files: Level, lo: Option<UserKey>, hi: Option<UserKey>)
    requires InOrder(zero, files)
    ensures InOrder(zero, Overlapping(files, lo, hi))
  {
    if zero {
      OverlappingSorted(files, lo, hi);
    } else {
      OverlappingDisjoint(files, lo, hi);
    }
  }

  lemma {:induction false} OverlappingSorted(files: Level, lo: Option<UserKey>, hi: Option<UserKey>)
    requires SortedFiles(files)
    ensures SortedFiles(Overlapping(files, lo, hi))
  {
    if files != [] {
      var n := |files| - 1;
      var rest := files[..n];
      OverlappingSorted(rest, lo, hi);
      forall f | f in Overlapping(rest, lo, hi) ensures FileBefore(f, files[n]) {
        OverlappingMember(rest, lo, hi, f);
        var i :| 0 <= i < n && files[i] == f;
      }
    }
  }

  /** The boundary step on a pickable choice: a superset that leaves nothing older behind. */
  method CompleteInputs(zero: bool, files: Level, base: Level) returns (out: Level)
    requires FilesOk(files) && Pickable(files, zero, base) && (!zero ==> Disjoint(files))
    requires OneEntryPerSeq(LevelEntries(files))
    ensures Chain(files, base, out) && (forall f | f in out :: f in files)
    ensures NoOlderLeft(files, out) && (InOrder(zero, base) ==> InOrder(zero, out))
  {
    out := AddBoundaryInputs(files, base);
    if zero {
      forall k, f | IsLargest(base, k) && f in files ensures !Boundary(f, k) {
        ZeroHasNoBoundary(files, base, k, f);
      }
      assert out == base;
      ApartLeavesNothing(files, base);
    } else {
      ghost var k :| IsLargest(out, k) && forall f | f in files :: !Boundary(f, k);
      ConvexLeavesNoOlder(files, out, k);
    }
  }

  lemma ApartLeavesNothing(files: Level, base: Level)
    requires FilesOk(files) && Pickable(files, true, base)
    ensures NoOlderLeft(files, base)
  {
    forall x, e | x in LevelEntries(Minus(files, base)) && e in LevelEntries(base)
      ensures e.key.user != x.key.user
    {
      var f :| f in base && e in f.entries;
      var g :| g in Minus(files, base) && x in g.entries;
      MinusMember(files, base, g);
      EntryInRange(f, e);
      EntryInRange(g, x);
    }
  }

  /** `e` is the part of the level that meets the range of `in0` and `in1` together, completed. */
  ghost predicate Expansion(v: Version, level: nat, in0: Level, in1: Level, e: Level)
    requires level < NUM_LEVELS
  {
    exists a, b, lo, hi ::
      && IsSmallest(in0 + in1, a) && IsLargest(in0 + in1, b)
      && (if level == 0 then LeastClosed(v[0], Some(a.user), Some(b.user), lo, hi)
          else lo == Some(a.user) && hi == Some(b.user))
      && Chain(v[level], Overlapping(v[level], lo, hi), e)
  }

  /** `n` files of the next level meet the user-key range of the files. */
  ghost predicate MeetsBelow(v: Version, level: nat, files: Level, n: nat)
    requires level + 1 < NUM_LEVELS
  {
    exists a, b :: IsSmallest(files, a) && IsLargest(files, b)
                   && |Overlapping(v[level + 1], Some(a.user), Some(b.user))| == n
  }

  /** More files of the level, no more of the next one, and not too much in all. */
  ghost predicate Expands(v: Version, level: nat, in0: Level, in1: Level, e: Level, limit: nat)
    requires level + 1 < NUM_LEVELS
  {
    |e| > |in0| && TotalFileSize(in1) + TotalFileSize(e) < limit && MeetsBelow(v, level, e, |in1|)
  }

  /** The inputs that follow from a choice in the level: the choice completed, then expanded exactly when that is worth
      it.  Quantified, so that it unfolds only where a proof asks for `Follows`. */
  ghost predicate Chosen(v: Version, level: nat, base: Level, limit: nat, in0: Level, in1: Level)
    requires level + 1 < NUM_LEVELS
  {
    forall b: Level | b == base :: Follows(v, level, b, limit, in0, in1)
  }

  ghost predicate Follows(v: Version, level: nat, base: Level, limit: nat, in0: Level, in1: Level)
    requires level + 1 < NUM_LEVELS
  {
    exists c: Level :: Chain(v[level], base, c) && ChosenFrom(v, level, c, limit, in0, in1)
  }

  ghost predicate ChosenFrom(v: Version, level: nat, c: Level, limit: nat, in0: Level, in1: Level)
    requires level + 1 < NUM_LEVELS
  {
    if in1 == [] then in0 == c && MeetsBelow(v, level, c, 0)
    else
      MeetsBelow(v, level, c, |in1|)
      && exists e :: Expansion(v, level, c, in1, e) && in0 == if Expands(v, level, c, in1, e, limit) then e else c
  }

  lemma MeetsOnce(v: Version, level: nat, files: Level, a: IKey, b: IKey, n: nat)
    requires level + 1 < NUM_LEVELS && IsSmallest(files, a) && IsLargest(files, b)
    ensures MeetsBelow(v, level, files, n) <==> |Overlapping(v[level + 1], Some(a.user), Some(b.user))| == n
  {
    forall a', b' | IsSmallest(files, a') && IsLargest(files, b') ensures a'.user == a.user && b'.user == b.user {
    }
  }

  /** SetupOtherInputs: complete the choice, add what it meets one level down, and take more of `level` when that does
      not change the files of `level + 1`. */
  method SetupOtherInputs(v: Version, level: nat, base: Level, expandedLimit: nat)
    returns (in0: Level, in1: Level, smallest: IKey, largest: IKey)
    requires Shape(v) && level + 1 < NUM_LEVELS && Pickable(v[level], level == 0, base)
    requires OneEntryPerSeq(LevelEntries(v[level]))
    ensures Picked(v, level, in0, in1, smallest, largest) && Chosen(v, level, base, expandedLimit, in0, in1)
    ensures (InOrder(level == 0, base) ==> InOrder(level == 0, in0)) && forall f | f in base :: f in in0
  {
    var c := CompleteInputs(level == 0, v[level], base);
    in0, in1, smallest, largest := WithBelow(v, level, c, expandedLimit);
    assert Follows(v, level, base, expandedLimit, in0, in1);
  }

  /** Add to completed inputs what they meet one level down, and try the expansion. */
  method WithBelow(v: Version, level: nat, c: Level, expandedLimit: nat)
    returns (in0: Level, in1: Level, smallest: IKey, largest: IKey)
    requires Shape(v) && level + 1 < NUM_LEVELS && c != [] && (forall f | f in c :: f in v[level])
    requires OneEntryPerSeq(LevelEntries(v[level])) && NoOlderLeft(v[level], c)
    ensures Picked(v, level, in0, in1, smallest, largest) && ChosenFrom(v, level, c, expandedLimit, in0, in1)
    ensures (InOrder(level == 0, c) ==> InOrder(level == 0, in0)) && forall f | f in c :: f in in0
  {
    in0 := c;
    smallest, largest := GetRange(in0);
    RangeCovers(in0, smallest, largest);
    var met, _, _ := GetOverlappingInputs(false, v[level + 1], Some(smallest.user), Some(largest.user));
    in1 := met;
    MeetsOnce(v, level, c, smallest, largest, |in1|);
    if in1 != [] {
      var expanded0 := Expanded(v, level, c, in1);
      in0, smallest, largest := TryExpand(v, level, c, in1, smallest, largest, expanded0, expandedLimit);
    }
  }

  /** The expansion step: more files of `level`, the same files of `level + 1`. */
  method TryExpand(v: Version, level: nat, base: Level, in1: Level, smallest: IKey, largest: IKey, expanded0: Level,
                   expandedLimit: nat)
    returns (in0: Level, smallest': IKey, largest': IKey)
    requires Picked(v, level, base, in1, smallest, largest) && expanded0 != [] && NoOlderLeft(v[level], expanded0)
    requires (forall f | f in expanded0 :: f in v[level]) && (forall f | f in base :: f in expanded0)
    ensures Picked(v, level, in0, in1, smallest', largest')
    ensures in0 == if Expands(v, level, base, in1, expanded0, expandedLimit) then expanded0 else base
  {
    in0, smallest', largest' := base, smallest, largest;
    if |expanded0| > |base| && TotalFileSize(in1) + TotalFileSize(expanded0) < expandedLimit {
      var same, newStart, newLimit := SameBelow(v, level, base, in1, smallest, largest, expanded0);
      if same {
        in0, smallest', largest' := expanded0, newStart, newLimit;
      }
    }
  }

  /** Whether the wider inputs meet as many files of the next level, and their ends. */
  method SameBelow(v: Version, level: nat, base: Level, in1: Level, smallest: IKey, largest: IKey, wide: Level)
    returns (same: bool, newStart: IKey, newLimit: IKey)
    requires Picked(v, level, base, in1, smallest, largest) && wide != [] && NoOlderLeft(v[level], wide)
    requires (forall f | f in wide :: f in v[level]) && (forall f | f in base :: f in wide)
    ensures same == MeetsBelow(v, level, wide, |in1|)
    ensures same ==> Picked(v, level, wide, in1, newStart, newLimit)
  {
    newStart, newLimit := GetRange(wide);
    var expanded1, _, _ := GetOverlappingInputs(false, v[level + 1], Some(newStart.user), Some(newLimit.user));
    same := |expanded1| == |in1|;
    MeetsOnce(v, level, wide, newStart, newLimit, |in1|);
    ExpansionWidens(base, smallest, largest, wide, newStart, newLimit);
    OverlappingWider(v[level + 1], Some(smallest.user), Some(largest.user), Some(newStart.user), Some(newLimit.user));
    RangeCovers(wide, newStart, newLimit);
  }

  /** All of `level` that meets the range of the inputs so far, completed. */
  method Expanded(v: Version, level: nat, base: Level, in1: Level) returns (expanded0: Level)
    requires Shape(v) && level + 1 < NUM_LEVELS && base != [] && (forall f | f in base :: f in v[level])
    requires OneEntryPerSeq(LevelEntries(v[level]))
    ensures expanded0 != [] && (forall f | f in expanded0 :: f in v[level])
    ensures Expansion(v, level, base, in1, expanded0)
    ensures (forall f | f in base :: f in expanded0) && NoOlderLeft(v[level], expanded0)
            && InOrder(level == 0, expanded0)
  {
    var allStart, allLimit := GetRange(base + in1);
    var wider, wlo, whi := GetOverlappingInputs(level == 0, v[level], Some(allStart.user), Some(allLimit.user));
    ExpansionCovers(v[level], base, in1, allStart, allLimit, wlo, whi);
    OverlappingPickable(v[level], level == 0, wlo, whi);
    OverlappingInOrder(level == 0, v[level], wlo, whi);
    expanded0 := CompleteInputs(level == 0, v[level], wider);
  }

  lemma RangeCovers(files: Level, smallest: IKey, largest: IKey)
    requires files != [] && IsSmallest(files, smallest) && IsLargest(files, largest)
    ensures forall f | f in files :: smallest.user <= f.smallest.user && f.largest.user <= largest.user
  {
  }

  lemma ExpansionWidens(in0: Level, smallest: IKey, largest: IKey, wide: Level, newStart: IKey, newLimit: IKey)
    requires IsSmallest(in0, smallest) && IsLargest(in0, largest)
    requires IsSmallest(wide, newStart) && IsLargest(wide, newLimit)
    requires forall f | f in in0 :: f in wide
    ensures newStart.user <= smallest.user && largest.user <= newLimit.user
  {
  }

  /** The widened search at `level` finds again everything already chosen there. */
  lemma ExpansionCovers(files: Level, in0: Level, in1: Level, allStart: IKey, allLimit: IKey, wlo: Option<UserKey>,
                        whi: Option<UserKey>)
    requires FilesOk(files) && in0 != [] && (forall f | f in in0 :: f in files)
    requires IsSmallest(in0 + in1, allStart) && IsLargest(in0 + in1, allLimit)
    requires WiderLow(wlo, Some(allStart.user)) && WiderHigh(whi, Some(allLimit.user))
    ensures forall f | f in in0 :: f in Overlapping(files, wlo, whi)
    ensures Overlapping(files, wlo, whi) != []
  {
    forall f | f in in0 ensures f in Overlapping(files, wlo, whi) {
      OverlappingMember(files, wlo, whi, f);
      assert f in in0 + in1;
      FileRange(f);
    }
    assert in0[0] in Overlapping(files, wlo, whi);
  }

  lemma {:induction false} OverlappingDisjoint(files: Level, lo: Option<UserKey>, hi: Option<UserKey>)
    requires Disjoint(files)
    ensures Disjoint(Overlapping(files, lo, hi))
  {
    if files != [] {
      var n := |files| - 1;
      OverlappingDisjoint(files[..n], lo, hi);
      forall f | f in Overlapping(files[..n], lo, hi) ensures Less(f.largest, files[n].smallest) {
        OverlappingMember(files[..n], lo, hi, f);
      }
    }
  }

  lemma PrefixConvex(files: Level, taken: Level, n: nat)
    requires FilesOk(files) && (forall f | f in taken :: f in files)
    requires Disjoint(taken) && Convex(files, taken) && n <= |taken|
    ensures Convex(files, taken[..n])
  {
    forall f, g, h | f in taken[..n] && g in files && h in taken[..n] && Less(f.largest, g.smallest)
      && Less(g.largest, h.smallest)
      ensures g in taken[..n]
    {
      assert g in taken;
      var j :| 0 <= j < |taken| && taken[j] == g;
      var i :| 0 <= i < n && taken[i] == h;
      FileRange(g);
      FileRange(h);
    }
  }

  lemma {:induction false} TotalGrows(files: Level, f: File)
    ensures TotalFileSize(files + [f]) == TotalFileSize(files) + f.size
    decreases |files|
  {
    if files == [] {
      assert files + [f] == [f];
    } else {
      TotalGrows(files[1..], f);
      assert (files + [f])[1..] == files[1..] + [f];
    }
  }

  /** The shortest front whose files reach the size, or all of them. */
  ghost predicate Shortened(inputs: Level, limit: nat, r: Level) {
    && r != [] && r <= inputs && (forall n | 0 < n < |r| :: TotalFileSize(inputs[..n]) < limit)
    && (r == inputs || TotalFileSize(r) >= limit)
  }

  ghost predicate FrontsUnder(inputs: Level, i: nat, limit: nat)
    requires i <= |inputs|
  {
    forall n | 0 < n <= i :: TotalFileSize(inputs[..n]) < limit
  }

  lemma CutHere(inputs: Level, i: nat, limit: nat)
    requires i < |inputs| && TotalFileSize(inputs[..i + 1]) >= limit
    requires FrontsUnder(inputs, i, limit)
    ensures Shortened(inputs, limit, inputs[..i + 1])
  {
    var r := inputs[..i + 1];
    forall n | 0 < n < |r| ensures TotalFileSize(r[..n]) < limit {
      assert r[..n] == inputs[..n];
    }
  }

  /** Keeps files up to a total size, at least one. */
  method Shorten(files: Level, inputs: Level, fileLimit: nat) returns (r: Level)
    requires FilesOk(files) && Pickable(files, false, inputs) && Disjoint(inputs)
    ensures Pickable(files, false, r) && Shortened(inputs, fileLimit, r)
  {
    var total := 0;
    var i := 0;
    while i < |inputs|
      invariant 0 <= i <= |inputs| && total == TotalFileSize(inputs[..i]) && FrontsUnder(inputs, i, fileLimit)
    {
      assert inputs[..i + 1] == inputs[..i] + [inputs[i]];
      TotalGrows(inputs[..i], inputs[i]);
      total := total + inputs[i].size;
      if total >= fileLimit {
        PrefixConvex(files, inputs, i + 1);
        CutHere(inputs, i, fileLimit);
        return inputs[..i + 1];
      }
      i := i + 1;
    }
    assert inputs[..i] == inputs;
    return inputs;
  }

  /** What a manual compaction starts from: at level 0 all that the least closed range around the one asked for meets;
      deeper, the files that meet the one asked for, up to a total size. */
  ghost predicate RangeBase(v: Version, level: nat, begin: Option<UserKey>, end: Option<UserKey>, limit: nat,
                            base: Level)
    requires level < NUM_LEVELS
  {
    if level > 0 then Shortened(Overlapping(v[level], begin, end), limit, base)
    else exists lo, hi :: LeastClosed(v[0], begin, end, lo, hi) && base == Overlapping(v[0], lo, hi)
  }

  /** The files of a level meeting a range, cut short by size above level 0. */
  method RangeInputs(v: Version, level: nat, begin: Option<UserKey>, end: Option<UserKey>, fileLimit: nat)
    returns (inputs: Level)
    requires Shape(v) && level < NUM_LEVELS
    ensures inputs == [] <==> forall f | f in v[level] :: !Overlaps(f, begin, end)
    ensures inputs != [] ==> RangeBase(v, level, begin, end, fileLimit, inputs)
    ensures inputs != [] ==> Pickable(v[level], level == 0, inputs) && InOrder(level == 0, inputs)
  {
    var wlo, whi;
    inputs, wlo, whi := GetOverlappingInputs(level == 0, v[level], begin, end);
    if inputs == [] {
      forall f | f in v[level] ensures !Overlaps(f, begin, end) {
        OverlappingMember(v[level], wlo, whi, f);
      }
      return;
    }
    OverlappingPickable(v[level], level == 0, wlo, whi);
    OverlappingInOrder(level == 0, v[level], wlo, whi);
    if level > 0 {
      inputs := Shorten(v[level], inputs, fileLimit);
    }
  }

  /** The inputs follow from the files that meet the range. */
  ghost predicate StartedIn(v: Version, level: nat, begin: Option<UserKey>, end: Option<UserKey>, fileLimit: nat,
                            limit: nat, in0: Level, in1: Level)
    requires level + 1 < NUM_LEVELS
  {
    exists base :: RangeBase(v, level, begin, end, fileLimit, base) && Chosen(v, level, base, limit, in0, in1)
  }

  /** File `i` is the first that meets the range. */
  ghost predicate FirstMeeting(files: Level, begin: Option<UserKey>, end: Option<UserKey>, i: nat) {
    i < |files| && Overlaps(files[i], begin, end) && forall j | 0 <= j < i :: !Overlaps(files[j], begin, end)
  }

  lemma {:induction false} FirstOverlapping(files: Level, lo: Option<UserKey>, hi: Option<UserKey>) returns (i: nat)
    requires Overlapping(files, lo, hi) != []
    ensures FirstMeeting(files, lo, hi, i) && Overlapping(files, lo, hi)[0] == files[i]
    decreases |files|
  {
    var n := |files| - 1;
    if Overlapping(files[..n], lo, hi) == [] {
      forall j | 0 <= j < n ensures !Overlaps(files[j], lo, hi) {
        OverlappingMember(files[..n], lo, hi, files[..n][j]);
      }
      i := n;
    } else {
      i := FirstOverlapping(files[..n], lo, hi);
    }
  }

  /** The first file meeting the range is among those a manual compaction starts from. */
  lemma FirstIsTaken(v: Version, level: nat, begin: Option<UserKey>, end: Option<UserKey>, limit: nat, base: Level)
    requires level < NUM_LEVELS && RangeBase(v, level, begin, end, limit, base)
    requires exists f :: f in v[level] && Overlaps(f, begin, end)
    ensures exists i: nat :: FirstMeeting(v[level], begin, end, i) && v[level][i] in base
  {
    var f :| f in v[level] && Overlaps(f, begin, end);
    OverlappingMember(v[level], begin, end, f);
    var i := FirstOverlapping(v[level], begin, end);
    if level == 0 {
      var lo, hi :| LeastClosed(v[0], begin, end, lo, hi) && base == Overlapping(v[0], lo, hi);
      OverlappingMember(v[0], lo, hi, v[0][i]);
    }
  }

  /** CompactRange. */
  method CompactRange(v: Version, level: nat, begin: Option<UserKey>, end: Option<UserKey>, fileLimit: nat,
                      expandedLimit: nat)
    returns (found: bool, in0: Level, in1: Level, smallest: IKey, largest: IKey)
    requires Shape(v) && level + 1 < NUM_LEVELS && OneEntryPerSeq(LevelEntries(v[level]))
    ensures found <==> exists f :: f in v[level] && Overlaps(f, begin, end)
    ensures found ==> Picked(v, level, in0, in1, smallest, largest) && InOrder(level == 0, in0)
    ensures found ==> StartedIn(v, level, begin, end, fileLimit, expandedLimit, in0, in1)
    ensures found ==> exists i: nat :: FirstMeeting(v[level], begin, end, i) && v[level][i] in in0
  {
    var inputs := RangeInputs(v, level, begin, end, fileLimit);
    found := inputs != [];
    if found {
      FirstIsTaken(v, level, begin, end, fileLimit, inputs);
      in0, in1, smallest, largest := SetupOtherInputs(v, level, inputs, expandedLimit);
    } else {
      in0, in1, smallest, largest := [], [], IKey(0.0, 0, Value), IKey(0.0, 0, Value);
    }
  }

  /** File `i` is the first to end after the compaction pointer, or the first of all when none does. */
  ghost predicate FirstPast(files: Level, pointer: Option<IKey>, i: nat) {
    && i < |files|
    && (forall j | 0 <= j < i :: pointer.Some? && Leq(files[j].largest, pointer.value))
    && (pointer.None? || Less(pointer.value, files[i].largest)
        || (i == 0 && forall f | f in files :: Leq(f.largest, pointer.value)))
  }

  /** The first file past the compaction pointer, wrapping around. */
  method PickStart(files: Level, pointer: Option<IKey>) returns (f: File)
    requires files != []
    ensures exists i: nat :: FirstPast(files, pointer, i) && f == files[i]
  {
    var i := 0;
    while i < |files| && pointer.Some? && !Less(pointer.value, files[i].largest)
      invariant 0 <= i <= |files| && (i > 0 ==> pointer.Some?)
      invariant forall j | 0 <= j < i :: !Less(pointer.value, files[j].largest)
    {
      i := i + 1;
    }
    if i < |files| {
      assert FirstPast(files, pointer, i);
      f := files[i];
    } else {
      assert forall g | g in files :: Leq(g.largest, pointer.value);
      assert FirstPast(files, pointer, 0);
      f := files[0];
    }
  }

  /** The file a compaction starts from: the one seeks have worn out, or the first past the pointer. */
  ghost predicate StartsAt(files: Level, pointer: Option<IKey>, seek: Option<File>, f: File) {
    if seek.Some? then f == seek.value else exists i: nat :: FirstPast(files, pointer, i) && f == files[i]
  }

  /** The inputs follow from a file the compaction may start from: from it alone, or at level 0 from all that the least
      closed range around it meets. */
  ghost predicate StartedAt(v: Version, level: nat, pointer: Option<IKey>, seek: Option<File>, limit: nat,
                            in0: Level, in1: Level)
    requires level + 1 < NUM_LEVELS
  {
    exists f, base :: StartsAt(v[level], pointer, seek, f) && f in in0 && Around(v, level, f, base)
                      && Chosen(v, level, base, limit, in0, in1)
  }

  ghost predicate Around(v: Version, level: nat, f: File, base: Level)
    requires level < NUM_LEVELS
  {
    if level > 0 then base == [f]
    else exists lo, hi :: LeastClosed(v[0], Some(f.smallest.user), Some(f.largest.user), lo, hi)
                          && base == Overlapping(v[0], lo, hi)
  }

  lemma OneFilePickable(files: Level, f: File)
    requires FilesOk(files) && f in files
    ensures Pickable(files, false, [f])
  {
    forall g | g in files ensures !(Less(f.largest, g.smallest) && Less(g.largest, f.smallest)) {
      FileRange(f);
      FileRange(g);
    }
  }

  method PickBase(v: Version, level: nat, pointer: Option<IKey>, seek: Option<File>) returns (f: File, base: Level)
    requires Shape(v) && level + 1 < NUM_LEVELS && v[level] != [] && (seek.Some? ==> seek.value in v[level])
    ensures StartsAt(v[level], pointer, seek, f) && f in base && Around(v, level, f, base)
    ensures Pickable(v[level], level == 0, base) && InOrder(level == 0, base)
  {
    if seek.Some? {
      f := seek.value;
    } else {
      f := PickStart(v[level], pointer);
    }
    base := [f];
    if level == 0 {
      base := TouchedInZero(v, f);
    } else {
      OneFilePickable(v[level], f);
    }
  }

  /** PickCompaction: start from the file that seeks have worn out, if that is the reason, else from the first one past
      the compaction pointer; at level 0 take everything that file touches.  `largest` is the next compaction
      pointer. */
  method PickCompaction(v: Version, level: nat, pointer: Option<IKey>, seek: Option<File>, expandedLimit: nat)
    returns (in0: Level, in1: Level, smallest: IKey, largest: IKey)
    requires Shape(v) && level + 1 < NUM_LEVELS && v[level] != [] && OneEntryPerSeq(LevelEntries(v[level]))
    requires seek.Some? ==> seek.value in v[level]
    ensures Picked(v, level, in0, in1, smallest, largest) && InOrder(level == 0, in0)
    ensures StartedAt(v, level, pointer, seek, expandedLimit, in0, in1)
    ensures seek.Some? ==> seek.value in in0
    ensures seek.None? ==> exists i: nat :: FirstPast(v[level], pointer, i) && v[level][i] in in0
  {
    var f, base := PickBase(v, level, pointer, seek);
    in0, in1, smallest, largest := SetupOtherInputs(v, level, base, expandedLimit);
  }

  /** All of level 0 that the file touches, directly or through others. */
  method TouchedInZero(v: Version, f: File) returns (base: Level)
    requires Shape(v) && f in v[0]
    ensures f in base && Pickable(v[0], true, base) && InOrder(true, base) && Around(v, 0, f, base)
  {
    var wlo, whi;
    FileRange(f);
    base, wlo, whi := GetOverlappingInputs(true, v[0], Some(f.smallest.user), Some(f.largest.user));
    OverlappingMember(v[0], wlo, whi, f);
    OverlappingPickable(v[0], true, wlo, whi);
    OverlappingInOrder(true, v[0], wlo, whi);
  }

  // ---- Where a flushed memtable goes ----

  /** No file of levels 0 to `level` meets the user-key range. */
  ghost predicate ClearDownTo(v: Version, level: nat, lo: UserKey, hi: UserKey) {
    level < NUM_LEVELS && forall i: nat, f | i <= level && f in v[i] :: !Overlaps(f, Some(lo), Some(hi))
  }

  const MAX_MEM_COMPACT_LEVEL: nat := 2

  /** The level for a new table of the user-key range.  Quantified, so that it unfolds only where a proof asks for
      `ClearNoDeeper`. */
  ghost predicate LevelFor(v: Version, level: nat, lo: UserKey, hi: UserKey, maxGrandparentBytes: nat) {
    forall l: nat | l == level :: ClearNoDeeper(v, l, lo, hi, maxGrandparentBytes)
  }

  /** Clear down to the level, and no deeper one would do. */
  ghost predicate ClearNoDeeper(v: Version, level: nat, lo: UserKey, hi: UserKey, maxGrandparentBytes: nat) {
    && level <= MAX_MEM_COMPACT_LEVEL && (level > 0 ==> ClearDownTo(v, level, lo, hi))
    && (level < MAX_MEM_COMPACT_LEVEL ==>
          || (level == 0 && exists f :: f in v[0] && Overlaps(f, Some(lo), Some(hi)))
          || (exists f :: f in v[level + 1] && Overlaps(f, Some(lo), Some(hi)))
          || TotalFileSize(Overlapping(v[level + 2], Some(lo), Some(hi))) > maxGrandparentBytes)
  }

  method PickLevelForMemTableOutput(v: Version, lo: UserKey, hi: UserKey, maxGrandparentBytes: nat) returns (level: nat)
    requires Shape(v)
    ensures LevelFor(v, level, lo, hi, maxGrandparentBytes)
  {
    level := 0;
    var overlap := FileSearch.SomeFileOverlapsRange(false, v[0], Some(lo), Some(hi));
    if !overlap {
      while level < MAX_MEM_COMPACT_LEVEL
        invariant level <= MAX_MEM_COMPACT_LEVEL && ClearDownTo(v, level, lo, hi)
      {
        overlap := FileSearch.SomeFileOverlapsRange(true, v[level + 1], Some(lo), Some(hi));
        if overlap {
          break;
        }
        var overlaps, _, _ := GetOverlappingInputs(false, v[level + 2], Some(lo), Some(hi));
        if TotalFileSize(overlaps) > maxGrandparentBytes {
          break;
        }
        level := level + 1;
      }
    }
  }
}
