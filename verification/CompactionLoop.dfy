/** The compaction loop of DBImpl::DoCompactionWork (db/db_impl.cc:878-1036) and the cursor of
    Compaction::IsBaseLevelForKey (db/version_set.cc:1533-1552). */
module CompactionLoop {
  import opened DbFormat
  import opened Visibility
  import opened Files

  predicate Spans(f: File, k: UserKey) {
    f.smallest.user <= k <= f.largest.user
  }

  /** Full scan: no file of levels `level + 2` and deeper spans `k`. */
  ghost predicate IsBase(v: Version, level: nat, k: UserKey) {
    forall lvl: nat, f | level + 2 <= lvl < NUM_LEVELS && f in v[lvl] :: !Spans(f, k)
  }

  ghost function BaseKeys(v: Version, level: nat): iset<UserKey> {
    iset k | IsBase(v, level, k)
  }

  /** A compaction's cursors into the deeper levels. */
  class Compaction {
    const level: nat
    const version: Version
    var ptrs: seq<nat>

    constructor (version: Version, level: nat)
      ensures this.version == version && this.level == level
      ensures Valid() && forall k :: Passed(k)
    {
      this.version, this.level := version, level;
      ptrs := seq(NUM_LEVELS, _ => 0);
    }

    ghost predicate Valid()
      reads this
    {
      |ptrs| == NUM_LEVELS && forall lvl: nat | lvl < NUM_LEVELS :: ptrs[lvl] <= |version[lvl]|
    }

    /** The cursors have not run past any file that could span `k` or a later key. */
    ghost predicate Passed(k: UserKey)
      requires Valid()
      reads this
    {
      forall lvl: nat, j | level + 2 <= lvl < NUM_LEVELS && 0 <= j < ptrs[lvl] :: version[lvl][j].largest.user < k
    }

    /** For ascending keys the advancing cursors agree with the full scan. */
    method IsBaseLevelForKey(k: UserKey) returns (b: bool)
      requires Valid() && Shape(version) && Passed(k)
      modifies this
      ensures Valid() && forall k' | k <= k' :: Passed(k')
      ensures b == IsBase(version, level, k)
    {
      var lvl := level + 2;
      while lvl < NUM_LEVELS
        invariant level + 2 <= lvl
        invariant Valid() && Passed(k)
        invariant forall l: nat, f | level + 2 <= l < lvl && l < NUM_LEVELS && f in version[l] :: !Spans(f, k)
      {
        var spans := Advance(lvl, k);
        if spans {
          return false;
        }
        lvl := lvl + 1;
      }
      return true;
    }

    /** Moves one level's cursor to the first file ending at or after `k`. */
    method Advance(lvl: nat, k: UserKey) returns (spans: bool)
      requires level + 2 <= lvl < NUM_LEVELS && Valid() && Shape(version) && Passed(k)
      modifies this
      ensures Valid() && Passed(k)
      ensures spans <==> exists f :: f in version[lvl] && Spans(f, k)
    {
      var files := version[lvl];
      while ptrs[lvl] < |files|
        invariant Valid() && Passed(k)
        decreases |files| - ptrs[lvl]
      {
        var f := files[ptrs[lvl]];
        if k <= f.largest.user {
          if k >= f.smallest.user {
            assert f in version[lvl] && Spans(f, k);
            return true;
          }
          forall j | ptrs[lvl] < j < |files| ensures !Spans(files[j], k) {
            FileRange(f);
            assert Less(f.largest, files[j].smallest);
          }
          return false;
        }
        ptrs := ptrs[lvl := ptrs[lvl] + 1];
      }
      return false;
    }
  }

  // ---- Which entries of the sorted input survive ----

  /** The running test of the loop at position `i`, from the entry before it. */
  ghost predicate Drops(input: seq<Entry>, i: nat, oldest: nat, base: iset<UserKey>)
    requires i < |input|
  {
    || (i > 0 && input[i - 1].key.user == input[i].key.user && input[i - 1].key.sequence <= oldest)
    || ObsoleteDeletion(oldest, base, input[i])
  }

  ghost function KeptSeq(input: seq<Entry>, n: nat, oldest: nat, base: iset<UserKey>): seq<Entry>
    requires n <= |input|
  {
    if n == 0 then []
    else KeptSeq(input, n - 1, oldest, base) + (if Drops(input, n - 1, oldest, base) then [] else [input[n - 1]])
  }

  /** In a sorted input, the entry just before tells whether any newer entry hides this one. */
  lemma HiddenIsNeighbour(input: seq<Entry>, i: nat, oldest: nat)
    requires Sorted(input) && OneEntryPerSeq(ToSet(input)) && i < |input|
    ensures Hidden(ToSet(input), oldest, input[i])
            <==> (i > 0 && input[i - 1].key.user == input[i].key.user && input[i - 1].key.sequence <= oldest)
  {
    var S := ToSet(input);
    if Hidden(S, oldest, input[i]) {
      var x :| x in S && x.key.user == input[i].key.user && input[i].key.sequence < x.key.sequence <= oldest;
      var j :| 0 <= j < |input| && input[j] == x;
      assert j < i;
      if j < i - 1 {
        assert Less(input[j].key, input[i - 1].key) && Less(input[i - 1].key, input[i].key);
      }
    }
    if i > 0 && input[i - 1].key.user == input[i].key.user && input[i - 1].key.sequence <= oldest {
      assert input[i - 1] in S && input[i] in S && Less(input[i - 1].key, input[i].key);
    }
  }

  lemma {:induction false} KeptSeqMember(input: seq<Entry>, n: nat, oldest: nat, base: iset<UserKey>, e: Entry)
    requires n <= |input|
    ensures e in KeptSeq(input, n, oldest, base) <==> exists i :: 0 <= i < n && input[i] == e
                                                                  && !Drops(input, i, oldest, base)
  {
    if n > 0 {
      KeptSeqMember(input, n - 1, oldest, base, e);
    }
  }

  /** The running test keeps exactly the entries the two rules keep. */
  lemma KeptSeqIsKept(input: seq<Entry>, oldest: nat, base: iset<UserKey>)
    requires Sorted(input) && OneEntryPerSeq(ToSet(input))
    ensures ToSet(KeptSeq(input, |input|, oldest, base)) == Kept(ToSet(input), oldest, base)
  {
    forall e ensures e in KeptSeq(input, |input|, oldest, base) <==> e in Kept(ToSet(input), oldest, base) {
      KeptSeqMember(input, |input|, oldest, base, e);
      forall i: nat | i < |input| && input[i] == e
        ensures Drops(input, i, oldest, base) <==> Hidden(ToSet(input), oldest, e) || ObsoleteDeletion(oldest, base, e)
      {
        HiddenIsNeighbour(input, i, oldest);
      }
    }
  }

  lemma {:induction false} KeptSeqSorted(input: seq<Entry>, n: nat, oldest: nat, base: iset<UserKey>)
    requires Sorted(input) && n <= |input|
    ensures Sorted(KeptSeq(input, n, oldest, base))
    ensures n < |input| ==> forall e | e in KeptSeq(input, n, oldest, base) :: Less(e.key, input[n].key)
  {
    if n > 0 {
      KeptSeqSorted(input, n - 1, oldest, base);
    }
  }

  // ---- Output files ----

  function MakeFile(number: nat, size: nat, entries: seq<Entry>): File
    requires entries != []
  {
    File(number, size, entries[0].key, entries[|entries| - 1].key, entries)
  }

  function Concat(files: seq<File>): seq<Entry> {
    if files == [] then [] else Concat(files[..|files| - 1]) + files[|files| - 1].entries
  }

  ghost predicate Bounded(s: seq<Entry>) {
    forall e | e in s :: e.key.sequence <= MAX_SEQUENCE
  }

  /** Consecutive output files, each described by its own entries. */
  ghost predicate Made(files: seq<File>, firstNumber: nat) {
    forall j | 0 <= j < |files| ::
      files[j].entries != [] && files[j] == MakeFile(firstNumber + j, files[j].size, files[j].entries)
  }

  /** Cutting a sorted run gives well-formed files that follow one another. */
  lemma {:induction false} CutsAreFiles(files: seq<File>, firstNumber: nat)
    requires Made(files, firstNumber)
    requires Sorted(Concat(files)) && Bounded(Concat(files))
    ensures FilesOk(files) && Disjoint(files)
  {
    if files != [] {
      var n := |files| - 1;
      var init, last := files[..n], files[n];
      var s := Concat(init);
      assert Concat(files) == s + last.entries;
      forall i, j | 0 <= i < j < |s| ensures Less(s[i].key, s[j].key) {
        assert Concat(files)[i] == s[i] && Concat(files)[j] == s[j];
      }
      forall e | e in s ensures e.key.sequence <= MAX_SEQUENCE {
        assert e in Concat(files);
      }
      CutsAreFiles(init, firstNumber);
      LastCut(s, last);
      forall k | 0 <= k < n ensures Less(files[k].largest, last.smallest) {
        assert files[k] == init[k] && init[k] in init;
        var e := files[k].entries[|files[k].entries| - 1];
        InConcat(init, k, e);
        var i :| 0 <= i < |s| && s[i] == e;
        assert (s + last.entries)[i] == e && (s + last.entries)[|s|] == last.entries[0];
      }
      forall f | f in files ensures FileOk(f) {
        assert f in init || f == last;
      }
    }
  }

  lemma LastCut(s: seq<Entry>, f: File)
    requires f.entries != [] && f == MakeFile(f.number, f.size, f.entries)
    requires Sorted(s + f.entries) && Bounded(s + f.entries)
    ensures FileOk(f)
  {
    var all := s + f.entries;
    forall i, j | 0 <= i < j < |f.entries| ensures Less(f.entries[i].key, f.entries[j].key) {
      assert all[|s| + i] == f.entries[i] && all[|s| + j] == f.entries[j];
    }
  }

  lemma {:induction false} InConcat(files: seq<File>, k: nat, e: Entry)
    requires k < |files| && e in files[k].entries
    ensures e in Concat(files)
  {
    if k < |files| - 1 {
      InConcat(files[..|files| - 1], k, e);
    }
  }

  lemma {:induction false} ConcatIsLevel(files: seq<File>)
    ensures ToSet(Concat(files)) == LevelEntries(files)
  {
    if files != [] {
      var n := |files| - 1;
      ConcatIsLevel(files[..n]);
      assert files == files[..n] + [files[n]];
      forall e ensures e in LevelEntries(files) <==> e in LevelEntries(files[..n]) || e in files[n].entries {
        if e in files[n].entries {
          assert files[n] in files;
        }
      }
    }
  }

  // ---- Where outputs are cut ----

  /** How many entries the first files hold, for each number of them. */
  function Ends(files: seq<File>): seq<nat> {
    if files == [] then [] else Ends(files[..|files| - 1]) + [|Concat(files)|]
  }

  /** An output is closed after entry `p` and before entry `i`: it was full, or was to stop before one in between. */
  ghost predicate ClosedSince(stop: nat -> bool, full: nat -> bool, p: nat, i: nat) {
    full(p) || exists s: nat :: p < s < i && stop(s)
  }

  /** Between the `m`th kept entry and the one before it a new file begins exactly when it should. */
  ghost predicate CutAt(ends: seq<nat>, kept: seq<nat>, stop: nat -> bool, full: nat -> bool, m: nat)
    requires 0 < m < |kept|
  {
    m in ends <==> ClosedSince(stop, full, kept[m - 1], kept[m] + 1)
  }

  /** Entries kept so far, by their positions below `i`; `open` when the last file is not closed. */
  ghost predicate CutSoFar(ends: seq<nat>, open: bool, kept: seq<nat>, stop: nat -> bool, full: nat -> bool, i: nat) {
    && (forall m: nat | m < |kept| :: kept[m] < i) && (forall e | e in ends :: e <= |kept|)
    && (forall m: nat | 0 < m < |kept| :: CutAt(ends, kept, stop, full, m))
    && if kept == [] then !open
       else (|kept| in ends <==> !open) && (!open <==> ClosedSince(stop, full, kept[|kept| - 1], i))
  }

  lemma StopsBefore(ends: seq<nat>, open: bool, kept: seq<nat>, stop: nat -> bool, full: nat -> bool, i: nat)
    requires CutSoFar(ends, open, kept, stop, full, i)
    ensures CutSoFar(if stop(i) && open then ends + [|kept|] else ends, open && !stop(i), kept, stop, full, i + 1)
  {
    var ends' := if stop(i) && open then ends + [|kept|] else ends;
    forall m: nat | 0 < m < |kept| ensures CutAt(ends', kept, stop, full, m) {
      assert CutAt(ends, kept, stop, full, m);
    }
  }

  lemma Keeps(ends: seq<nat>, open: bool, kept: seq<nat>, stop: nat -> bool, full: nat -> bool, i: nat)
    requires CutSoFar(ends, open, kept, stop, full, i + 1) && forall m: nat | m < |kept| :: kept[m] < i
    ensures CutSoFar(if full(i) then ends + [|kept| + 1] else ends, !full(i), kept + [i], stop, full, i + 1)
  {
    var ends', kept' := if full(i) then ends + [|kept| + 1] else ends, kept + [i];
    forall m: nat | 0 < m < |kept'| ensures CutAt(ends', kept', stop, full, m) {
      if m < |kept| {
        assert CutAt(ends, kept, stop, full, m);
      }
    }
  }

  /** The entries are those at these positions of the input, in order. */
  ghost predicate At(input: seq<Entry>, kept: seq<nat>, s: seq<Entry>) {
    && |kept| == |s| && (forall m: nat | m < |s| :: kept[m] < |input| && s[m] == input[kept[m]])
    && forall m: nat, n: nat | m < n < |kept| :: kept[m] < kept[n]
  }

  /** What the loop has made of the first `i` entries. */
  ghost predicate PlacedSoFar(input: seq<Entry>, outputs: seq<File>, builder: seq<Entry>, kept: seq<nat>,
                              stop: nat -> bool, full: nat -> bool, i: nat) {
    At(input, kept, Concat(outputs) + builder) && CutRight(Ends(outputs), builder != [], kept, stop, full, i)
  }

  /** Quantified, so that it unfolds only where a proof asks for `CutSoFar`. */
  ghost predicate CutRight(ends: seq<nat>, open: bool, kept: seq<nat>, stop: nat -> bool, full: nat -> bool, i: nat) {
    forall e: seq<nat> | e == ends :: CutSoFar(e, open, kept, stop, full, i)
  }

  /** The outputs hold the entries at `kept`, a new file for each place where one should begin. */
  ghost predicate CutAsAsked(input: seq<Entry>, outputs: seq<File>, kept: seq<nat>, stop: nat -> bool,
                             full: nat -> bool) {
    && At(input, kept, Concat(outputs))
    && forall m: nat | 0 < m < |kept| :: CutAt(Ends(outputs), kept, stop, full, m)
  }

  ghost predicate Sized(files: seq<File>, fileSize: seq<Entry> -> nat) {
    forall f | f in files :: f.size == fileSize(f.entries)
  }

  /** The drop decision for one entry, and the running variables after it. */
  method Decide(c: Compaction, e: Entry, current: Option<UserKey>, lastSequence: nat, oldest: nat)
    returns (drop: bool, current': Option<UserKey>, lastSequence': nat)
    requires c.Valid() && Shape(c.version) && c.Passed(e.key.user)
    requires oldest < MAX_SEQUENCE
    modifies c
    ensures c.Valid() && forall k | e.key.user <= k :: c.Passed(k)
    ensures current' == Some(e.key.user) && lastSequence' == e.key.sequence
    ensures drop <==> (current == Some(e.key.user) && lastSequence <= oldest)
                      || ObsoleteDeletion(oldest, BaseKeys(c.version, c.level), e)
  {
    current', lastSequence' := current, lastSequence;
    drop := false;
    if current'.None? || e.key.user != current'.value {
      current', lastSequence' := Some(e.key.user), MAX_SEQUENCE;
    }
    if lastSequence' <= oldest {
      drop := true;
    } else if e.key.kind.Deletion? && e.key.sequence <= oldest {
      drop := c.IsBaseLevelForKey(e.key.user);
    }
    lastSequence' := e.key.sequence;
  }

  /** Adds an entry to the open output unless it is dropped, closing outputs as asked. */
  method Place(outputs: seq<File>, builder: seq<Entry>, firstNumber: nat, e: Entry, drop: bool, stop: bool, full: bool,
               fileSize: seq<Entry> -> nat)
    returns (outputs': seq<File>, builder': seq<Entry>)
    requires Made(outputs, firstNumber) && Sized(outputs, fileSize)
    ensures Made(outputs', firstNumber) && Sized(outputs', fileSize)
    ensures Concat(outputs') + builder' == Concat(outputs) + builder + (if drop then [] else [e])
    ensures var n := |Concat(outputs) + builder|;
            var ends := if stop && builder != [] then Ends(outputs) + [n] else Ends(outputs);
            if drop then Ends(outputs') == ends && (builder' != [] <==> builder != [] && !stop)
            else Ends(outputs') == (if full then ends + [n + 1] else ends) && (builder' != [] <==> !full)
  {
    outputs', builder' := outputs, builder;
    if stop && builder' != [] {
      outputs' := FinishOutput(outputs', firstNumber, builder', fileSize);
      builder' := [];
    }
    if !drop {
      builder' := builder' + [e];
      if full {
        outputs' := FinishOutput(outputs', firstNumber, builder', fileSize);
        builder' := [];
      }
    }
  }

  /** Entry `i` of the input, placed. */
  method PlaceAt(input: seq<Entry>, i: nat, outputs: seq<File>, builder: seq<Entry>, firstNumber: nat, drop: bool,
                 stop: nat -> bool, full: nat -> bool, fileSize: seq<Entry> -> nat, ghost kept: seq<nat>)
    returns (outputs': seq<File>, builder': seq<Entry>, ghost kept': seq<nat>)
    requires i < |input| && Made(outputs, firstNumber) && Sized(outputs, fileSize)
    requires PlacedSoFar(input, outputs, builder, kept, stop, full, i)
    ensures Made(outputs', firstNumber) && Sized(outputs', fileSize)
    ensures Concat(outputs') + builder' == Concat(outputs) + builder + (if drop then [] else [input[i]])
    ensures PlacedSoFar(input, outputs', builder', kept', stop, full, i + 1)
  {
    CutPlaced(Ends(outputs), builder != [], kept, stop, full, i, drop);
    kept' := kept;
    if !drop {
      AtOn(input, kept, Concat(outputs) + builder, i);
      kept' := kept + [i];
    }
    outputs', builder' := Place(outputs, builder, firstNumber, input[i], drop, stop(i), full(i), fileSize);
  }

  lemma CutPlaced(ends: seq<nat>, open: bool, kept: seq<nat>, stop: nat -> bool, full: nat -> bool, i: nat, drop: bool)
    requires CutRight(ends, open, kept, stop, full, i)
    ensures forall m: nat | m < |kept| :: kept[m] < i
    ensures var ends' := if stop(i) && open then ends + [|kept|] else ends;
            if drop then CutRight(ends', open && !stop(i), kept, stop, full, i + 1)
            else CutRight(if full(i) then ends' + [|kept| + 1] else ends', !full(i), kept + [i], stop, full, i + 1)
  {
    assert CutSoFar(ends, open, kept, stop, full, i);
    StopsBefore(ends, open, kept, stop, full, i);
    if !drop {
      Keeps(if stop(i) && open then ends + [|kept|] else ends, open && !stop(i), kept, stop, full, i);
    }
  }

  lemma AtOn(input: seq<Entry>, kept: seq<nat>, s: seq<Entry>, i: nat)
    requires i < |input| && At(input, kept, s) && forall m: nat | m < |kept| :: kept[m] < i
    ensures At(input, kept + [i], s + [input[i]])
  {
  }

  lemma KeptSeqOn(input: seq<Entry>, i: nat, oldest: nat, base: iset<UserKey>, s: seq<Entry>, drop: bool)
    requires i < |input| && s == KeptSeq(input, i, oldest, base) && drop == Drops(input, i, oldest, base)
    ensures s + (if drop then [] else [input[i]]) == KeptSeq(input, i + 1, oldest, base)
  {
  }

  /** The last output is closed at the end of the input. */
  method CloseLast(input: seq<Entry>, outputs: seq<File>, builder: seq<Entry>, firstNumber: nat,
                   ghost stop: nat -> bool, ghost full: nat -> bool, fileSize: seq<Entry> -> nat, ghost kept: seq<nat>)
    returns (r: seq<File>)
    requires Made(outputs, firstNumber) && Sized(outputs, fileSize)
    requires PlacedSoFar(input, outputs, builder, kept, stop, full, |input|)
    ensures Made(r, firstNumber) && Sized(r, fileSize) && Concat(r) == Concat(outputs) + builder
    ensures CutAsAsked(input, r, kept, stop, full)
  {
    r := outputs;
    assert CutSoFar(Ends(outputs), builder != [], kept, stop, full, |input|);
    if builder != [] {
      ClosesLast(Ends(outputs), kept, stop, full, |input|);
      r := FinishOutput(outputs, firstNumber, builder, fileSize);
    } else {
      assert Concat(outputs) + builder == Concat(outputs);
    }
  }

  /** DoCompactionWork over the merged input, in order.  `stop(i)` and `full(i)` say whether an output is closed
      before or after entry `i`: the code decides that from sizes, and files begin there and nowhere else.  The
      entries kept are those at the positions `kept`. */
  method DoCompactionWork(c: Compaction, input: seq<Entry>, oldest: nat, firstNumber: nat,
                          stop: nat -> bool, full: nat -> bool, fileSize: seq<Entry> -> nat)
    returns (outputs: seq<File>, ghost kept: seq<nat>)
    requires c.Valid() && Shape(c.version) && (forall k :: c.Passed(k))
    requires Sorted(input) && Bounded(input)
    requires oldest < MAX_SEQUENCE
    modifies c
    ensures Concat(outputs) == KeptSeq(input, |input|, oldest, BaseKeys(c.version, c.level))
    ensures CutAsAsked(input, outputs, kept, stop, full)
    ensures FilesOk(outputs) && Disjoint(outputs)
    ensures Made(outputs, firstNumber) && Sized(outputs, fileSize)
  {
    kept := [];
    ghost var base := BaseKeys(c.version, c.level);
    outputs := [];
    var builder: seq<Entry> := [];
    var current: Option<UserKey> := None;
    var lastSequence := MAX_SEQUENCE;
    var i := 0;
    while i < |input|
      invariant 0 <= i <= |input|
      invariant c.Valid() && (i < |input| ==> c.Passed(input[i].key.user))
      invariant i == 0 ==> current.None?
      invariant i > 0 ==> current == Some(input[i - 1].key.user) && lastSequence == input[i - 1].key.sequence
      invariant Concat(outputs) + builder == KeptSeq(input, i, oldest, base)
      invariant Made(outputs, firstNumber) && Sized(outputs, fileSize)
      invariant PlacedSoFar(input, outputs, builder, kept, stop, full, i)
    {
      var e := input[i];
      var drop;
      drop, current, lastSequence := Decide(c, e, current, lastSequence, oldest);
      KeptSeqOn(input, i, oldest, base, Concat(outputs) + builder, drop);
      outputs, builder, kept := PlaceAt(input, i, outputs, builder, firstNumber, drop, stop, full, fileSize, kept);
      i := i + 1;
      assert i < |input| ==> Less(input[i - 1].key, input[i].key);
    }
    outputs := CloseLast(input, outputs, builder, firstNumber, stop, full, fileSize, kept);
    KeptSeqSorted(input, |input|, oldest, base);
    KeptBounded(input, oldest, base);
    CutsAreFiles(outputs, firstNumber);
  }

  lemma ClosesLast(ends: seq<nat>, kept: seq<nat>, stop: nat -> bool, full: nat -> bool, i: nat)
    requires CutSoFar(ends, true, kept, stop, full, i)
    ensures forall m: nat | 0 < m < |kept| :: CutAt(ends + [|kept|], kept, stop, full, m)
  {
    forall m: nat | 0 < m < |kept| ensures CutAt(ends + [|kept|], kept, stop, full, m) {
      assert CutAt(ends, kept, stop, full, m);
    }
  }

  lemma KeptBounded(input: seq<Entry>, oldest: nat, base: iset<UserKey>)
    requires Bounded(input)
    ensures Bounded(KeptSeq(input, |input|, oldest, base))
  {
    forall e | e in KeptSeq(input, |input|, oldest, base) ensures e.key.sequence <= MAX_SEQUENCE {
      KeptSeqMember(input, |input|, oldest, base, e);
    }
  }

  method FinishOutput(outputs: seq<File>, firstNumber: nat, builder: seq<Entry>, fileSize: seq<Entry> -> nat)
    returns (r: seq<File>)
    requires builder != [] && Made(outputs, firstNumber) && Sized(outputs, fileSize)
    ensures Made(r, firstNumber) && Sized(r, fileSize) && |r| == |outputs| + 1
    ensures Concat(r) == Concat(outputs) + builder && Ends(r) == Ends(outputs) + [|Concat(outputs) + builder|]
  {
    r := outputs + [MakeFile(firstNumber + |outputs|, fileSize(builder), builder)];
    assert r[..|outputs|] == outputs;
  }
}
