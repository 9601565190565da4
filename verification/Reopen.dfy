/** Opening a database from its disk: DBImpl::Recover, RecoverLogFile and VersionSet::Recover
    (db/db_impl.cc:280-489, 1474-1506; db/version_set.cc:886-1000). */
module Reopen {
  import opened DbFormat
  import opened Visibility
  import opened Files
  import opened LevelSteps
  import opened CompactionLoop
  import opened Manifest
  import opened History
  import opened Engine
  import opened EngineBasics
  import EngineSteps
  import EngineRecovery
  import opened DbImpl

  // ---- Replaying the MANIFEST ----

  lemma {:induction false} AddedIsEver(edits: seq<VersionEdit>, n: nat, i: nat)
    requires n <= |edits| && i < NUM_LEVELS
    ensures AllAdded(edits[..n], i) <= EverAdded(edits)
    decreases |edits| - n
  {
    if n == |edits| {
      assert edits[..n] == edits;
    } else {
      AddedIsEver(edits, n + 1, i);
      assert edits[..n + 1][..n] == edits[..n];
    }
  }

  lemma {:induction false} FoldAdded(edits: seq<VersionEdit>, i: nat)
    ensures Fold(edits, i).added == AllAdded(edits, i)
  {
    if edits != [] {
      FoldAdded(edits[..|edits| - 1], i);
    }
  }

  /** VersionSet::Recover: one Builder over every edit, saved once; the last value of each counter wins. */
  method ReplayManifest(edits: seq<VersionEdit>)
    returns (base: Version, logNumber: Option<nat>, nextFile: Option<nat>, lastSequence: Option<nat>)
    requires (forall e | e in edits :: EditOk(e)) && NumbersName(EverAdded(edits))
    ensures Replayed(edits, base)
    ensures logNumber == LastLogNumber(edits) && nextFile == LastNextFile(edits)
            && lastSequence == LastLastSequence(edits)
  {
    var builder := new Builder([[], [], [], [], [], [], []]);
    logNumber, nextFile, lastSequence := None, None, None;
    var n := 0;
    while n < |edits|
      invariant 0 <= n <= |edits| && builder.Valid() && fresh(builder)
      invariant builder.base == [[], [], [], [], [], [], []]
      invariant forall i: nat | i < NUM_LEVELS :: builder.State(i) == Fold(edits[..n], i)
      invariant logNumber == LastLogNumber(edits[..n]) && nextFile == LastNextFile(edits[..n])
                && lastSequence == LastLastSequence(edits[..n])
    {
      var e := edits[n];
      assert edits[..n + 1][..n] == edits[..n] && edits[..n + 1][n] == e;
      forall i: nat | i < NUM_LEVELS ensures NumbersName(FileSet(builder.added[i]) + Added(e, i)) {
        assert builder.State(i) == Fold(edits[..n], i);
        FoldAdded(edits[..n], i);
        AddedIsEver(edits, n + 1, i);
        assert FileSet(builder.added[i]) + Added(e, i) == AllAdded(edits[..n + 1], i);
      }
      builder.Apply(e);
      logNumber := if e.logNumber.Some? then e.logNumber else logNumber;
      nextFile := if e.nextFile.Some? then e.nextFile else nextFile;
      lastSequence := if e.lastSequence.Some? then e.lastSequence else lastSequence;
      n := n + 1;
    }
    assert edits[..n] == edits;
    assert forall i: nat | i < NUM_LEVELS :: builder.base[i] == [] && FileSet(builder.base[i]) == {};
    base := builder.SaveTo();
  }

  // ---- Reading the logs ----

  lemma {:induction false} RecordEntriesConcat(a: seq<Record>, b: seq<Record>)
    ensures RecordEntries(a + b) == RecordEntries(a) + RecordEntries(b)
  {
    if b == [] {
      assert a + b == a;
    } else {
      var n := |b| - 1;
      RecordEntriesConcat(a, b[..n]);
      assert (a + b)[..|a + b| - 1] == a + b[..n] && (a + b)[|a + b| - 1] == b[n];
    }
  }

  lemma {:induction false} LastOfConcat(a: seq<Record>, b: seq<Record>)
    ensures LastOf(a + b) == Max(LastOf(a), LastOf(b))
  {
    if b == [] {
      assert a + b == a;
    } else {
      var n := |b| - 1;
      LastOfConcat(a, b[..n]);
      assert (a + b)[..|a + b| - 1] == a + b[..n] && (a + b)[|a + b| - 1] == b[n];
    }
  }

  /** Ascending numbers below `next`. */
  ghost predicate Numbered(files: seq<File>, low: nat, next: nat) {
    && (forall i, j | 0 <= i < j < |files| :: files[i].number < files[j].number)
    && (forall f | f in files :: low < f.number < next)
    && low < next
  }

  /** How far the reading loop has come: the `written` records, operations `a` to `p`, are in tables, and the `tail`
      read since, operations `p` to `m`, is in the memtable. */
  datatype Progress = Progress(written: seq<Record>, tail: seq<Record>, p: nat, m: nat)

  /** What the logs are read for: operations `a` to `c` of the history. */
  datatype Span = Span(hist: seq<Op>, a: nat, c: nat)

  ghost predicate Reading(g: Progress, files: seq<File>, mem: seq<Entry>, span: Span) {
    && span.a <= g.p <= g.m <= span.c <= |span.hist| < MAX_SEQUENCE
    && Covers(g.written, span.hist, span.a, g.p) && Covers(g.tail, span.hist, g.p, g.m)
    && WrittenFrom(g.written, files) && Sorted(mem) && ToSet(mem) == RecordEntries(g.tail)
  }

  /** Reading one more record into the memtable. */
  lemma OneMoreRecord(g: Progress, r: Record, files: seq<File>, mem: seq<Entry>, span: Span)
    requires Reading(g, files, mem, span)
    requires g.m + |r.ops| <= span.c && r == Record(g.m + 1, span.hist[g.m..g.m + |r.ops|])
    ensures Reading(g.(tail := g.tail + [r], m := g.m + |r.ops|), files, AddAll(mem, r.first, r.ops), span)
  {
    var all := g.tail + [r];
    assert all[..|all| - 1] == g.tail && all[|all| - 1] == r;
    CoversEntries(g.tail, span.hist, g.p, g.m);
    forall x | x in mem ensures x.key.sequence < r.first {
      assert x in ToSet(mem);
      RangeEntry(span.hist, g.p, g.m, x);
    }
    AddAllOk(mem, r.first, r.ops);
    assert RecordEntries(all) == RecordEntries(g.tail) + BatchEntries(r.first, r.ops);
  }

  /** Everything read is in tables. */
  function AllWritten(g: Progress): Progress {
    Progress(g.written + g.tail, [], g.m, g.m)
  }

  /** Writing the memtable out as a table. */
  lemma OneMoreTable(g: Progress, files: seq<File>, mem: seq<Entry>, span: Span, f: File)
    requires Reading(g, files, mem, span) && f.entries == mem
    ensures Reading(AllWritten(g), files + [f], [], span) && Bounded(mem)
  {
    var more, all := files + [f], g.written + g.tail;
    assert more[..|more| - 1] == files && more[|more| - 1] == f;
    assert all[..|g.written|] == g.written && all[|g.written|..] == g.tail;
    CoversConcat(g.written, g.tail, span.hist, span.a, g.p, g.m);
    CoversEntries(g.tail, span.hist, g.p, g.m);
    forall e | e in mem ensures e.key.sequence <= MAX_SEQUENCE {
      assert e in ToSet(mem);
      RangeEntry(span.hist, g.p, g.m, e);
    }
  }

  lemma NothingMore(written: seq<Record>, tail: seq<Record>, files: seq<File>)
    requires WrittenFrom(written, files) && RecordEntries(tail) == {}
    ensures WrittenFrom(written + tail, files)
  {
    var all := written + tail;
    if files == [] {
      RecordEntriesConcat(written, tail);
    } else {
      var k := |files| - 1;
      var j: nat :| j <= |written| && FileEntries(files[k]) == RecordEntries(written[j..])
        && WrittenFrom(written[..j], files[..k]);
      assert all[j..] == written[j..] + tail && all[..j] == written[..j];
      RecordEntriesConcat(written[j..], tail);
    }
  }

  method WriteLevel0Table(files: seq<File>, mem: seq<Entry>, next: nat, fileSize: seq<Entry> -> nat, ghost low: nat)
    returns (r: seq<File>)
    requires mem != [] && Sorted(mem) && Bounded(mem) && FilesOk(files) && Numbered(files, low, next)
    ensures r == files + [MakeFile(next, fileSize(mem), mem)] && FilesOk(r) && Numbered(r, low, next + 1)
  {
    r := files + [MakeFile(next, fileSize(mem), mem)];
  }

  /** One more table, of `tail`. */
  ghost predicate WritesOut(files: seq<File>, files': seq<File>, tail: seq<Record>) {
    && |files'| == |files| + 1 && files'[..|files|] == files
    && tail != [] && FileEntries(files'[|files|]) == RecordEntries(tail)
  }

  /** A table of the records from `from` up to `to` of a log: it ends where the memtable was full, or with the log. */
  datatype Stretch = Stretch(from: nat, to: nat)

  ghost predicate Fills(f: File, s: Stretch, records: seq<Record>, full: nat -> bool, end: nat) {
    && s.from < s.to <= end <= |records| && FileEntries(f) == RecordEntries(records[s.from..s.to])
    && NoneFull(full, s.from, s.to - 1) && (s.to == |records| || full(s.to - 1))
  }

  ghost predicate NoneFull(full: nat -> bool, from: nat, to: nat) {
    forall i: nat | from <= i < to :: !full(i)
  }

  /** The tables from `n` on are those of the stretches, one after the other. */
  ghost predicate CutWhereFull(files: seq<File>, n: nat, stretches: seq<Stretch>, records: seq<Record>,
                               full: nat -> bool, end: nat) {
    && |files| == n + |stretches|
    && (forall k | 0 <= k < |stretches| :: Fills(files[n + k], stretches[k], records, full, end))
    && (forall j, k | 0 <= j < k < |stretches| :: stretches[j].to <= stretches[k].from)
  }

  /** The records in the memtable are the last ones read, and none of them filled it. */
  ghost predicate Unwritten(i: nat, records: seq<Record>, tail: seq<Record>, stretches: seq<Stretch>, full: nat -> bool)
  {
    && |tail| <= i <= |records| && tail == records[i - |tail|..i]
    && NoneFull(full, i - |tail|, i)
    && (forall k | 0 <= k < |stretches| :: stretches[k].to <= i - |tail|)
  }

  /** One more stretch, when the memtable is written out after record `i - 1`. */
  lemma OneMoreStretch(files: seq<File>, files': seq<File>, n: nat, stretches: seq<Stretch>, records: seq<Record>,
                       full: nat -> bool, i: nat, tail: seq<Record>)
    requires CutWhereFull(files, n, stretches, records, full, i) && WritesOut(files, files', tail)
    requires |tail| <= i <= |records| && tail == records[i - |tail|..i] && (i == |records| || full(i - 1))
    requires NoneFull(full, i - |tail|, i - 1) && forall k | 0 <= k < |stretches| :: stretches[k].to <= i - |tail|
    ensures CutWhereFull(files', n, stretches + [Stretch(i - |tail|, i)], records, full, i)
  {
    var all := stretches + [Stretch(i - |tail|, i)];
    forall k | 0 <= k < |all| ensures Fills(files'[n + k], all[k], records, full, i) {
      if k < |stretches| {
        assert files'[n + k] == files'[..|files|][n + k];
      }
    }
  }

  lemma LaterEnd(files: seq<File>, n: nat, stretches: seq<Stretch>, records: seq<Record>, full: nat -> bool, i: nat)
    requires CutWhereFull(files, n, stretches, records, full, i) && i < |records|
    ensures CutWhereFull(files, n, stretches, records, full, i + 1)
  {
    forall k | 0 <= k < |stretches| ensures Fills(files[n + k], stretches[k], records, full, i + 1) {
      assert Fills(files[n + k], stretches[k], records, full, i);
    }
  }

  /** Writes the memtable out as a table, if it holds anything. */
  method FlushRecovered(files: seq<File>, mem: seq<Entry>, next: nat, fileSize: seq<Entry> -> nat,
                        ghost low: nat, ghost g: Progress, ghost span: Span)
    returns (files': seq<File>, next': nat)
    requires Reading(g, files, mem, span) && FilesOk(files) && Numbered(files, low, next)
    ensures Reading(AllWritten(g), files', [], span) && FilesOk(files') && Numbered(files', low, next') && next <= next'
    ensures files' == files || WritesOut(files, files', g.tail)
  {
    files', next' := files, next;
    if mem != [] {
      OneMoreTable(g, files, mem, span, MakeFile(next, fileSize(mem), mem));
      files' := WriteLevel0Table(files, mem, next, fileSize, low);
      assert mem[0] in RecordEntries(g.tail) && files'[..|files|] == files;
      next' := next + 1;
    } else {
      NothingMore(g.written, g.tail, files);
      CoversConcat(g.written, g.tail, span.hist, span.a, g.p, g.m);
    }
  }

  /** Record `i` of the log is next; everything before it is in tables or in the memtable. */
  ghost predicate At(i: nat, records: seq<Record>, done: seq<Record>, g: Progress, files: seq<File>, mem: seq<Entry>,
                     span: Span) {
    && i <= |records| && Reading(g, files, mem, span)
    && Covers(records[i..], span.hist, g.m, span.c)
    && g.written + g.tail == done + records[..i]
  }

  lemma AtStart(records: seq<Record>, done: seq<Record>, files: seq<File>, b: nat, span: Span)
    requires span.a <= b <= span.c <= |span.hist| < MAX_SEQUENCE
    requires Covers(done, span.hist, span.a, b) && Covers(records, span.hist, b, span.c) && WrittenFrom(done, files)
    ensures At(0, records, done, Progress(done, [], b, b), files, [], span)
  {
    assert records[0..] == records && records[..0] == [];
  }

  lemma SoFar(i: nat, records: seq<Record>, done: seq<Record>, written: seq<Record>, tail: seq<Record>)
    requires i < |records| && written + tail == done + records[..i]
    ensures written + (tail + [records[i]]) == done + records[..i + 1]
  {
    Assoc(written, tail, [records[i]]);
    Assoc(done, records[..i], [records[i]]);
    assert records[..i] + [records[i]] == records[..i + 1];
  }

  /** Record `i` is the next of the history. */
  lemma NextAt(i: nat, records: seq<Record>, hist: seq<Op>, m: nat, c: nat)
    requires i < |records| && m <= c <= |hist| && Covers(records[i..], hist, m, c)
    ensures var r := records[i];
            m + |r.ops| <= c && r == Record(m + 1, hist[m..m + |r.ops|])
            && Covers(records[i + 1..], hist, m + |r.ops|, c)
  {
    assert records[i..][0] == records[i] && records[i..][1..] == records[i + 1..];
    NextRecord(records[i..], hist, m, c);
  }

  lemma AtNext(i: nat, records: seq<Record>, done: seq<Record>, g: Progress, files: seq<File>, mem: seq<Entry>,
               span: Span)
    requires i < |records| && At(i, records, done, g, files, mem, span)
    ensures var r := records[i];
            At(i + 1, records, done, g.(tail := g.tail + [r], m := g.m + |r.ops|), files, AddAll(mem, r.first, r.ops),
                span)
  {
    var r := records[i];
    NextAt(i, records, span.hist, g.m, span.c);
    OneMoreRecord(g, r, files, mem, span);
    SoFar(i, records, done, g.written, g.tail);
  }

  /** The memtable is written out. */
  lemma AtWritten(i: nat, records: seq<Record>, done: seq<Record>, g: Progress, files: seq<File>, mem: seq<Entry>,
                  files': seq<File>, span: Span)
    requires At(i, records, done, g, files, mem, span) && Reading(AllWritten(g), files', [], span)
    ensures At(i, records, done, AllWritten(g), files', [], span)
  {
    assert (g.written + g.tail) + [] == g.written + g.tail;
  }

  /** Record `r` joins the ones in the memtable, which are written out if it is full. */
  ghost predicate TakesOne(files: seq<File>, files': seq<File>, full: bool, tail: seq<Record>, r: Record,
                           tail': seq<Record>) {
    if full then tail' == [] && (files' == files || WritesOut(files, files', tail + [r]))
    else tail' == tail + [r] && files' == files
  }

  /** Inserts record `i` into the memtable and writes the memtable out if it is now too big. */
  method ReadOne(full: bool, files: seq<File>, mem: seq<Entry>, next: nat, fileSize: seq<Entry> -> nat,
                 i: nat, records: seq<Record>, ghost low: nat, ghost done: seq<Record>, ghost g: Progress,
                 ghost span: Span)
    returns (mem': seq<Entry>, files': seq<File>, next': nat, ghost g': Progress)
    requires i < |records| && At(i, records, done, g, files, mem, span) && FilesOk(files) && Numbered(files, low, next)
    ensures At(i + 1, records, done, g', files', mem', span)
    ensures FilesOk(files') && Numbered(files', low, next') && next <= next'
    ensures TakesOne(files, files', full, g.tail, records[i], g'.tail)
  {
    var r := records[i];
    AtNext(i, records, done, g, files, mem, span);
    mem' := InsertInto(mem, r.first, r.ops);
    files', next', g' := files, next, g.(tail := g.tail + [r], m := g.m + |r.ops|);
    if full {
      files', next' := FlushRecovered(files, mem', next, fileSize, low, g', span);
      AtWritten(i + 1, records, done, g', files, mem', files', span);
      mem', g' := [], AllWritten(g');
    }
  }

  /** The stretches once record `i` is read. */
  lemma NextStretch(before: seq<File>, files: seq<File>, n: nat, stretches: seq<Stretch>, records: seq<Record>,
                    full: nat -> bool, i: nat, tail: seq<Record>, tail': seq<Record>)
    returns (r: seq<Stretch>)
    requires i < |records| && CutWhereFull(before, n, stretches, records, full, i)
    requires Unwritten(i, records, tail, stretches, full) && TakesOne(before, files, full(i), tail, records[i], tail')
    ensures CutWhereFull(files, n, r, records, full, i + 1) && Unwritten(i + 1, records, tail', r, full)
  {
    var all := tail + [records[i]];
    assert all == records[i + 1 - |all|..i + 1];
    LaterEnd(before, n, stretches, records, full, i);
    r := stretches;
    if files != before {
      OneMoreStretch(before, files, n, stretches, records, full, i + 1, all);
      r := stretches + [Stretch(i + 1 - |all|, i + 1)];
    }
  }

  /** The stretches once the memtable left at the end is written. */
  lemma LastStretch(before: seq<File>, files: seq<File>, n: nat, stretches: seq<Stretch>, records: seq<Record>,
                    full: nat -> bool, tail: seq<Record>)
    returns (r: seq<Stretch>)
    requires CutWhereFull(before, n, stretches, records, full, |records|)
    requires Unwritten(|records|, records, tail, stretches, full) && (files == before || WritesOut(before, files, tail))
    ensures CutWhereFull(files, n, r, records, full, |records|)
  {
    r := stretches;
    if files != before {
      OneMoreStretch(before, files, n, stretches, records, full, |records|, tail);
      r := stretches + [Stretch(|records| - |tail|, |records|)];
    }
  }

  /** RecoverLogFile: read the records into memtables, writing a level-0 table whenever `full` says the memtable is too
      big, and once more at the end. */
  method RecoverLogFile(records: seq<Record>, files0: seq<File>, next0: nat, full: nat -> bool,
                        fileSize: seq<Entry> -> nat,
                        ghost low: nat, ghost done: seq<Record>, ghost b: nat, ghost span: Span)
    returns (files: seq<File>, next: nat, ghost stretches: seq<Stretch>)
    requires span.a <= b <= span.c <= |span.hist| < MAX_SEQUENCE
    requires Covers(done, span.hist, span.a, b) && Covers(records, span.hist, b, span.c)
    requires WrittenFrom(done, files0) && FilesOk(files0) && Numbered(files0, low, next0)
    ensures WrittenFrom(done + records, files) && FilesOk(files) && Numbered(files, low, next) && next0 <= next
    ensures CutWhereFull(files, |files0|, stretches, records, full, |records|)
  {
    files, next := files0, next0;
    var mem: seq<Entry> := [];
    ghost var g := Progress(done, [], b, b);
    var i := 0;
    stretches := [];
    AtStart(records, done, files, b, span);
    while i < |records|
      invariant 0 <= i <= |records| && At(i, records, done, g, files, mem, span)
      invariant FilesOk(files) && Numbered(files, low, next) && next0 <= next
      invariant CutWhereFull(files, |files0|, stretches, records, full, i)
      invariant Unwritten(i, records, g.tail, stretches, full)
    {
      ghost var before, tail := files, g.tail;
      mem, files, next, g := ReadOne(full(i), files, mem, next, fileSize, i, records, low, done, g, span);
      stretches := NextStretch(before, files, |files0|, stretches, records, full, i, tail, g.tail);
      i := i + 1;
    }
    assert records[..i] == records;
    ghost var before := files;
    files, next := FlushRecovered(files, mem, next, fileSize, low, g, span);
    stretches := LastStretch(before, files, |files0|, stretches, records, full, g.tail);
  }

  lemma NextRecord(records: seq<Record>, hist: seq<Op>, m: nat, c: nat)
    requires m <= c <= |hist| && records != [] && Covers(records, hist, m, c)
    ensures var r := records[0];
            m + |r.ops| <= c && r == Record(m + 1, hist[m..m + |r.ops|]) && Covers(records[1..], hist, m + |r.ops|, c)
  {
    var j := CoversSplit(records, hist, m, c, 1);
    assert records[..1] == [records[0]];
    assert [records[0]][..0] == [];
    assert Covers([records[0]], hist, m, j);
  }

  /** The greatest sequence number of a log's records, from a running maximum. */
  method MaxSequence(records: seq<Record>, last0: nat) returns (last: nat)
    ensures last == Max(last0, LastOf(records))
  {
    last := last0;
    var i := 0;
    while i < |records|
      invariant 0 <= i <= |records| && last == Max(last0, LastOf(records[..i]))
    {
      var r := records[i];
      assert records[..i + 1][..i] == records[..i];
      if r.first + |r.ops| > last + 1 {
        last := r.first + |r.ops| - 1;
      }
      i := i + 1;
    }
    assert records[..i] == records;
  }

  function MarkFileNumberUsed(next: nat, number: nat): (r: nat)
    ensures next <= r && number < r
  {
    if next <= number then number + 1 else next
  }

  /** The loop of DBImpl::Recover over the live logs, oldest first, marking each log's number as used. */
  method RecoverLogs(live: seq<Log>, next0: nat, full: nat -> bool, fileSize: seq<Entry> -> nat,
                     ghost low: nat, ghost hist: seq<Op>, ghost a: nat, ghost c: nat)
    returns (files: seq<File>, next: nat, last: nat)
    requires a <= c <= |hist| < MAX_SEQUENCE && Covers(Flatten(live), hist, a, c) && low < next0
    ensures WrittenFrom(Flatten(live), files) && FilesOk(files) && Numbered(files, low, next)
    ensures forall i | 0 <= i < |live| :: live[i].number < next
    ensures last == LastOf(Flatten(live))
  {
    files, next, last := [], next0, 0;
    ghost var b: nat := a;
    var k := 0;
    assert live[..0] == [] && live[0..] == live;
    while k < |live|
      invariant 0 <= k <= |live| && a <= b <= c
      invariant Covers(Flatten(live[..k]), hist, a, b) && Covers(Flatten(live[k..]), hist, b, c)
      invariant WrittenFrom(Flatten(live[..k]), files) && FilesOk(files) && Numbered(files, low, next)
      invariant forall i | 0 <= i < k :: live[i].number < next
      invariant last == LastOf(Flatten(live[..k]))
    {
      var log := live[k];
      ghost var done := Flatten(live[..k]);
      ghost var b' := OneLog(live, k, hist, a, b, c);
      LastOfConcat(done, log.records);
      ghost var cuts: seq<Stretch>;
      files, next, cuts := RecoverLogFile(log.records, files, next, full, fileSize, low, done, b, Span(hist, a, b'));
      last := MaxSequence(log.records, last);
      next := MarkFileNumberUsed(next, log.number);
      b, k := b', k + 1;
    }
    assert live[..k] == live;
  }

  lemma OneLog(live: seq<Log>, k: nat, hist: seq<Op>, a: nat, b: nat, c: nat) returns (b': nat)
    requires k < |live| && a <= b <= c <= |hist| && Covers(Flatten(live[..k]), hist, a, b)
             && Covers(Flatten(live[k..]), hist, b, c)
    ensures b <= b' <= c && Covers(live[k].records, hist, b, b') && Covers(Flatten(live[k + 1..]), hist, b', c)
    ensures Flatten(live[..k + 1]) == Flatten(live[..k]) + live[k].records
            && Covers(Flatten(live[..k + 1]), hist, a, b')
  {
    var records, rest := live[k].records, Flatten(live[k + 1..]);
    assert live[k..][0] == live[k] && live[k..][1..] == live[k + 1..];
    var s := records + rest;
    assert s == Flatten(live[k..]);
    b' := CoversSplit(s, hist, b, c, |records|);
    assert s[..|records|] == records && s[|records|..] == rest;
    assert live[..k + 1] == live[..k] + [live[k]];
    FlattenConcat(live[..k], [live[k]]);
    assert [live[k]][1..] == [] && Flatten([live[k]]) == records + Flatten([]) == records;
    CoversConcat(Flatten(live[..k]), records, hist, a, b, b');
  }

  method LiveLogs(logs: seq<Log>, n: nat) returns (r: seq<Log>)
    ensures r == LogsFrom(logs, n)
  {
    r := [];
    var i := 0;
    while i < |logs|
      invariant 0 <= i <= |logs|
      invariant r + LogsFrom(logs[i..], n) == LogsFrom(logs, n)
    {
      assert logs[i..][1..] == logs[i + 1..];
      if logs[i].number >= n {
        r := r + [logs[i]];
      }
      i := i + 1;
    }
  }

  /** Everything recovery computes from the disk. */
  method Recover(db: DBImpl, full: nat -> bool, fileSize: seq<Entry> -> nat)
    returns (base: Version, files: seq<File>, newLog: nat, v': Version)
    requires Inv(db.W())
    ensures Recovers(old(db.disk), base, files, newLog, v', Opened(old(db.disk), base, files, newLog, v'))
  {
    ghost var w := db.W();
    var disk := db.disk;
    var logNumber, nextFile, lastSequence;
    base, logNumber, nextFile, lastSequence := ReplayManifest(disk.manifest);
    EngineRecovery.NoMissingFiles(w, base);
    EngineRecovery.ReplayGivesCurrent(w.db, base);
    LiveRecords(w);
    var live := LiveLogs(disk.logs, logNumber.value);
    var last;
    files, newLog, last := RecoverLogs(live, nextFile.value + 1, full, fileSize, nextFile.value, w.hist, w.flushed,
        |w.hist|);
    RecoveredReady(w, files, newLog);
    v' := InstallEdit(base, EmptyEdit().(added := Additions(0, files)));
  }

  lemma RecoveredReady(w: World, files: seq<File>, newLog: nat)
    requires Inv(w) && FilesOk(files) && Numbered(files, LastNextFile(w.db.disk.manifest).value, newLog)
    requires var live := LogsFrom(w.db.disk.logs, w.db.logNumber);
             WrittenFrom(Flatten(live), files) && forall i | 0 <= i < |live| :: live[i].number < newLog
    ensures RecoveredTables(w.db.disk, w.db.logNumber, LastNextFile(w.db.disk.manifest).value, files, newLog)
    ensures var edit := EmptyEdit().(added := Additions(0, files));
            EditOk(edit) && Fresh(w.db.current, edit) && forall i: nat | i < NUM_LEVELS :: NumbersName(Added(edit, i))
  {
    var logs := w.db.disk.logs;
    forall i | 0 <= i < |logs| && logs[i].number >= w.db.logNumber ensures logs[i].number < newLog {
      LogsFromMember(logs, w.db.logNumber, logs[i]);
    }
    ZeroInstallable(w.db, files);
  }

  lemma ZeroInstallable(db: Db, files: seq<File>)
    requires ManifestOk(db)
    requires forall i, j | 0 <= i < j < |files| :: files[i].number < files[j].number
    requires forall f | f in files :: LastNextFile(db.disk.manifest).value < f.number
    ensures var edit := EmptyEdit().(added := Additions(0, files));
            EditOk(edit) && Fresh(db.current, edit) && forall i: nat | i < NUM_LEVELS :: NumbersName(Added(edit, i))
  {
    var edit := EmptyEdit().(added := Additions(0, files));
    CurrentWasAdded(db);
    EngineRecovery.ZeroEditFiles(files, edit);
    EngineRecovery.FreshNumbers({}, files, 0);
    forall i: nat ensures Added(edit, i) == if i == 0 then FileSet(files) else {} {
      EngineSteps.AdditionsAre(0, files, edit, i);
    }
    assert {} + FileSet(files) == FileSet(files);
    forall i: nat, g | i < NUM_LEVELS && g in db.current[i] ensures g.number < LastNextFile(db.disk.manifest).value {
      assert g in VersionFiles(db.current);
    }
  }

  /** DB::Open after a crash: what was in memory is forgotten and rebuilt from the disk, a CrashAndRecover step. */
  method Open(db: DBImpl, full: nat -> bool, fileSize: seq<Entry> -> nat)
    returns (base: Version, files: seq<File>, newLog: nat, v': Version)
    requires Inv(db.W())
    modifies db
    ensures Recovers(old(db.disk), base, files, newLog, v', db.W().db)
    ensures db.W() == World(Opened(old(db.disk), base, files, newLog, v'), old(db.hist), old(db.floor), |old(db.hist)|,
              |old(db.hist)|)
  {
    base, files, newLog, v' := Recover(db, full, fileSize);
    StartFrom(db, base, files, newLog, v');
  }

  /** The disk after recovery, and the last sequence number found. */
  method NewDisk(disk: Disk, base: Version, files: seq<File>, newLog: nat, ghost v': Version)
    returns (disk': Disk, last: nat)
    requires LastLogNumber(disk.manifest).Some? && LastLastSequence(disk.manifest).Some?
    ensures Opened(disk, base, files, newLog, v').disk == disk'
            && Opened(disk, base, files, newLog, v').lastSequence == last
  {
    var live := LiveLogs(disk.logs, LastLogNumber(disk.manifest).value);
    last := MaxSequence(Flatten(live), LastLastSequence(disk.manifest).value);
    var edit := VersionEdit(Some(newLog), Some(newLog + 1), Some(last), [], Additions(0, files));
    assert (set f | f in files :: f.number) == Numbers(FileSet(files));
    disk' := Disk(live + [Log(newLog, [])], disk.tables + (set f | f in files :: f.number), [SnapshotEdit(base), edit]);
  }

  method StartFrom(db: DBImpl, base: Version, files: seq<File>, newLog: nat, v': Version)
    requires LastLogNumber(db.disk.manifest).Some? && LastLastSequence(db.disk.manifest).Some?
    modifies db
    ensures db.W() == World(Opened(old(db.disk), base, files, newLog, v'), old(db.hist), old(db.floor), |old(db.hist)|,
              |old(db.hist)|)
  {
    var disk, last := NewDisk(db.disk, base, files, newLog, v');
    ghost var target := Opened(db.disk, base, files, newLog, v');
    assert target == Db([], None, v', last, newLog + 1, newLog, newLog, [], [], {}, disk);
    db.disk, db.mem, db.imm, db.current := disk, [], None, v';
    db.lastSequence, db.nextFile, db.logNumber, db.logfileNumber := last, newLog + 1, newLog, newLog;
    db.snapshots, db.pinned, db.pending := [], [], {};
    db.flushed, db.switched := |db.hist|, |db.hist|;
  }

  // ---- DeleteObsoleteFiles (db/db_impl.cc:223-278) ----

  /** AddLiveFiles for one version. */
  method LiveNumbers(v: Version) returns (s: set<nat>)
    ensures s == Numbers(VersionFiles(v))
  {
    s := {};
    var i := 0;
    while i < NUM_LEVELS
      invariant 0 <= i <= NUM_LEVELS
      invariant s == set j: nat, f | j < i && f in v[j] :: f.number
    {
      s := s + (set f | f in v[i] :: f.number);
      i := i + 1;
    }
    forall n ensures n in s <==> n in Numbers(VersionFiles(v)) {
      if n in s {
        var j: nat, f :| j < NUM_LEVELS && f in v[j] && n == f.number;
        assert f in VersionFiles(v);
      }
    }
  }

  method DeleteObsoleteFiles(db: DBImpl)
    modifies db
    ensures db.W() == old(db.W()).(db := AfterDelete(old(db.W().db)))
  {
    var live := LiveNumbers(db.current);
    var i := 0;
    while i < |db.pinned|
      invariant 0 <= i <= |db.pinned| && db.W() == old(db.W())
      invariant live == Numbers(VersionFiles(db.current)) + (set j, n | 0 <= j < i
                && n in Numbers(VersionFiles(db.pinned[j])) :: n)
    {
      var more := LiveNumbers(db.pinned[i]);
      live := live + more;
      i := i + 1;
    }
    live := live + db.pending;
    var logs := LiveLogs(db.disk.logs, db.logNumber);
    db.disk := db.disk.(logs := logs, tables := db.disk.tables * live);
  }
}
