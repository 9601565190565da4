/** A MANIFEST from its bytes to the version it describes: log records, version edits, one Builder over all of them
    (db/version_edit.cc, db/version_set.cc:886-1000, db/dbformat.h).  Manifest.VersionEdit names files by what they are;
    EditCodec.Edit by their metadata, as the bytes do.  A table's entries are found on disk by its number. */
module ManifestBytes {
  import opened DbFormat
  import opened Coding
  import opened Files
  import opened Manifest
  import opened Engine
  import opened LevelSteps
  import EditCodec
  import LogFormat
  import LogFile
  import EngineBasics
  import EngineRecovery
  import Reopen

  // ---- Internal keys as bytes ----

  /** AppendInternalKey: the user key, then the packed sequence number and type. */
  function EncodeKey(user: Bytes, sequence: nat, kind: ValueType): Bytes
    requires sequence <= MAX_SEQUENCE
  {
    TagParts(IKey(Position(user), sequence, kind));
    user + Fixed64(Tag(IKey(Position(user), sequence, kind)))
  }

  /** ParseInternalKey. */
  function ParseKey(b: Bytes): Option<IKey> {
    if |b| < 8 then None else WithTag(Position(b[..|b| - 8]), DecodeFixed64(b[|b| - 8..]))
  }

  function WithTag(user: UserKey, tag: nat): Option<IKey> {
    if tag % 256 > 1 then None else Some(IKey(user, tag / 256, if tag % 256 == 1 then Value else Deletion))
  }

  lemma TagParts(k: IKey)
    requires k.sequence <= MAX_SEQUENCE
    ensures Tag(k) < WIDTH64 && WithTag(k.user, Tag(k)) == Some(k)
  {
  }

  lemma KeyParts(user: Bytes, tag: Bytes)
    requires |tag| == 8
    ensures var b := user + tag; b[..|b| - 8] == user && b[|b| - 8..] == tag
  {
  }

  lemma ParseEncoded(user: Bytes, sequence: nat, kind: ValueType)
    requires sequence <= MAX_SEQUENCE
    ensures ParseKey(EncodeKey(user, sequence, kind)) == Some(IKey(Position(user), sequence, kind))
  {
    var tag := Tag(IKey(Position(user), sequence, kind));
    TagParts(IKey(Position(user), sequence, kind));
    Fixed64Trip(tag);
    KeyParts(user, Fixed64(tag));
  }

  // ---- Edits as bytes and edits as files ----

  ghost predicate Describes(m: EditCodec.Meta, f: File) {
    && m.number == f.number && m.size == f.size
    && ParseKey(m.smallest) == Some(f.smallest) && ParseKey(m.largest) == Some(f.largest)
  }

  ghost predicate DescribesAll(ms: seq<(nat, EditCodec.Meta)>, fs: seq<(nat, File)>) {
    if ms == [] || fs == [] then ms == [] && fs == []
    else
      var (i, m) := ms[|ms| - 1];
      var (j, f) := fs[|fs| - 1];
      i == j && Describes(m, f) && DescribesAll(ms[..|ms| - 1], fs[..|fs| - 1])
  }

  /** The bytes' edit says what the files' edit says; it may name a comparator and compaction pointers as well. */
  ghost predicate Writes(e: EditCodec.Edit, v: VersionEdit) {
    && e.logNumber == v.logNumber && e.nextFile == v.nextFile && e.lastSequence == v.lastSequence
    && (forall d :: d in e.deleted <==> d in v.deleted)
    && DescribesAll(e.added, v.added)
  }

  ghost predicate WritesAll(es: seq<EditCodec.Edit>, vs: seq<VersionEdit>) {
    if es == [] || vs == [] then es == [] && vs == []
    else Writes(es[|es| - 1], vs[|vs| - 1]) && WritesAll(es[..|es| - 1], vs[..|vs| - 1])
  }

  /** The entries of the tables on disk, by number. */
  type Tables = map<nat, seq<Entry>>

  function EntriesOf(number: nat, tables: Tables): seq<Entry> {
    if number in tables then tables[number] else []
  }

  function OpenFile(m: EditCodec.Meta, tables: Tables): Option<File> {
    var smallest :- ParseKey(m.smallest);
    var largest :- ParseKey(m.largest);
    Some(File(m.number, m.size, smallest, largest, EntriesOf(m.number, tables)))
  }

  function OpenFiles(ms: seq<(nat, EditCodec.Meta)>, tables: Tables): Option<seq<(nat, File)>> {
    if ms == [] then Some([])
    else
      var init :- OpenFiles(ms[..|ms| - 1], tables);
      var f :- OpenFile(ms[|ms| - 1].1, tables);
      Some(init + [(ms[|ms| - 1].0, f)])
  }

  function OpenEdit(e: EditCodec.Edit, tables: Tables): Option<VersionEdit> {
    var added :- OpenFiles(e.added, tables);
    Some(VersionEdit(e.logNumber, e.nextFile, e.lastSequence, e.deleted, added))
  }

  function OpenEdits(es: seq<EditCodec.Edit>, tables: Tables): Option<seq<VersionEdit>> {
    if es == [] then Some([])
    else
      var init :- OpenEdits(es[..|es| - 1], tables);
      var v :- OpenEdit(es[|es| - 1], tables);
      Some(init + [v])
  }

  // ---- What is read back ----

  /** A file as recovery sees it: one deleted since has no entries any more. */
  function OnDisk(f: File, tables: Tables): File {
    f.(entries := EntriesOf(f.number, tables))
  }

  ghost function AllOnDisk(s: set<File>, tables: Tables): set<File> {
    set f | f in s :: OnDisk(f, tables)
  }

  /** `r` is `v` with the files as they are on disk. */
  ghost predicate ReadBack(r: VersionEdit, v: VersionEdit, tables: Tables) {
    && r.logNumber == v.logNumber && r.nextFile == v.nextFile && r.lastSequence == v.lastSequence
    && (forall d :: d in r.deleted <==> d in v.deleted)
    && r.added == AddedOnDisk(v.added, tables)
  }

  function AddedOnDisk(fs: seq<(nat, File)>, tables: Tables): seq<(nat, File)> {
    if fs == [] then []
    else
      var (level, f) := fs[|fs| - 1];
      AddedOnDisk(fs[..|fs| - 1], tables) + [(level, OnDisk(f, tables))]
  }

  lemma {:induction false} AddedOnDiskMember(fs: seq<(nat, File)>, tables: Tables, level: nat, f: File)
    ensures (level, f) in AddedOnDisk(fs, tables) <==> exists g :: (level, g) in fs && f == OnDisk(g, tables)
  {
    if fs != [] {
      var init := fs[..|fs| - 1];
      var (i, h) := fs[|fs| - 1];
      AddedOnDiskMember(init, tables, level, f);
      assert fs == init + [(i, h)];
      if (level, f) in AddedOnDisk(init, tables) {
        var g :| (level, g) in init && f == OnDisk(g, tables);
        assert (level, g) in fs;
      } else if (level, f) in AddedOnDisk(fs, tables) {
        assert (level, h) in fs && f == OnDisk(h, tables);
      }
    }
  }

  ghost predicate ReadBackAll(rs: seq<VersionEdit>, vs: seq<VersionEdit>, tables: Tables) {
    if rs == [] || vs == [] then rs == [] && vs == []
    else ReadBack(rs[|rs| - 1], vs[|vs| - 1], tables) && ReadBackAll(rs[..|rs| - 1], vs[..|vs| - 1], tables)
  }

  lemma {:induction false} FilesReadBack(ms: seq<(nat, EditCodec.Meta)>, fs: seq<(nat, File)>, tables: Tables)
    requires DescribesAll(ms, fs)
    ensures OpenFiles(ms, tables) == Some(AddedOnDisk(fs, tables))
  {
    if ms != [] {
      var n := |ms| - 1;
      FilesReadBack(ms[..n], fs[..|fs| - 1], tables);
      FileReadBack(ms[n].1, fs[|fs| - 1].1, tables);
    }
  }

  lemma FileReadBack(m: EditCodec.Meta, f: File, tables: Tables)
    requires Describes(m, f)
    ensures OpenFile(m, tables) == Some(OnDisk(f, tables))
  {
  }

  lemma {:induction false} EditsReadBack(es: seq<EditCodec.Edit>, vs: seq<VersionEdit>, tables: Tables)
    requires WritesAll(es, vs)
    ensures var r := OpenEdits(es, tables); r.Some? && ReadBackAll(r.value, vs, tables)
  {
    if es != [] {
      var n := |es| - 1;
      EditsReadBack(es[..n], vs[..|vs| - 1], tables);
      OneReadBack(es[n], vs[|vs| - 1], tables);
    }
  }

  lemma OneReadBack(e: EditCodec.Edit, v: VersionEdit, tables: Tables)
    requires Writes(e, v)
    ensures var r := OpenEdit(e, tables); r.Some? && ReadBack(r.value, v, tables)
  {
    FilesReadBack(e.added, v.added, tables);
  }

  lemma ReadBackSets(r: VersionEdit, v: VersionEdit, tables: Tables, level: nat)
    requires ReadBack(r, v, tables)
    ensures Deleted(r, level) == Deleted(v, level) && Added(r, level) == AllOnDisk(Added(v, level), tables)
  {
    forall f ensures f in Added(r, level) <==> f in AllOnDisk(Added(v, level), tables) {
      AddedOnDiskMember(v.added, tables, level, f);
      assert f in Added(r, level) <==> (level, f) in r.added;
      if (level, f) in r.added {
        var g :| (level, g) in v.added && f == OnDisk(g, tables);
        assert g in Added(v, level);
      }
      if f in AllOnDisk(Added(v, level), tables) {
        var g :| g in Added(v, level) && f == OnDisk(g, tables);
        assert (level, g) in v.added;
      }
    }
  }

  lemma OnDiskUnion(a: set<File>, b: set<File>, tables: Tables)
    ensures AllOnDisk(a + b, tables) == AllOnDisk(a, tables) + AllOnDisk(b, tables)
    ensures Numbers(AllOnDisk(a, tables)) == Numbers(a)
  {
    forall n | n in Numbers(a) ensures n in Numbers(AllOnDisk(a, tables)) {
      var f :| f in a && f.number == n;
      assert OnDisk(f, tables) in AllOnDisk(a, tables);
    }
  }

  lemma OnDiskWithout(a: set<File>, numbers: set<nat>, tables: Tables)
    ensures Without(AllOnDisk(a, tables), numbers) == AllOnDisk(Without(a, numbers), tables)
  {
    forall f ensures f in Without(AllOnDisk(a, tables), numbers) <==> f in AllOnDisk(Without(a, numbers), tables) {
      if f in Without(AllOnDisk(a, tables), numbers) {
        var g :| g in a && f == OnDisk(g, tables);
        assert g in Without(a, numbers);
      }
    }
  }

  /** Folding what was read back is folding what was written, seen on disk. */
  lemma {:induction false} FoldReadBack(rs: seq<VersionEdit>, vs: seq<VersionEdit>, tables: Tables, level: nat)
    requires ReadBackAll(rs, vs, tables)
    ensures Fold(rs, level).deleted == Fold(vs, level).deleted
    ensures Fold(rs, level).added == AllOnDisk(Fold(vs, level).added, tables)
    ensures AllAdded(rs, level) == AllOnDisk(AllAdded(vs, level), tables)
  {
    if rs != [] {
      var n := |rs| - 1;
      var init, last := vs[..|vs| - 1], vs[|vs| - 1];
      FoldReadBack(rs[..n], init, tables, level);
      ReadBackSets(rs[n], last, tables, level);
      OnDiskUnion(Fold(init, level).added, Added(last, level), tables);
      OnDiskUnion(AllAdded(init, level), Added(last, level), tables);
      OnDiskUnion(Added(last, level), {}, tables);
    }
  }

  lemma {:induction false} CountersReadBack(rs: seq<VersionEdit>, vs: seq<VersionEdit>, tables: Tables)
    requires ReadBackAll(rs, vs, tables)
    ensures LastLogNumber(rs) == LastLogNumber(vs) && LastNextFile(rs) == LastNextFile(vs)
    ensures LastLastSequence(rs) == LastLastSequence(vs)
  {
    if rs != [] {
      var n := |rs| - 1;
      CountersReadBack(rs[..n], vs[..|vs| - 1], tables);
    }
  }

  lemma NamesReadBack(rs: seq<VersionEdit>, vs: seq<VersionEdit>, tables: Tables)
    requires ReadBackAll(rs, vs, tables) && NumbersName(EverAdded(vs))
    ensures NumbersName(EverAdded(rs))
  {
    forall f | f in EverAdded(rs) ensures exists g :: g in EverAdded(vs) && f == OnDisk(g, tables) {
      var i: nat :| i < NUM_LEVELS && f in AllAdded(rs, i);
      FoldReadBack(rs, vs, tables, i);
      var g :| g in AllAdded(vs, i) && f == OnDisk(g, tables);
      assert g in EverAdded(vs);
    }
  }

  lemma {:induction false} EditsOkReadBack(rs: seq<VersionEdit>, vs: seq<VersionEdit>, tables: Tables)
    requires ReadBackAll(rs, vs, tables) && forall v | v in vs :: EditOk(v)
    ensures forall r | r in rs :: EditOk(r)
    decreases |rs|
  {
    if rs != [] {
      var n := |rs| - 1;
      EditsOkReadBack(rs[..n], vs[..|vs| - 1], tables);
      EditOkReadBack(rs[n], vs[|vs| - 1], tables);
      assert rs == rs[..n] + [rs[n]];
    }
  }

  lemma EditOkReadBack(r: VersionEdit, v: VersionEdit, tables: Tables)
    requires ReadBack(r, v, tables) && EditOk(v)
    ensures EditOk(r)
  {
    forall p | p in r.added ensures p.0 < NUM_LEVELS {
      AddedOnDiskMember(v.added, tables, p.0, p.1);
    }
  }

  // ---- Replay ----

  /** `base` and the counters are what installing the edits one by one gives, with its files as they are on disk. */
  ghost predicate Gives(vs: seq<VersionEdit>, tables: Tables, base: Version, logNumber: Option<nat>,
                        nextFile: Option<nat>,
                        lastSequence: Option<nat>)
  {
    && SortedLevels(base)
    && (forall i: nat | i < NUM_LEVELS :: FileSet(base[i]) == AllOnDisk(InstallAll(vs, i), tables))
    && logNumber == LastLogNumber(vs) && nextFile == LastNextFile(vs) && lastSequence == LastLastSequence(vs)
  }

  lemma ReplayGives(rs: seq<VersionEdit>, vs: seq<VersionEdit>, tables: Tables, base: Version)
    requires ReadBackAll(rs, vs, tables) && NumbersName(EverAdded(vs)) && Replayed(rs, base)
    ensures Gives(vs, tables, base, LastLogNumber(rs), LastNextFile(rs), LastLastSequence(rs))
  {
    CountersReadBack(rs, vs, tables);
    forall i: nat | i < NUM_LEVELS ensures FileSet(base[i]) == AllOnDisk(InstallAll(vs, i), tables) {
      FoldReadBack(rs, vs, tables, i);
      assert AllAdded(vs, i) <= EverAdded(vs);
      ReplayIsInstall(vs, i);
      OnDiskWithout(Fold(vs, i).added, Fold(vs, i).deleted, tables);
      assert {} + Fold(rs, i).added == Fold(rs, i).added && {} + Fold(vs, i).added == Fold(vs, i).added;
    }
  }

  /** The whole way: what is written as log records is read back with nothing reported, decodes to the same edits, and
      folded through one Builder gives what installing the edits one by one gives. */
  lemma ReplayOfBytes(crc: LogFormat.Checksum, es: seq<EditCodec.Edit>, vs: seq<VersionEdit>, tables: Tables,
                      base: Version)
    requires (forall e | e in es :: EditCodec.EditOk(e)) && WritesAll(es, vs) && NumbersName(EverAdded(vs))
    ensures var (records, reports) := LogFormat.ReadAll(crc, LogFormat.WriteAll(crc, EditCodec.EncodeAll(es)), 0);
            reports == 0 && EditCodec.DecodeAll(records) == Some(es) && OpenEdits(es, tables).Some?
    ensures var read := OpenEdits(es, tables).value;
            Replayed(read, base) ==>
              Gives(vs, tables, base, LastLogNumber(read), LastNextFile(read), LastLastSequence(read))
  {
    EditCodec.ManifestRoundTrip(crc, es);
    EditsReadBack(es, vs, tables);
    var read := OpenEdits(es, tables).value;
    if Replayed(read, base) {
      ReplayGives(read, vs, tables, base);
    }
  }

  /** VersionSet::Recover from the bytes of a MANIFEST: each record decoded into a fresh edit, one Builder over all. */
  method RecoverManifest(crc: LogFormat.Checksum, contents: Bytes, tables: Tables, ghost es: seq<EditCodec.Edit>,
                         ghost vs: seq<VersionEdit>)
    returns (base: Version, logNumber: Option<nat>, nextFile: Option<nat>, lastSequence: Option<nat>)
    requires LogFormat.ReadAll(crc, contents, 0) == (EditCodec.EncodeAll(es), 0)
    requires (forall e | e in es :: EditCodec.EditOk(e)) && WritesAll(es, vs)
    requires (forall v | v in vs :: EditOk(v)) && NumbersName(EverAdded(vs))
    ensures Gives(vs, tables, base, logNumber, nextFile, lastSequence)
  {
    var records, _ := LogFile.ReadLog(crc, contents);
    EditCodec.DecodeAllEncoded(es);
    EditsReadBack(es, vs, tables);
    var edits := DecodeRecords(records, tables);
    EditsOkReadBack(edits, vs, tables);
    NamesReadBack(edits, vs, tables);
    base, logNumber, nextFile, lastSequence := Reopen.ReplayManifest(edits);
    ReplayGives(edits, vs, tables, base);
  }

  method DecodeRecords(records: seq<Bytes>, tables: Tables) returns (edits: seq<VersionEdit>)
    requires EditCodec.DecodeAll(records).Some? && OpenEdits(EditCodec.DecodeAll(records).value, tables).Some?
    ensures OpenEdits(EditCodec.DecodeAll(records).value, tables) == Some(edits)
  {
    edits := [];
    ghost var done: seq<EditCodec.Edit> := [];
    for i := 0 to |records|
      invariant EditCodec.DecodeAll(records[..i]) == Some(done) && OpenEdits(done, tables) == Some(edits)
    {
      DecodesOn(records, i + 1, tables);
      assert records[..i + 1][..i] == records[..i];
      var edit := new EditCodec.VersionEdit();
      var ok := edit.Decode(records[i]);
      var opened' := OpenEdit(EditCodec.Edit(edit.comparator, edit.logNumber, edit.prevLogNumber, edit.nextFile,
                                             edit.lastSequence, edit.pointers, edit.deleted, edit.added), tables);
      done := done + [edit.Value()];
      edits := edits + [opened'.value];
    }
    assert records[..|records|] == records;
  }

  /** What decodes as a whole decodes at every stage. */
  lemma {:induction false} DecodesOn(records: seq<Bytes>, i: nat, tables: Tables)
    requires i <= |records|
    requires EditCodec.DecodeAll(records).Some? && OpenEdits(EditCodec.DecodeAll(records).value, tables).Some?
    ensures EditCodec.DecodeAll(records[..i]).Some? && OpenEdits(EditCodec.DecodeAll(records[..i]).value, tables).Some?
    decreases |records|
  {
    if i == |records| {
      assert records[..i] == records;
    } else {
      var init := records[..|records| - 1];
      assert init[..i] == records[..i];
      var es := EditCodec.DecodeAll(records).value;
      assert es[..|es| - 1] == EditCodec.DecodeAll(init).value;
      DecodesOn(init, i, tables);
    }
  }

  // ---- A database and its MANIFEST ----

  /** The entries of every file of the version are on disk under its number. */
  ghost predicate TablesHold(v: Version, tables: Tables) {
    forall f | f in VersionFiles(v) :: f.number in tables && tables[f.number] == f.entries
  }

  lemma CurrentOnDisk(v: Version, tables: Tables, i: nat)
    requires TablesHold(v, tables) && i < NUM_LEVELS
    ensures AllOnDisk(FileSet(v[i]), tables) == FileSet(v[i])
  {
    forall f | f in v[i] ensures OnDisk(f, tables) == f {
      assert f in VersionFiles(v);
    }
    forall f | f in FileSet(v[i]) ensures f in AllOnDisk(FileSet(v[i]), tables) {
      assert f == OnDisk(f, tables);
    }
  }

  lemma GivesCurrent(w: World, tables: Tables, base: Version, logNumber: Option<nat>, nextFile: Option<nat>,
                     lastSequence: Option<nat>)
    requires Inv(w) && TablesHold(w.db.current, tables)
    requires Gives(w.db.disk.manifest, tables, base, logNumber, nextFile, lastSequence)
    ensures base == w.db.current && logNumber == Some(w.db.logNumber)
  {
    forall i: nat | i < NUM_LEVELS ensures base[i] == w.db.current[i] {
      CurrentOnDisk(w.db.current, tables, i);
      SortedFilesUnique(base[i], w.db.current[i]);
    }
  }

  lemma {:induction false} WritesPrefix(es: seq<EditCodec.Edit>, vs: seq<VersionEdit>, k: nat)
    requires WritesAll(es, vs) && k <= |es|
    ensures k <= |vs| && WritesAll(es[..k], vs[..k])
    decreases |es|
  {
    if k == |es| {
      SameLength(es, vs);
      assert es[..k] == es && vs[..k] == vs;
    } else {
      WritesPrefix(es[..|es| - 1], vs[..|vs| - 1], k);
      assert es[..|es| - 1][..k] == es[..k] && vs[..|vs| - 1][..k] == vs[..k];
    }
  }

  lemma {:induction false} SameLength(es: seq<EditCodec.Edit>, vs: seq<VersionEdit>)
    requires WritesAll(es, vs)
    ensures |es| == |vs|
    decreases |es|
  {
    if es != [] {
      SameLength(es[..|es| - 1], vs[..|vs| - 1]);
    }
  }

  lemma {:induction false} EncodePrefix(es: seq<EditCodec.Edit>, k: nat)
    requires k <= |es|
    ensures EditCodec.EncodeAll(es)[..k] == EditCodec.EncodeAll(es[..k])
    decreases |es|
  {
    if k == |es| {
      assert es[..k] == es;
    } else {
      EncodePrefix(es[..|es| - 1], k);
      assert es[..|es| - 1][..k] == es[..k];
    }
  }

  lemma {:induction false} AllAddedPrefix(vs: seq<VersionEdit>, k: nat, level: nat)
    requires k <= |vs|
    ensures AllAdded(vs[..k], level) <= AllAdded(vs, level)
    decreases |vs|
  {
    if k < |vs| {
      AllAddedPrefix(vs[..|vs| - 1], k, level);
      assert vs[..|vs| - 1][..k] == vs[..k];
    } else {
      assert vs[..k] == vs;
    }
  }

  lemma EverAddedPrefix(vs: seq<VersionEdit>, k: nat)
    requires k <= |vs|
    ensures EverAdded(vs[..k]) <= EverAdded(vs)
  {
    forall f | f in EverAdded(vs[..k]) ensures f in EverAdded(vs) {
      var i: nat :| i < NUM_LEVELS && f in AllAdded(vs[..k], i);
      AllAddedPrefix(vs, k, i);
      assert f in AllAdded(vs, i);
    }
  }

  /** A MANIFEST cut at any byte gives what the edits wholly inside the cut give. */
  method RecoverCut(crc: LogFormat.Checksum, contents: Bytes, tables: Tables, ghost n: nat,
                    ghost es: seq<EditCodec.Edit>, ghost vs: seq<VersionEdit>)
    returns (base: Version, logNumber: Option<nat>, nextFile: Option<nat>, lastSequence: Option<nat>)
    requires (forall e | e in es :: EditCodec.EditOk(e)) && WritesAll(es, vs)
    requires (forall v | v in vs :: EditOk(v)) && NumbersName(EverAdded(vs))
    requires n <= |LogFormat.WriteAll(crc, EditCodec.EncodeAll(es))|
             && contents == LogFormat.WriteAll(crc, EditCodec.EncodeAll(es))[..n]
    ensures |vs| == |es| && Gives(vs[..LogFormat.WholeRecords(crc, EditCodec.EncodeAll(es), n)], tables, base,
              logNumber, nextFile, lastSequence)
  {
    ghost var k := LogFormat.WholeRecords(crc, EditCodec.EncodeAll(es), n);
    LogFormat.CrashPrefix(crc, EditCodec.EncodeAll(es), n);
    EncodePrefix(es, k);
    WritesPrefix(es, vs, k);
    SameLength(es, vs);
    EverAddedPrefix(vs, k);
    base, logNumber, nextFile, lastSequence := RecoverManifest(crc, contents, tables, es[..k], vs[..k]);
  }

  /** The contents are a MANIFEST cut at byte `n`, and the edits wholly inside the cut say what `vs` says. */
  ghost predicate CutOf(crc: LogFormat.Checksum, contents: Bytes, es: seq<EditCodec.Edit>, n: nat,
                        vs: seq<VersionEdit>) {
    && (forall e | e in es :: EditCodec.EditOk(e)) && n <= |LogFormat.WriteAll(crc, EditCodec.EncodeAll(es))|
    && contents == LogFormat.WriteAll(crc, EditCodec.EncodeAll(es))[..n]
    && WritesAll(es[..LogFormat.WholeRecords(crc, EditCodec.EncodeAll(es), n)], vs)
  }

  /** At any point of any run, the MANIFEST's bytes and the tables on disk give back the current version, file by file
      and entry by entry, and the log number; an edit torn by the crash does not matter. */
  method RecoverCurrent(crc: LogFormat.Checksum, contents: Bytes, tables: Tables, ghost es: seq<EditCodec.Edit>,
                        ghost n: nat, ghost w: World)
    returns (base: Version, logNumber: Option<nat>, nextFile: Option<nat>, lastSequence: Option<nat>)
    requires Inv(w) && TablesHold(w.db.current, tables) && CutOf(crc, contents, es, n, w.db.disk.manifest)
    ensures base == w.db.current && logNumber == Some(w.db.logNumber)
    ensures nextFile == LastNextFile(w.db.disk.manifest) && lastSequence == LastLastSequence(w.db.disk.manifest)
  {
    ghost var k := LogFormat.WholeRecords(crc, EditCodec.EncodeAll(es), n);
    LogFormat.CrashPrefix(crc, EditCodec.EncodeAll(es), n);
    EncodePrefix(es, k);
    base, logNumber, nextFile, lastSequence := RecoverManifest(crc, contents, tables, es[..k], w.db.disk.manifest);
    GivesCurrent(w, tables, base, logNumber, nextFile, lastSequence);
  }
}
