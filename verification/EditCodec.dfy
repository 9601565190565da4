/** The bytes of a version edit, as MANIFEST records (db/version_edit.cc). */
module EditCodec {
  import opened DbFormat
  import opened Coding
  import LogFormat

  const LEVELS: nat := 7

  /** The metadata of a table; keys are encoded internal keys. */
  datatype Meta = Meta(number: nat, size: nat, smallest: Bytes, largest: Bytes)

  /** The deleted files are a set, held in the order a std::set gives them out. */
  datatype Edit = Edit(
    comparator: Option<Bytes>, logNumber: Option<nat>, prevLogNumber: Option<nat>, nextFile: Option<nat>,
        lastSequence: Option<nat>,
    pointers: seq<(nat, Bytes)>, deleted: seq<(nat, nat)>, added: seq<(nat, Meta)>)

  function FreshEdit(): Edit {
    Edit(None, None, None, None, None, [], [], [])
  }

  /** One tagged field. */
  datatype Field =
    | Comparator(name: Bytes)
    | LogNumber(n: nat)
    | NextFile(n: nat)
    | LastSequence(n: nat)
    | Pointer(level: nat, key: Bytes)
    | Deleted(level: nat, n: nat)
    | NewFile(level: nat, meta: Meta)
    | PrevLogNumber(n: nat)

  // ---- Encoding ----

  /** The bytes after the tag. */
  function BodyOf(f: Field): Bytes {
    match f
    case Comparator(name) => Prefixed(name)
    case Pointer(level, key) => Varint(level) + Prefixed(key)
    case Deleted(level, n) => Varint(level) + Varint(n)
    case NewFile(level, m) => Varint(level) + (Varint(m.number)
        + (Varint(m.size) + (Prefixed(m.smallest) + Prefixed(m.largest))))
    case LogNumber(n) => Varint(n)
    case NextFile(n) => Varint(n)
    case LastSequence(n) => Varint(n)
    case PrevLogNumber(n) => Varint(n)
  }

  function TagOf(f: Field): nat {
    match f
    case Comparator(_) => 1
    case LogNumber(_) => 2
    case NextFile(_) => 3
    case LastSequence(_) => 4
    case Pointer(_, _) => 5
    case Deleted(_, _) => 6
    case NewFile(_, _) => 7
    case PrevLogNumber(_) => 9
  }

  function EncodeField(f: Field): Bytes {
    Varint(TagOf(f)) + BodyOf(f)
  }

  function EncodeFields(fs: seq<Field>): Bytes {
    if fs == [] then [] else EncodeField(fs[0]) + EncodeFields(fs[1..])
  }

  /** The fields in the order EncodeTo writes them. */
  function Fields(e: Edit): seq<Field> {
    Scalars(e) + Pointers(e.pointers) + Deletions(e.deleted) + Additions(e.added)
  }

  function Scalars(e: Edit): seq<Field> {
    (if e.comparator.Some? then [Comparator(e.comparator.value)] else [])
    + (if e.logNumber.Some? then [LogNumber(e.logNumber.value)] else [])
    + (if e.prevLogNumber.Some? then [PrevLogNumber(e.prevLogNumber.value)] else [])
    + (if e.nextFile.Some? then [NextFile(e.nextFile.value)] else [])
    + (if e.lastSequence.Some? then [LastSequence(e.lastSequence.value)] else [])
  }

  function Pointers(ps: seq<(nat, Bytes)>): seq<Field> {
    if ps == [] then [] else Pointers(ps[..|ps| - 1]) + [Pointer(ps[|ps| - 1].0, ps[|ps| - 1].1)]
  }

  function Deletions(ds: seq<(nat, nat)>): seq<Field> {
    if ds == [] then [] else Deletions(ds[..|ds| - 1]) + [Deleted(ds[|ds| - 1].0, ds[|ds| - 1].1)]
  }

  function Additions(ns: seq<(nat, Meta)>): seq<Field> {
    if ns == [] then [] else Additions(ns[..|ns| - 1]) + [NewFile(ns[|ns| - 1].0, ns[|ns| - 1].1)]
  }

  // ---- Decoding ----

  function GetLevel(input: Bytes): Option<(nat, Bytes)> {
    var (v, rest) :- GetVarint32(input);
    if v < LEVELS then Some((v, rest)) else None
  }

  function GetNewFile(level: nat, input: Bytes): Option<(Field, Bytes)> {
    var (number, a) :- GetVarint64(input);
    var (size, b) :- GetVarint64(a);
    var (smallest, c) :- GetPrefixed(b);
    var (largest, rest) :- GetPrefixed(c);
    Some((NewFile(level, Meta(number, size, smallest, largest)), rest))
  }

  /** The fields that hold one number. */
  function NumberField(tag: nat, n: nat): Field {
    if tag == 2 then LogNumber(n)
    else if tag == 3 then NextFile(n)
    else if tag == 4 then LastSequence(n)
    else PrevLogNumber(n)
  }

  /** The field after a tag. */
  function GetBody(tag: nat, input: Bytes): Option<(Field, Bytes)> {
    if tag == 1 then
      var (name, rest) :- GetPrefixed(input);
      Some((Comparator(name), rest))
    else if tag == 2 || tag == 3 || tag == 4 || tag == 9 then
      var (n, rest) :- GetVarint64(input);
      Some((NumberField(tag, n), rest))
    else if tag == 5 then
      var (level, a) :- GetLevel(input);
      var (key, rest) :- GetPrefixed(a);
      Some((Pointer(level, key), rest))
    else if tag == 6 then
      var (level, a) :- GetLevel(input);
      var (n, rest) :- GetVarint64(a);
      Some((Deleted(level, n), rest))
    else if tag == 7 then
      var (level, a) :- GetLevel(input);
      GetNewFile(level, a)
    else
      None
  }

  /** The first field; None for a bad tag or a bad body. */
  function GetField(input: Bytes): Option<(Field, Bytes)> {
    var (tag, rest) :- GetVarint32(input);
    GetBody(tag, rest)
  }

  /** Decoding into an edit, field by field; None when the input is not a whole number of fields. */
  function DecodeInto(e: Edit, input: Bytes): Option<Edit>
    decreases |input|
  {
    if input == [] then Some(e)
    else
      var (f, rest) :- GetField(input);
      GetFieldEats(input);
      DecodeInto(Apply(e, f), rest)
  }

  predicate PairLess(a: (nat, nat), b: (nat, nat)) {
    a.0 < b.0 || (a.0 == b.0 && a.1 < b.1)
  }

  /** Insertion into the ordered set. */
  function InsertPair(s: seq<(nat, nat)>, x: (nat, nat)): seq<(nat, nat)> {
    if s == [] then [x]
    else
      var init, last := s[..|s| - 1], s[|s| - 1];
      if PairLess(last, x) then s + [x] else if last == x then s else InsertPair(init, x) + [last]
  }

  function Apply(e: Edit, f: Field): Edit {
    match f
    case Comparator(name) => e.(comparator := Some(name))
    case LogNumber(n) => e.(logNumber := Some(n))
    case NextFile(n) => e.(nextFile := Some(n))
    case LastSequence(n) => e.(lastSequence := Some(n))
    case PrevLogNumber(n) => e.(prevLogNumber := Some(n))
    case Pointer(level, key) => e.(pointers := e.pointers + [(level, key)])
    case Deleted(level, n) => e.(deleted := InsertPair(e.deleted, (level, n)))
    case NewFile(level, m) => e.(added := e.added + [(level, m)])
  }

  // ---- Reading eats ----

  lemma Eats(input: Bytes)
    ensures GetVarint32(input).Some? ==> |GetVarint32(input).value.1| < |input|
    ensures GetVarint64(input).Some? ==> |GetVarint64(input).value.1| < |input|
    ensures GetPrefixed(input).Some? ==> |GetPrefixed(input).value.1| < |input|
  {
    ScanEats(input, 5);
    ScanEats(input, 10);
  }

  lemma GetNewFileEats(level: nat, input: Bytes)
    ensures GetNewFile(level, input).Some? ==> |GetNewFile(level, input).value.1| < |input|
  {
    Eats(input);
    if GetVarint64(input).Some? {
      var (_, a) := GetVarint64(input).value;
      Eats(a);
      if GetVarint64(a).Some? {
        var (_, b) := GetVarint64(a).value;
        Eats(b);
        if GetPrefixed(b).Some? {
          Eats(GetPrefixed(b).value.1);
        }
      }
    }
  }

  lemma GetFieldEats(input: Bytes)
    ensures GetField(input).Some? ==> |GetField(input).value.1| < |input|
  {
    Eats(input);
    if GetVarint32(input).Some? {
      var (tag, rest) := GetVarint32(input).value;
      Eats(rest);
      if GetLevel(rest).Some? {
        var (level, a) := GetLevel(rest).value;
        Eats(a);
        GetNewFileEats(level, a);
      }
    }
  }

  // ---- Round trip of one field ----

  /** The field's numbers and strings have the widths the code gives them. */
  predicate FieldOk(f: Field) {
    match f
    case Comparator(name) => |name| < WIDTH32
    case LogNumber(n) => n < WIDTH64
    case NextFile(n) => n < WIDTH64
    case LastSequence(n) => n < WIDTH64
    case PrevLogNumber(n) => n < WIDTH64
    case Pointer(level, key) => level < LEVELS && |key| < WIDTH32
    case Deleted(level, n) => level < LEVELS && n < WIDTH64
    case NewFile(level, m) =>
      && level < LEVELS && m.number < WIDTH64 && m.size < WIDTH64
      && |m.smallest| < WIDTH32 && |m.largest| < WIDTH32
  }

  lemma NewFileRoundTrip(level: nat, m: Meta, rest: Bytes)
    requires FieldOk(NewFile(level, m))
    ensures var bytes := Varint(m.number) + (Varint(m.size) + (Prefixed(m.smallest) + Prefixed(m.largest)));
            GetNewFile(level, bytes + rest) == Some((NewFile(level, m), rest))
  {
    var c := Prefixed(m.largest) + rest;
    var b := Prefixed(m.smallest) + c;
    var a := Varint(m.size) + b;
    Assoc(Prefixed(m.smallest), Prefixed(m.largest), rest);
    Assoc(Varint(m.size), Prefixed(m.smallest) + Prefixed(m.largest), rest);
    Assoc(Varint(m.number), Varint(m.size) + (Prefixed(m.smallest) + Prefixed(m.largest)), rest);
    Varint64RoundTrip(m.number, a);
    Varint64RoundTrip(m.size, b);
    PrefixedRoundTrip(m.smallest, c);
    PrefixedRoundTrip(m.largest, rest);
  }

  lemma NewFileBodyRoundTrip(level: nat, m: Meta, rest: Bytes)
    requires FieldOk(NewFile(level, m))
    ensures GetBody(7, BodyOf(NewFile(level, m)) + rest) == Some((NewFile(level, m), rest))
  {
    var tail := Varint(m.number) + (Varint(m.size) + (Prefixed(m.smallest) + Prefixed(m.largest)));
    NewFileRoundTrip(level, m, rest);
    LevelFirst(level, tail, rest);
  }

  lemma LevelFirst(level: nat, tail: Bytes, rest: Bytes)
    requires level < LEVELS
    ensures GetLevel(Varint(level) + tail + rest) == Some((level, tail + rest))
  {
    Assoc(Varint(level), tail, rest);
    Varint32RoundTrip(level, tail + rest);
  }

  lemma BodyRoundTrip(f: Field, rest: Bytes)
    requires FieldOk(f)
    ensures GetBody(TagOf(f), BodyOf(f) + rest) == Some((f, rest))
  {
    match f
    case Comparator(name) =>
      PrefixedRoundTrip(name, rest);
    case Pointer(level, key) =>
      Assoc(Varint(level), Prefixed(key), rest);
      Varint32RoundTrip(level, Prefixed(key) + rest);
      PrefixedRoundTrip(key, rest);
    case Deleted(level, n) =>
      Assoc(Varint(level), Varint(n), rest);
      Varint32RoundTrip(level, Varint(n) + rest);
      Varint64RoundTrip(n, rest);
    case NewFile(level, m) =>
      NewFileBodyRoundTrip(level, m, rest);
    case _ =>
      Varint64RoundTrip(f.n, rest);
  }

  lemma FieldRoundTrip(f: Field, rest: Bytes)
    requires FieldOk(f)
    ensures GetField(EncodeField(f) + rest) == Some((f, rest))
  {
    Assoc(Varint(TagOf(f)), BodyOf(f), rest);
    Varint32RoundTrip(TagOf(f), BodyOf(f) + rest);
    BodyRoundTrip(f, rest);
  }

  // ---- Round trip of an edit ----

  function ApplyAll(e: Edit, fs: seq<Field>): Edit
    decreases |fs|
  {
    if fs == [] then e else ApplyAll(Apply(e, fs[0]), fs[1..])
  }

  lemma {:induction false} ApplyConcat(e: Edit, a: seq<Field>, b: seq<Field>)
    ensures ApplyAll(e, a + b) == ApplyAll(ApplyAll(e, a), b)
    decreases |a|
  {
    if a == [] {
      assert a + b == b;
    } else {
      assert (a + b)[0] == a[0] && (a + b)[1..] == a[1..] + b;
      ApplyConcat(Apply(e, a[0]), a[1..], b);
    }
  }

  lemma ApplyOne(e: Edit, f: Field)
    ensures ApplyAll(e, [f]) == Apply(e, f)
  {
    assert [f][1..] == [];
  }

  lemma {:induction false} DecodeFields(e: Edit, fs: seq<Field>)
    requires forall f | f in fs :: FieldOk(f)
    ensures DecodeInto(e, EncodeFields(fs)) == Some(ApplyAll(e, fs))
    decreases |fs|
  {
    if fs != [] {
      var rest := EncodeFields(fs[1..]);
      FieldRoundTrip(fs[0], rest);
      DecodeFields(Apply(e, fs[0]), fs[1..]);
    }
  }

  lemma {:induction false} ApplyPointers(e: Edit, ps: seq<(nat, Bytes)>)
    ensures ApplyAll(e, Pointers(ps)) == e.(pointers := e.pointers + ps)
    decreases |ps|
  {
    if ps == [] {
      assert e.pointers + [] == e.pointers;
    } else {
      var init, last := ps[..|ps| - 1], ps[|ps| - 1];
      ApplyConcat(e, Pointers(init), [Pointer(last.0, last.1)]);
      ApplyPointers(e, init);
      ApplyOne(ApplyAll(e, Pointers(init)), Pointer(last.0, last.1));
      assert (e.pointers + init) + [last] == e.pointers + ps;
    }
  }

  lemma {:induction false} ApplyAdditions(e: Edit, ns: seq<(nat, Meta)>)
    ensures ApplyAll(e, Additions(ns)) == e.(added := e.added + ns)
    decreases |ns|
  {
    if ns == [] {
      assert e.added + [] == e.added;
    } else {
      var init, last := ns[..|ns| - 1], ns[|ns| - 1];
      ApplyConcat(e, Additions(init), [NewFile(last.0, last.1)]);
      ApplyAdditions(e, init);
      ApplyOne(ApplyAll(e, Additions(init)), NewFile(last.0, last.1));
      assert (e.added + init) + [last] == e.added + ns;
    }
  }

  /** In the order of a set. */
  ghost predicate SetOrder(ds: seq<(nat, nat)>) {
    forall i, j | 0 <= i < j < |ds| :: PairLess(ds[i], ds[j])
  }

  lemma {:induction false} ApplyDeletions(e: Edit, ds: seq<(nat, nat)>)
    requires SetOrder(ds) && e.deleted == []
    ensures ApplyAll(e, Deletions(ds)) == e.(deleted := ds)
    decreases |ds|
  {
    if ds != [] {
      var init, last := ds[..|ds| - 1], ds[|ds| - 1];
      ApplyConcat(e, Deletions(init), [Deleted(last.0, last.1)]);
      ApplyDeletions(e, init);
      ApplyOne(ApplyAll(e, Deletions(init)), Deleted(last.0, last.1));
      assert InsertPair(init, last) == ds;
    }
  }

  /** What Clear leaves: everything but the compaction pointers is reset. */
  function Cleared(e: Edit): Edit {
    FreshEdit().(pointers := e.pointers)
  }

  function DecodeFrom(into: Edit, input: Bytes): Option<Edit> {
    DecodeInto(Cleared(into), input)
  }

  function Encode(e: Edit): Bytes {
    EncodeFields(Fields(e))
  }

  /** The widths the code gives the edit's numbers and strings, and the order of its set. */
  ghost predicate EditOk(e: Edit) {
    && (e.comparator.Some? ==> |e.comparator.value| < WIDTH32)
    && (e.logNumber.Some? ==> e.logNumber.value < WIDTH64) && (e.prevLogNumber.Some? ==>
        e.prevLogNumber.value < WIDTH64)
    && (e.nextFile.Some? ==> e.nextFile.value < WIDTH64) && (e.lastSequence.Some? ==> e.lastSequence.value < WIDTH64)
    && (forall p | p in e.pointers :: FieldOk(Pointer(p.0, p.1)))
    && (forall d | d in e.deleted :: FieldOk(Deleted(d.0, d.1))) && SetOrder(e.deleted)
    && (forall n | n in e.added :: FieldOk(NewFile(n.0, n.1)))
  }

  lemma {:induction false} PointersOk(ps: seq<(nat, Bytes)>)
    requires forall p | p in ps :: FieldOk(Pointer(p.0, p.1))
    ensures forall f | f in Pointers(ps) :: FieldOk(f)
  {
    if ps != [] {
      PointersOk(ps[..|ps| - 1]);
    }
  }

  lemma {:induction false} DeletionsOk(ds: seq<(nat, nat)>)
    requires forall d | d in ds :: FieldOk(Deleted(d.0, d.1))
    ensures forall f | f in Deletions(ds) :: FieldOk(f)
  {
    if ds != [] {
      DeletionsOk(ds[..|ds| - 1]);
    }
  }

  lemma {:induction false} AdditionsOk(ns: seq<(nat, Meta)>)
    requires forall n | n in ns :: FieldOk(NewFile(n.0, n.1))
    ensures forall f | f in Additions(ns) :: FieldOk(f)
  {
    if ns != [] {
      AdditionsOk(ns[..|ns| - 1]);
    }
  }

  lemma FieldsOk(e: Edit)
    requires EditOk(e)
    ensures forall f | f in Fields(e) :: FieldOk(f)
  {
    PointersOk(e.pointers);
    DeletionsOk(e.deleted);
    AdditionsOk(e.added);
  }

  lemma ApplyScalars(p: seq<(nat, Bytes)>, e: Edit)
    ensures ApplyAll(FreshEdit().(pointers := p), Scalars(e)) ==
            Edit(e.comparator, e.logNumber, e.prevLogNumber, e.nextFile, e.lastSequence, p, [], [])
  {
    var e0 := FreshEdit().(pointers := p);
    var a := if e.comparator.Some? then [Comparator(e.comparator.value)] else [];
    var b := if e.logNumber.Some? then [LogNumber(e.logNumber.value)] else [];
    var c := if e.prevLogNumber.Some? then [PrevLogNumber(e.prevLogNumber.value)] else [];
    var d := if e.nextFile.Some? then [NextFile(e.nextFile.value)] else [];
    var l := if e.lastSequence.Some? then [LastSequence(e.lastSequence.value)] else [];
    ApplyConcat(e0, a + b + c + d, l);
    ApplyConcat(e0, a + b + c, d);
    ApplyConcat(e0, a + b, c);
    ApplyConcat(e0, a, b);
    assert ApplyAll(e0, a) == e0.(comparator := e.comparator) by {
      if a != [] {
        ApplyOne(e0, a[0]);
      }
    }
    var e1 := e0.(comparator := e.comparator);
    assert ApplyAll(e1, b) == e1.(logNumber := e.logNumber) by {
      if b != [] {
        ApplyOne(e1, b[0]);
      }
    }
    var e2 := e1.(logNumber := e.logNumber);
    assert ApplyAll(e2, c) == e2.(prevLogNumber := e.prevLogNumber) by {
      if c != [] {
        ApplyOne(e2, c[0]);
      }
    }
    var e3 := e2.(prevLogNumber := e.prevLogNumber);
    assert ApplyAll(e3, d) == e3.(nextFile := e.nextFile) by {
      if d != [] {
        ApplyOne(e3, d[0]);
      }
    }
    var e4 := e3.(nextFile := e.nextFile);
    if l != [] {
      ApplyOne(e4, l[0]);
    }
  }

  lemma ApplyFields(p: seq<(nat, Bytes)>, e: Edit)
    requires SetOrder(e.deleted)
    ensures ApplyAll(FreshEdit().(pointers := p), Fields(e)) == e.(pointers := p + e.pointers)
  {
    var e0 := FreshEdit().(pointers := p);
    var e1 := Edit(e.comparator, e.logNumber, e.prevLogNumber, e.nextFile, e.lastSequence, p, [], []);
    var ps, ds, ns := Pointers(e.pointers), Deletions(e.deleted), Additions(e.added);
    ApplyConcat(e0, Scalars(e) + ps + ds, ns);
    ApplyConcat(e0, Scalars(e) + ps, ds);
    ApplyConcat(e0, Scalars(e), ps);
    ApplyScalars(p, e);
    ApplyLists(e1, e);
  }

  lemma ApplyLists(e1: Edit, e: Edit)
    requires SetOrder(e.deleted) && e1.deleted == [] && e1.added == []
    ensures ApplyAll(ApplyAll(ApplyAll(e1, Pointers(e.pointers)), Deletions(e.deleted)), Additions(e.added))
            == e1.(pointers := e1.pointers + e.pointers, deleted := e.deleted, added := e.added)
  {
    ApplyPointers(e1, e.pointers);
    var e2 := e1.(pointers := e1.pointers + e.pointers);
    ApplyDeletions(e2, e.deleted);
    ApplyAdditions(e2.(deleted := e.deleted), e.added);
    assert [] + e.added == e.added;
  }

  /** Decoding an encoded edit restores it, after whatever compaction pointers the target already held. */
  lemma DecodeEncode(into: Edit, e: Edit)
    requires EditOk(e)
    ensures DecodeFrom(into, Encode(e)) == Some(e.(pointers := into.pointers + e.pointers))
  {
    FieldsOk(e);
    DecodeFields(Cleared(into), Fields(e));
    ApplyFields(into.pointers, e);
  }

  /** So decoding is an exact inverse if and only if the target held no compaction pointers. */
  lemma RoundTripIff(into: Edit, e: Edit)
    requires EditOk(e)
    ensures DecodeFrom(into, Encode(e)) == Some(e) <==> into.pointers == []
  {
    DecodeEncode(into, e);
    SamePointers(e, into.pointers);
  }

  lemma SamePointers(e: Edit, ps: seq<(nat, Bytes)>)
    ensures e.(pointers := ps + e.pointers) == e <==> ps == []
  {
    assert |ps + e.pointers| == |ps| + |e.pointers|;
    if ps == [] {
      assert ps + e.pointers == e.pointers;
    }
  }

  // ---- The class ----

  lemma {:induction false} EncodeConcat(a: seq<Field>, b: seq<Field>)
    ensures EncodeFields(a + b) == EncodeFields(a) + EncodeFields(b)
    decreases |a|
  {
    if a == [] {
      assert a + b == b;
    } else {
      assert (a + b)[0] == a[0] && (a + b)[1..] == a[1..] + b;
      EncodeConcat(a[1..], b);
      Assoc(EncodeField(a[0]), EncodeFields(a[1..]), EncodeFields(b));
    }
  }

  /** Append one field to what encodes `before`. */
  method PutField(dst: Bytes, f: Field, ghost start: Bytes, ghost before: seq<Field>) returns (r: Bytes)
    requires dst == start + EncodeFields(before)
    ensures r == start + EncodeFields(before + [f])
  {
    r := dst + EncodeField(f);
    EncodeConcat(before, [f]);
    assert [f][1..] == [] && EncodeFields([f]) == EncodeField(f) + [];
    Assoc(start, EncodeFields(before), EncodeField(f));
  }

  function Listed(f: Option<Field>): seq<Field> {
    if f.Some? then [f.value] else []
  }

  method PutIf(dst: Bytes, f: Option<Field>, ghost start: Bytes, ghost before: seq<Field>) returns (r: Bytes)
    requires dst == start + EncodeFields(before)
    ensures r == start + EncodeFields(before + Listed(f))
  {
    r := dst;
    if f.Some? {
      r := PutField(dst, f.value, start, before);
    } else {
      assert before + [] == before;
    }
  }

  lemma PointersNext(s: seq<(nat, Bytes)>, i: nat, done: seq<Field>)
    requires i < |s|
    ensures done + Pointers(s[..i + 1]) == (done + Pointers(s[..i])) + [Pointer(s[i].0, s[i].1)]
  {
    assert s[..i + 1][..i] == s[..i];
    Assoc(done, Pointers(s[..i]), [Pointer(s[i].0, s[i].1)]);
  }

  lemma DeletionsNext(s: seq<(nat, nat)>, i: nat, done: seq<Field>)
    requires i < |s|
    ensures done + Deletions(s[..i + 1]) == (done + Deletions(s[..i])) + [Deleted(s[i].0, s[i].1)]
  {
    assert s[..i + 1][..i] == s[..i];
    Assoc(done, Deletions(s[..i]), [Deleted(s[i].0, s[i].1)]);
  }

  lemma AdditionsNext(s: seq<(nat, Meta)>, i: nat, done: seq<Field>)
    requires i < |s|
    ensures done + Additions(s[..i + 1]) == (done + Additions(s[..i])) + [NewFile(s[i].0, s[i].1)]
  {
    assert s[..i + 1][..i] == s[..i];
    Assoc(done, Additions(s[..i]), [NewFile(s[i].0, s[i].1)]);
  }

  /** The edit being built or decoded; Edit is its value.  Manifest.VersionEdit is what it means to the engine. */
  class VersionEdit {
    var comparator: Option<Bytes>
    var logNumber: Option<nat>
    var prevLogNumber: Option<nat>
    var nextFile: Option<nat>
    var lastSequence: Option<nat>
    var pointers: seq<(nat, Bytes)>
    var deleted: seq<(nat, nat)>
    var added: seq<(nat, Meta)>

    ghost function Value(): Edit
      reads this
    {
      Edit(comparator, logNumber, prevLogNumber, nextFile, lastSequence, pointers, deleted, added)
    }

    constructor ()
      ensures Value() == FreshEdit()
    {
      comparator, logNumber, prevLogNumber, nextFile, lastSequence := None, None, None, None, None;
      pointers, deleted, added := [], [], [];
    }

    method Clear()
      modifies this
      ensures Value() == Cleared(old(Value()))
    {
      comparator, logNumber, prevLogNumber, nextFile, lastSequence := None, None, None, None, None;
      deleted, added := [], [];
    }

    method Take(f: Field)
      modifies this
      ensures Value() == Apply(old(Value()), f)
    {
      match f
      case Comparator(name) => comparator := Some(name);
      case LogNumber(n) => logNumber := Some(n);
      case NextFile(n) => nextFile := Some(n);
      case LastSequence(n) => lastSequence := Some(n);
      case PrevLogNumber(n) => prevLogNumber := Some(n);
      case Pointer(level, key) => pointers := pointers + [(level, key)];
      case Deleted(level, n) => deleted := InsertPair(deleted, (level, n));
      case NewFile(level, m) => added := added + [(level, m)];
    }

    method Decode(src: Bytes) returns (ok: bool)
      modifies this
      ensures DecodeFrom(old(Value()), src) == if ok then Some(Value()) else None
    {
      ghost var goal := DecodeFrom(Value(), src);
      Clear();
      var input := src;
      while input != []
        invariant goal == DecodeInto(Value(), input)
        decreases |input|
      {
        GetFieldEats(input);
        var r := GetField(input);
        if r.None? {
          return false;
        }
        Take(r.value.0);
        input := r.value.1;
      }
      return true;
    }

    method EncodeTo(dst: Bytes) returns (r: Bytes)
      ensures r == dst + Encode(Value())
    {
      r := EncodeScalars(dst);
      ghost var done := Scalars(Value());
      r := EncodePointers(r, dst, done);
      r := EncodeDeletions(r, dst, done + Pointers(pointers));
      r := EncodeAdditions(r, dst, done + Pointers(pointers) + Deletions(deleted));
    }

    method EncodePointers(dst: Bytes, ghost start: Bytes, ghost done: seq<Field>) returns (r: Bytes)
      requires dst == start + EncodeFields(done)
      ensures r == start + EncodeFields(done + Pointers(pointers))
    {
      r := dst;
      assert done + [] == done;
      for i := 0 to |pointers|
        invariant r == start + EncodeFields(done + Pointers(pointers[..i]))
      {
        PointersNext(pointers, i, done);
        r := PutField(r, Pointer(pointers[i].0, pointers[i].1), start, done + Pointers(pointers[..i]));
      }
      assert pointers[..|pointers|] == pointers;
    }

    method EncodeScalars(dst: Bytes) returns (r: Bytes)
      ensures r == dst + EncodeFields(Scalars(Value()))
    {
      r := PutIf(dst, if comparator.Some? then Some(Comparator(comparator.value)) else None, dst, []);
      ghost var done := Listed(if comparator.Some? then Some(Comparator(comparator.value)) else None);
      r := PutIf(r, if logNumber.Some? then Some(LogNumber(logNumber.value)) else None, dst, done);
      done := done + Listed(if logNumber.Some? then Some(LogNumber(logNumber.value)) else None);
      r := PutIf(r, if prevLogNumber.Some? then Some(PrevLogNumber(prevLogNumber.value)) else None, dst, done);
      done := done + Listed(if prevLogNumber.Some? then Some(PrevLogNumber(prevLogNumber.value)) else None);
      r := PutIf(r, if nextFile.Some? then Some(NextFile(nextFile.value)) else None, dst, done);
      done := done + Listed(if nextFile.Some? then Some(NextFile(nextFile.value)) else None);
      r := PutIf(r, if lastSequence.Some? then Some(LastSequence(lastSequence.value)) else None, dst, done);
    }

    method EncodeDeletions(dst: Bytes, ghost start: Bytes, ghost done: seq<Field>) returns (r: Bytes)
      requires dst == start + EncodeFields(done)
      ensures r == start + EncodeFields(done + Deletions(deleted))
    {
      r := dst;
      assert done + [] == done;
      for i := 0 to |deleted|
        invariant r == start + EncodeFields(done + Deletions(deleted[..i]))
      {
        DeletionsNext(deleted, i, done);
        r := PutField(r, Deleted(deleted[i].0, deleted[i].1), start, done + Deletions(deleted[..i]));
      }
      assert deleted[..|deleted|] == deleted;
    }

    method EncodeAdditions(dst: Bytes, ghost start: Bytes, ghost done: seq<Field>) returns (r: Bytes)
      requires dst == start + EncodeFields(done)
      ensures r == start + EncodeFields(done + Additions(added))
    {
      r := dst;
      assert done + [] == done;
      for i := 0 to |added|
        invariant r == start + EncodeFields(done + Additions(added[..i]))
      {
        AdditionsNext(added, i, done);
        r := PutField(r, NewFile(added[i].0, added[i].1), start, done + Additions(added[..i]));
      }
      assert added[..|added|] == added;
    }
  }

  // ---- A MANIFEST ----

  function EncodeAll(edits: seq<Edit>): (r: seq<Bytes>)
    ensures |r| == |edits|
  {
    if edits == [] then [] else EncodeAll(edits[..|edits| - 1]) + [Encode(edits[|edits| - 1])]
  }

  /** Every record decoded into a fresh edit, or none if one is damaged. */
  function DecodeAll(records: seq<Bytes>): Option<seq<Edit>> {
    if records == [] then Some([])
    else
      var init :- DecodeAll(records[..|records| - 1]);
      var e :- DecodeFrom(FreshEdit(), records[|records| - 1]);
      Some(init + [e])
  }

  lemma {:induction false} DecodeAllEncoded(edits: seq<Edit>)
    requires forall e | e in edits :: EditOk(e)
    ensures DecodeAll(EncodeAll(edits)) == Some(edits)
    decreases |edits|
  {
    if edits != [] {
      var init, last := edits[..|edits| - 1], edits[|edits| - 1];
      DecodeAllEncoded(init);
      RestoredLast(edits);
      DecodeOneMore(EncodeAll(init), Encode(last), init, last);
      assert init + [last] == edits;
    }
  }

  lemma RestoredLast(edits: seq<Edit>)
    requires edits != [] && forall e | e in edits :: EditOk(e)
    ensures DecodeFrom(FreshEdit(), Encode(edits[|edits| - 1])) == Some(edits[|edits| - 1])
  {
    Restored(edits[|edits| - 1]);
  }

  lemma Restored(e: Edit)
    requires EditOk(e)
    ensures DecodeFrom(FreshEdit(), Encode(e)) == Some(e)
  {
    RoundTripIff(FreshEdit(), e);
  }

  lemma DecodeOneMore(records: seq<Bytes>, r: Bytes, edits: seq<Edit>, e: Edit)
    requires DecodeAll(records) == Some(edits) && DecodeFrom(FreshEdit(), r) == Some(e)
    ensures DecodeAll(records + [r]) == Some(edits + [e])
  {
    assert (records + [r])[..|records|] == records;
  }

  /** The MANIFEST as bytes: what was appended is what is read back, edit by edit, with nothing reported. */
  lemma ManifestRoundTrip(crc: LogFormat.Checksum, edits: seq<Edit>)
    requires forall e | e in edits :: EditOk(e)
    ensures var (records, reports) := LogFormat.ReadAll(crc, LogFormat.WriteAll(crc, EncodeAll(edits)), 0);
            reports == 0 && DecodeAll(records) == Some(edits)
  {
    LogFormat.RoundTrip(crc, EncodeAll(edits));
    DecodeAllEncoded(edits);
  }
}
