/** The write-ahead log format: what the writer lays out and what the reader makes of any file (db/log_format.h,
    db/log_writer.cc, db/log_reader.cc, util/crc32c.h, util/coding.cc). */
module LogFormat {
  import opened DbFormat
  import opened Coding

  const BLOCK: nat := 32768
  const HEADER: nat := 7

  const ZERO_TYPE: Byte := 0
  const FULL_TYPE: Byte := 1
  const FIRST_TYPE: Byte := 2
  const MIDDLE_TYPE: Byte := 3
  const LAST_TYPE: Byte := 4

  // The reader's own outcomes share the numbering of the record types, so a stored type of 5 or 6 acts as one.
  const EOF: Byte := 5
  const BAD_RECORD: Byte := 6

  /** The checksum of a byte string; the format works with any. */
  type Checksum = Bytes -> Word

  // ---- Masking ----

  const MASK_DELTA: int := 0xa282ead8

  /** Rotate right by 15 bits and add a constant, in 32-bit arithmetic. */
  function Mask(crc: Word): Word {
    (crc / 0x8000 + (crc % 0x8000) * 0x2_0000 + MASK_DELTA) % 0x1_0000_0000
  }

  function Unmask(masked: Word): Word {
    var rot := (masked - MASK_DELTA) % 0x1_0000_0000;
    rot / 0x2_0000 + (rot % 0x2_0000) * 0x8000
  }

  lemma UnmaskMask(crc: Word)
    ensures Unmask(Mask(crc)) == crc
  {
    var rot := crc / 0x8000 + (crc % 0x8000) * 0x2_0000;
    assert 0 <= rot < 0x1_0000_0000;
    assert (Mask(crc) - MASK_DELTA) % 0x1_0000_0000 == rot;
    assert rot / 0x2_0000 == crc % 0x8000 && rot % 0x2_0000 == crc / 0x8000;
  }

  // ---- Writing ----

  function Pad(n: nat): (r: Bytes)
    ensures |r| == n
  {
    seq(n, _ => 0)
  }

  /** A physical record: masked checksum of type and payload, length, type, payload. */
  function Physical(crc: Checksum, t: Byte, payload: Bytes): (r: Bytes)
    requires |payload| <= 0xffff
    ensures |r| == HEADER + |payload|
  {
    Fixed32(Mask(crc([t] + payload))) + [|payload| % 256, |payload| / 256, t] + payload
  }

  function TypeOf(begin: bool, end: bool): Byte {
    if begin && end then FULL_TYPE else if begin then FIRST_TYPE else if end then LAST_TYPE else MIDDLE_TYPE
  }

  function Rank(pos: nat): nat {
    var off := pos % BLOCK;
    if off == BLOCK - HEADER then 2 else if off > BLOCK - HEADER then 1 else 0
  }

  lemma RankOf(pos: nat)
    ensures var left := BLOCK - pos % BLOCK;
            && (left < HEADER ==> (pos + left) % BLOCK == 0 && Rank(pos + left) < Rank(pos))
            && (left == HEADER ==> (pos + left) % BLOCK == 0 && Rank(pos + left) < Rank(pos))
  {
  }

  /** The bytes AddRecord appends at file position `pos` for what is left of a record. */
  function Emit(crc: Checksum, pos: nat, data: Bytes, begin: bool): Bytes
    decreases |data|, Rank(pos)
  {
    var left := BLOCK - pos % BLOCK;
    RankOf(pos);
    if left < HEADER then
      Pad(left) + Emit(crc, pos + left, data, begin)
    else
      var avail := left - HEADER;
      if |data| <= avail then
        Physical(crc, TypeOf(begin, true), data)
      else
        Physical(crc, TypeOf(begin, false), data[..avail]) + Emit(crc, pos + left, data[avail..], false)
  }

  /** A log file holding the given records, added one by one. */
  function WriteAll(crc: Checksum, records: seq<Bytes>): Bytes {
    if records == [] then []
    else
      var file := WriteAll(crc, records[..|records| - 1]);
      file + Emit(crc, |file|, records[|records| - 1], true)
  }

  // ---- Reading ----

  /** What ReadPhysicalRecord finds: a record type or outcome, the payload, where it stops, and the corruptions it
      reports. */
  datatype Found = Found(t: Byte, payload: Bytes, next: nat, reports: nat)

  function BlockEnd(file: Bytes, pos: nat): nat {
    var end := pos - pos % BLOCK + BLOCK;
    if end <= |file| then end else |file|
  }

  /** The last read filled a whole block, so what remains of it is a trailer and not the end of the file. */
  predicate FullBlock(file: Bytes, pos: nat) {
    pos - pos % BLOCK + BLOCK <= |file|
  }

  /** The physical record at the front of what is left of a block ending at `end`; `full` when it is a whole block. */
  function Parse(crc: Checksum, buffer: Bytes, end: nat, full: bool): (r: Found)
    requires HEADER <= |buffer| <= end
    ensures end - |buffer| < r.next <= end
  {
    var length := buffer[4] as int + 256 * (buffer[5] as int);
    var t := buffer[6];
    if HEADER + length > |buffer| then
      if full then Found(BAD_RECORD, [], end, 1) else Found(EOF, [], end, 0)
    else if t == ZERO_TYPE && length == 0 then
      Found(BAD_RECORD, [], end, 0)
    else if crc(buffer[6..HEADER + length]) != Unmask(DecodeFixed32(buffer[..4])) then
      Found(BAD_RECORD, [], end, 1)
    else
      Found(t, buffer[HEADER..HEADER + length], end - |buffer| + HEADER + length, 0)
  }

  function ReadPhysical(crc: Checksum, file: Bytes, pos: nat): (r: Found)
    requires pos <= |file|
    ensures r.next <= |file| && (r.t != EOF ==> pos < r.next)
    decreases |file| - pos
  {
    var end := BlockEnd(file, pos);
    if end - pos >= HEADER then Parse(crc, file[pos..end], end, FullBlock(file, pos))
    else if FullBlock(file, pos) then ReadPhysical(crc, file, end)
    else Found(EOF, [], end, 0)
  }

  /** What the reader does with one physical record. */
  datatype Turn = Return(record: Bytes, reports: nat) | Stop | Continue(inFragmented: bool, scratch: Bytes,
      reports: nat)

  function TurnOn(t: Byte, payload: Bytes, inFragmented: bool, scratch: Bytes): (r: Turn)
    ensures t == EOF ==> r == Stop
  {
    var lost := if inFragmented && scratch != [] then 1 else 0;
    if t == FULL_TYPE then Return(payload, lost)
    else if t == FIRST_TYPE then Continue(true, payload, lost)
    else if t == MIDDLE_TYPE then
      if inFragmented then Continue(true, scratch + payload, 0) else Continue(false, scratch, 1)
    else if t == LAST_TYPE then
      if inFragmented then Return(scratch + payload, 0) else Continue(false, scratch, 1)
    else if t == EOF then Stop
    else if t == BAD_RECORD then
      if inFragmented then Continue(false, [], 1) else Continue(false, scratch, 0)
    else Continue(false, [], 1)
  }

  /** What ReadRecord returns, where it stops, and how many corruptions it reports on the way. */
  datatype Read = Record(data: Bytes, next: nat, reports: nat) | End(reports: nat)

  function Reported(r: Read, n: nat): Read {
    match r
    case Record(data, next, reports) => Record(data, next, reports + n)
    case End(reports) => End(reports + n)
  }

  function ReadRecord(crc: Checksum, file: Bytes, pos: nat, inFragmented: bool, scratch: Bytes): (r: Read)
    requires pos <= |file|
    ensures r.Record? ==> pos < r.next <= |file|
    decreases |file| - pos
  {
    var found := ReadPhysical(crc, file, pos);
    match TurnOn(found.t, found.payload, inFragmented, scratch)
    case Stop => End(found.reports)
    case Return(record, n) => Record(record, found.next, found.reports + n)
    case Continue(inFragmented', scratch', n) =>
      Reported(ReadRecord(crc, file, found.next, inFragmented', scratch'), found.reports + n)
  }

  /** Reading to the end: the records, and the number of corruptions reported. */
  function ReadAll(crc: Checksum, file: Bytes, pos: nat): (seq<Bytes>, nat)
    requires pos <= |file|
    decreases |file| - pos
  {
    match ReadRecord(crc, file, pos, false, [])
    case End(reports) => ([], reports)
    case Record(data, next, reports) =>
      var (rest, more) := ReadAll(crc, file, next);
      ([data] + rest, reports + more)
  }

  // ---- Reading what was written ----

  /** A physical record wholly inside its block is read back. */
  lemma ReadsPhysical(crc: Checksum, file: Bytes, pos: nat, t: Byte, payload: Bytes)
    requires t != ZERO_TYPE && |payload| <= 0xffff && HEADER + |payload| <= BLOCK - pos % BLOCK
    requires pos + HEADER + |payload| <= |file| && file[pos..pos + HEADER + |payload|] == Physical(crc, t, payload)
    ensures ReadPhysical(crc, file, pos) == Found(t, payload, pos + HEADER + |payload|, 0)
  {
    var r, buffer := Physical(crc, t, payload), file[pos..BlockEnd(file, pos)];
    var stored := Fixed32(Mask(crc([t] + payload)));
    assert r == stored + [|payload| % 256, |payload| / 256, t] + payload;
    var s := buffer[..HEADER + |payload|];
    assert s == file[pos..pos + HEADER + |payload|];
    assert s[4] == buffer[4] && s[5] == buffer[5] && s[6] == buffer[6];
    assert buffer[..4] == s[..4] == stored;
    assert buffer[6..HEADER + |payload|] == s[6..] == [t] + payload;
    assert buffer[HEADER..HEADER + |payload|] == s[HEADER..] == payload;
    DecodeEncode32(Mask(crc([t] + payload)));
    UnmaskMask(crc([t] + payload));
  }

  /** A physical record cut short by the end of the file reads as the end. */
  lemma CutPhysical(crc: Checksum, file: Bytes, pos: nat, t: Byte, payload: Bytes)
    requires |payload| <= 0xffff && HEADER + |payload| <= BLOCK - pos % BLOCK
    requires pos <= |file| < pos + HEADER + |payload| && file[pos..] == Physical(crc, t, payload)[..|file| - pos]
    ensures ReadPhysical(crc, file, pos) == Found(EOF, [], |file|, 0)
  {
    var r := Physical(crc, t, payload);
    assert !FullBlock(file, pos);
    if |file| - pos >= HEADER {
      assert file[pos..][4] == r[4] && file[pos..][5] == r[5];
      assert r[4] == |payload| % 256 && r[5] == |payload| / 256;
    }
  }

  /** A trailer inside the file is skipped. */
  lemma SkipsTrailer(crc: Checksum, file: Bytes, pos: nat)
    requires var left := BLOCK - pos % BLOCK; left < HEADER && pos + left <= |file|
    ensures ReadPhysical(crc, file, pos) == ReadPhysical(crc, file, pos + (BLOCK - pos % BLOCK))
  {
  }

  /** A first or middle fragment is kept and reading goes on. */
  lemma GoesOn(crc: Checksum, file: Bytes, pos: nat, begin: bool, scratch: Bytes, payload: Bytes, next: nat)
    requires pos <= |file| && ReadPhysical(crc, file, pos) == Found(TypeOf(begin, false), payload, next, 0)
             && (begin ==> scratch == [])
    ensures ReadRecord(crc, file, pos, !begin, scratch) == ReadRecord(crc, file, next, true, scratch + payload)
  {
    if begin {
      assert scratch + payload == payload;
    }
    var r := ReadRecord(crc, file, next, true, scratch + payload);
    assert Reported(r, 0) == r;
  }

  /** A full or last fragment completes the record. */
  lemma Completes(crc: Checksum, file: Bytes, pos: nat, begin: bool, scratch: Bytes, payload: Bytes, next: nat)
    requires pos <= |file| && ReadPhysical(crc, file, pos) == Found(TypeOf(begin, true), payload, next, 0)
             && (begin ==> scratch == [])
    ensures ReadRecord(crc, file, pos, !begin, scratch) == Record(scratch + payload, next, 0)
  {
    if begin {
      assert scratch + payload == payload;
    }
  }

  /** Reading from the trailer is reading from the next block. */
  lemma GoesToNextBlock(crc: Checksum, file: Bytes, pos: nat, inFragmented: bool, scratch: Bytes)
    requires var left := BLOCK - pos % BLOCK; left < HEADER && pos + left <= |file|
    ensures ReadRecord(crc, file, pos, inFragmented, scratch) ==
            ReadRecord(crc, file, pos + (BLOCK - pos % BLOCK), inFragmented, scratch)
  {
    SkipsTrailer(crc, file, pos);
  }

  predicate Lies(file: Bytes, pos: nat, e: Bytes) {
    pos + |e| <= |file| && file[pos..pos + |e|] == e
  }

  /** A record wholly inside the file is read back whole. */
  lemma {:induction false} ReadsWhole(crc: Checksum, file: Bytes, pos: nat, data: Bytes, begin: bool, scratch: Bytes)
    requires (begin ==> scratch == []) && Lies(file, pos, Emit(crc, pos, data, begin))
    ensures ReadRecord(crc, file, pos, !begin, scratch) == Record(scratch + data, pos + |Emit(crc, pos, data, begin)|,
              0)
    decreases |data|, Rank(pos)
  {
    if LastFragment(pos, data) {
      WholeLast(crc, file, pos, data, begin, scratch);
    } else {
      var p, next := FirstPart(crc, pos, data, begin, scratch), pos + (BLOCK - pos % BLOCK);
      WholePart(crc, file, pos, data, begin, scratch);
      ReadsWhole(crc, file, next, p.data, p.begin, p.scratch);
    }
  }

  /** The part in the first block is read, and the rest lies where the next block starts. */
  lemma WholePart(crc: Checksum, file: Bytes, pos: nat, data: Bytes, begin: bool, scratch: Bytes)
    requires (begin ==> scratch == []) && !LastFragment(pos, data) && Lies(file, pos, Emit(crc, pos, data, begin))
    ensures var p, next := FirstPart(crc, pos, data, begin, scratch), pos + (BLOCK - pos % BLOCK);
            var rest := Emit(crc, next, p.data, p.begin);
            && (p.begin ==> p.scratch == []) && Lies(file, next, rest)
            && (|p.data| < |data| || (|p.data| == |data| && Rank(next) < Rank(pos)))
            && ReadRecord(crc, file, pos, !begin, scratch) == ReadRecord(crc, file, next, !p.begin, p.scratch)
            && p.scratch + p.data == scratch + data && pos + |Emit(crc, pos, data, begin)| == next + |rest|
  {
    var p, next := FirstPart(crc, pos, data, begin, scratch), pos + (BLOCK - pos % BLOCK);
    PartOf(crc, pos, data, begin, scratch);
    SliceOf(file, pos, p.bytes, Emit(crc, next, p.data, p.begin));
    ReadsPart(crc, file, pos, data, begin, scratch);
  }

  /** What is left of the record fits the block. */
  predicate LastFragment(pos: nat, data: Bytes) {
    HEADER + |data| <= BLOCK - pos % BLOCK
  }

  lemma WholeLast(crc: Checksum, file: Bytes, pos: nat, data: Bytes, begin: bool, scratch: Bytes)
    requires (begin ==> scratch == []) && LastFragment(pos, data) && Lies(file, pos, Emit(crc, pos, data, begin))
    ensures ReadRecord(crc, file, pos, !begin, scratch) == Record(scratch + data, pos + |Emit(crc, pos, data, begin)|,
              0)
  {
    ReadsPhysical(crc, file, pos, TypeOf(begin, true), data);
    Completes(crc, file, pos, begin, scratch, data, pos + HEADER + |data|);
  }

  /** What a record that does not end in its block puts there, and what it leaves for the next. */
  datatype Part = Part(bytes: Bytes, data: Bytes, begin: bool, scratch: Bytes)

  function FirstPart(crc: Checksum, pos: nat, data: Bytes, begin: bool, scratch: Bytes): (p: Part)
    requires !LastFragment(pos, data)
    ensures |p.bytes| == BLOCK - pos % BLOCK
  {
    var left := BLOCK - pos % BLOCK;
    if left < HEADER then Part(Pad(left), data, begin, scratch)
    else Part(Physical(crc, TypeOf(begin, false), data[..left - HEADER]), data[left - HEADER..], false,
         scratch + data[..left - HEADER])
  }

  lemma PartOf(crc: Checksum, pos: nat, data: Bytes, begin: bool, scratch: Bytes)
    requires (begin ==> scratch == []) && !LastFragment(pos, data)
    ensures var p, next := FirstPart(crc, pos, data, begin, scratch), pos + (BLOCK - pos % BLOCK);
            && (p.begin ==> p.scratch == []) && p.scratch + p.data == scratch + data
            && Emit(crc, pos, data, begin) == p.bytes + Emit(crc, next, p.data, p.begin)
            && (|p.data| < |data| || (|p.data| == |data| && Rank(next) < Rank(pos)))
  {
    RankOf(pos);
    var left := BLOCK - pos % BLOCK;
    if left >= HEADER {
      JoinsBack(scratch, data, left - HEADER);
    }
  }

  /** Reading the part of a record in its first block leaves the rest to read from the next block. */
  lemma ReadsPart(crc: Checksum, file: Bytes, pos: nat, data: Bytes, begin: bool, scratch: Bytes)
    requires (begin ==> scratch == []) && !LastFragment(pos, data)
             && Lies(file, pos, FirstPart(crc, pos, data, begin, scratch).bytes)
    ensures var p := FirstPart(crc, pos, data, begin, scratch);
            ReadRecord(crc, file, pos, !begin, scratch) == ReadRecord(crc, file, pos + (BLOCK - pos % BLOCK), !p.begin,
                p.scratch)
  {
    if BLOCK - pos % BLOCK < HEADER {
      GoesToNextBlock(crc, file, pos, !begin, scratch);
    } else {
      ReadsFragment(crc, file, pos, data[..BLOCK - pos % BLOCK - HEADER], begin, scratch);
    }
  }

  /** A fragment that fills its block. */
  lemma ReadsFragment(crc: Checksum, file: Bytes, pos: nat, head: Bytes, begin: bool, scratch: Bytes)
    requires (begin ==> scratch == []) && HEADER + |head| == BLOCK - pos % BLOCK
             && Lies(file, pos, Physical(crc, TypeOf(begin, false), head))
    ensures ReadRecord(crc, file, pos, !begin, scratch) == ReadRecord(crc, file, pos + (BLOCK - pos % BLOCK), true,
              scratch + head)
  {
    ReadsPhysical(crc, file, pos, TypeOf(begin, false), head);
    GoesOn(crc, file, pos, begin, scratch, head, pos + (BLOCK - pos % BLOCK));
  }

  lemma JoinsBack(scratch: Bytes, data: Bytes, n: nat)
    requires n <= |data|
    ensures (scratch + data[..n]) + data[n..] == scratch + data
  {
    assert data[..n] + data[n..] == data;
  }

  lemma SliceOf(file: Bytes, pos: nat, a: Bytes, b: Bytes)
    requires pos + |a| + |b| <= |file| && file[pos..pos + |a + b|] == a + b
    ensures file[pos..pos + |a|] == a && file[pos + |a|..pos + |a| + |b|] == b
  {
    var s := file[pos..pos + |a + b|];
    assert s[..|a|] == a && s[|a|..] == b;
  }

  /** The file ends inside these bytes. */
  predicate Cut(file: Bytes, pos: nat, e: Bytes) {
    pos <= |file| < pos + |e| && file[pos..] == e[..|file| - pos]
  }

  /** A record cut short by the end of the file is dropped without a report. */
  lemma {:induction false} ReadsCut(crc: Checksum, file: Bytes, pos: nat, data: Bytes, begin: bool, scratch: Bytes)
    requires (begin ==> scratch == []) && Cut(file, pos, Emit(crc, pos, data, begin))
    ensures ReadRecord(crc, file, pos, !begin, scratch) == End(0)
    decreases |data|, Rank(pos)
  {
    if LastFragment(pos, data) {
      CutPhysical(crc, file, pos, TypeOf(begin, true), data);
    } else {
      var p, next := FirstPart(crc, pos, data, begin, scratch), pos + (BLOCK - pos % BLOCK);
      PartOf(crc, pos, data, begin, scratch);
      var rest := Emit(crc, next, p.data, p.begin);
      if next <= |file| {
        CutSlice(file, pos, p.bytes, rest);
        ReadsPart(crc, file, pos, data, begin, scratch);
        ReadsCut(crc, file, next, p.data, p.begin, p.scratch);
      } else {
        assert (p.bytes + rest)[..|file| - pos] == p.bytes[..|file| - pos];
        CutPart(crc, file, pos, data, begin, scratch);
      }
    }
  }

  /** The cut falls in the first block. */
  lemma CutPart(crc: Checksum, file: Bytes, pos: nat, data: Bytes, begin: bool, scratch: Bytes)
    requires !LastFragment(pos, data) && Cut(file, pos, FirstPart(crc, pos, data, begin, scratch).bytes)
    ensures ReadPhysical(crc, file, pos) == Found(EOF, [], |file|, 0)
  {
    var left := BLOCK - pos % BLOCK;
    if left >= HEADER {
      CutPhysical(crc, file, pos, TypeOf(begin, false), data[..left - HEADER]);
    }
  }

  lemma CutSlice(file: Bytes, pos: nat, a: Bytes, b: Bytes)
    requires pos + |a| <= |file| <= pos + |a| + |b| && file[pos..] == (a + b)[..|file| - pos]
    ensures file[pos..pos + |a|] == a && file[pos + |a|..] == b[..|file| - pos - |a|]
  {
    var s := file[pos..];
    assert s[..|a|] == a && s[|a|..] == b[..|file| - pos - |a|];
    assert file[pos + |a|..] == s[|a|..];
  }

  // ---- Whole files ----

  /** How many of the records end at or before byte `n`. */
  function WholeRecords(crc: Checksum, records: seq<Bytes>, n: nat): (k: nat)
    ensures k <= |records|
  {
    if records == [] then 0
    else if |WriteAll(crc, records)| <= n then |records|
    else WholeRecords(crc, records[..|records| - 1], n)
  }

  lemma ReadsNext(crc: Checksum, file: Bytes, pos: nat, data: Bytes)
    requires Lies(file, pos, Emit(crc, pos, data, true))
    ensures var (rest, more) := ReadAll(crc, file, pos + |Emit(crc, pos, data, true)|);
            ReadAll(crc, file, pos) == ([data] + rest, more)
  {
    ReadsWhole(crc, file, pos, data, true, []);
    assert [] + data == data;
  }

  /** Reading from the start gives the first `k` records and then what reading from `pos` gives. */
  ghost predicate ReadsTo(crc: Checksum, file: Bytes, records: seq<Bytes>, k: nat, pos: nat)
    requires k <= |records| && pos <= |file|
  {
    var (rest, more) := ReadAll(crc, file, pos);
    ReadAll(crc, file, 0) == (records[..k] + rest, more)
  }

  lemma {:induction false} ReadAllAppend(crc: Checksum, file: Bytes, records: seq<Bytes>, k: nat)
    requires k <= |records| && WriteAll(crc, records[..k]) <= file
    ensures ReadsTo(crc, file, records, k, |WriteAll(crc, records[..k])|)
  {
    if k == 0 {
      ReadsNothing(crc, file, records);
    } else {
      WrittenBefore(crc, file, records, k);
      ReadAllAppend(crc, file, records, k - 1);
      ReadsOneMore(crc, file, records, k, |WriteAll(crc, records[..k - 1])|, |WriteAll(crc, records[..k])|);
    }
  }

  lemma WrittenBefore(crc: Checksum, file: Bytes, records: seq<Bytes>, k: nat)
    requires 0 < k <= |records| && WriteAll(crc, records[..k]) <= file
    ensures var f := WriteAll(crc, records[..k - 1]); var e := Emit(crc, |f|, records[k - 1], true);
            f <= file && Lies(file, |f|, e) && |WriteAll(crc, records[..k])| == |f| + |e|
  {
    var f, e := WrittenSplit(crc, file, records, k);
  }

  lemma ReadsNothing(crc: Checksum, file: Bytes, records: seq<Bytes>)
    ensures records[..0] == [] && ReadsTo(crc, file, records, 0, 0)
  {
    var (rest, more) := ReadAll(crc, file, 0);
    assert [] + rest == rest;
  }

  lemma ReadsOneMore(crc: Checksum, file: Bytes, records: seq<Bytes>, k: nat, pos: nat, next: nat)
    requires 0 < k <= |records| && Lies(file, pos, Emit(crc, pos, records[k - 1], true))
    requires pos <= |file| && ReadsTo(crc, file, records, k - 1, pos)
    requires next == pos + |Emit(crc, pos, records[k - 1], true)| <= |file|
    ensures ReadsTo(crc, file, records, k, next)
  {
    ReadsNext(crc, file, pos, records[k - 1]);
    var rest := ReadAll(crc, file, next).0;
    assert ReadAll(crc, file, pos).0 == [records[k - 1]] + rest;
    TakesOneMore(records, k, rest);
  }

  lemma WrittenSplit(crc: Checksum, file: Bytes, records: seq<Bytes>, k: nat) returns (f: Bytes, e: Bytes)
    requires 0 < k <= |records| && WriteAll(crc, records[..k]) <= file
    ensures f == WriteAll(crc, records[..k - 1]) && f <= file && e == Emit(crc, |f|, records[k - 1], true)
    ensures WriteAll(crc, records[..k]) == f + e && Lies(file, |f|, e)
  {
    assert records[..k][..k - 1] == records[..k - 1];
    f := WriteAll(crc, records[..k - 1]);
    e := Emit(crc, |f|, records[k - 1], true);
    assert (f + e)[..|f|] == f && (f + e)[|f|..] == e;
  }

  lemma TakesOneMore<T>(s: seq<T>, k: nat, rest: seq<T>)
    requires 0 < k <= |s|
    ensures s[..k - 1] + ([s[k - 1]] + rest) == s[..k] + rest
  {
    assert s[..k] == s[..k - 1] + [s[k - 1]];
  }

  lemma {:induction false} WrittenPrefix(crc: Checksum, records: seq<Bytes>, k: nat)
    requires k <= |records|
    ensures WriteAll(crc, records[..k]) <= WriteAll(crc, records)
  {
    if k < |records| {
      var init := records[..|records| - 1];
      WrittenPrefix(crc, init, k);
      assert init[..k] == records[..k];
    } else {
      assert records[..k] == records;
    }
  }

  lemma {:induction false} WholeRecordsAre(crc: Checksum, records: seq<Bytes>, n: nat)
    ensures var k := WholeRecords(crc, records, n);
            |WriteAll(crc, records[..k])| <= n && (k < |records| ==> n < |WriteAll(crc, records[..k + 1])|)
  {
    var k := WholeRecords(crc, records, n);
    if records == [] || |WriteAll(crc, records)| <= n {
      assert records[..|records|] == records;
    } else {
      var init := records[..|records| - 1];
      WholeRecordsAre(crc, init, n);
      assert init[..k] == records[..k];
      if k + 1 <= |init| {
        assert init[..k + 1] == records[..k + 1];
      } else {
        assert records[..k + 1] == records;
      }
    }
  }

  /** Reading any byte prefix of a log returns exactly the records wholly inside it, and reports nothing. */
  lemma CrashPrefix(crc: Checksum, records: seq<Bytes>, n: nat)
    requires n <= |WriteAll(crc, records)|
    ensures ReadAll(crc, WriteAll(crc, records)[..n], 0) == (records[..WholeRecords(crc, records, n)], 0)
  {
    var whole, k := WriteAll(crc, records), WholeRecords(crc, records, n);
    var file := whole[..n];
    WholeRecordsAre(crc, records, n);
    WrittenPrefix(crc, records, k);
    var done := WriteAll(crc, records[..k]);
    assert done <= file;
    ReadAllAppend(crc, file, records, k);
    assert ReadRecord(crc, file, |done|, false, []) == End(0) by {
      if k < |records| {
        WrittenPrefix(crc, records, k + 1);
        NextIsCut(crc, records, k, n);
      } else {
        assert records[..k] == records;
        assert file == whole;
        AtEnd(crc, file);
      }
    }
    assert records[..k] + [] == records[..k];
  }

  lemma NextIsCut(crc: Checksum, records: seq<Bytes>, k: nat, n: nat)
    requires k < |records| && n <= |WriteAll(crc, records)| && WriteAll(crc, records[..k + 1]) <= WriteAll(crc, records)
    requires |WriteAll(crc, records[..k])| <= n < |WriteAll(crc, records[..k + 1])|
    ensures ReadRecord(crc, WriteAll(crc, records)[..n], |WriteAll(crc, records[..k])|, false, []) == End(0)
  {
    var whole, f := WriteAll(crc, records), WriteAll(crc, records[..k]);
    var file := whole[..n];
    assert records[..k + 1][..k] == records[..k];
    var e := Emit(crc, |f|, records[k], true);
    assert WriteAll(crc, records[..k + 1]) == f + e;
    assert file == (f + e)[..n];
    assert file[|f|..] == e[..n - |f|];
    ReadsCut(crc, file, |f|, records[k], true, []);
  }

  lemma AtEnd(crc: Checksum, file: Bytes)
    ensures ReadRecord(crc, file, |file|, false, []) == End(0)
  {
  }

  /** Reading a log returns exactly the records written, in order, and reports nothing. */
  lemma RoundTrip(crc: Checksum, records: seq<Bytes>)
    ensures ReadAll(crc, WriteAll(crc, records), 0) == (records, 0)
  {
    var file := WriteAll(crc, records);
    CrashPrefix(crc, records, |file|);
    assert file[..|file|] == file;
    assert WholeRecords(crc, records, |file|) == |records|;
    assert records[..|records|] == records;
  }
}
