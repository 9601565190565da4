/** What the log reader makes of damaged files: nothing is returned whose checksum is wrong, and one damaged record
    costs the rest of its block (db/log_reader.cc:56-174, 189-271). */
module LogDamage {
  import opened DbFormat
  import opened Coding
  import opened LogFormat

  // ---- Everything returned was checked ----

  /** A physical record somewhere in a file. */
  datatype Piece = Piece(at: nat, t: Byte, payload: Bytes)

  function Past(p: Piece): nat {
    p.at + HEADER + |p.payload|
  }

  /** It lies there, inside one block, under the masked checksum of its own type and payload. */
  ghost predicate Checked(crc: Checksum, file: Bytes, p: Piece) {
    && |p.payload| <= 0xffff && p.at % BLOCK + HEADER + |p.payload| <= BLOCK && Past(p) <= |file|
    && file[p.at..p.at + 4] == Fixed32(Mask(crc([p.t] + p.payload)))
    && file[p.at + 4..p.at + HEADER] == [|p.payload| % 256, |p.payload| / 256, p.t]
    && file[p.at + HEADER..Past(p)] == p.payload
  }

  /** The place after a record: there, or past a trailer too short for a header. */
  predicate Next(pos: nat, at: nat) {
    at == pos || (BLOCK - pos % BLOCK < HEADER && at == pos + (BLOCK - pos % BLOCK))
  }

  /** The pieces lie one after the other. */
  ghost predicate Adjacent(ps: seq<Piece>) {
    forall i: nat | i + 1 < |ps| :: Touch(ps, i)
  }

  ghost predicate Touch(ps: seq<Piece>, i: nat)
    requires i + 1 < |ps|
  {
    Next(Past(ps[i]), ps[i + 1].at)
  }

  function Payloads(ps: seq<Piece>): Bytes {
    if ps == [] then [] else Payloads(ps[..|ps| - 1]) + ps[|ps| - 1].payload
  }

  ghost predicate AllChecked(crc: Checksum, file: Bytes, ps: seq<Piece>) {
    forall i: nat | i < |ps| :: CheckedAt(crc, file, ps, i)
  }

  ghost predicate CheckedAt(crc: Checksum, file: Bytes, ps: seq<Piece>, i: nat)
    requires i < |ps|
  {
    Checked(crc, file, ps[i])
  }

  /** A first piece and then middle ones, all checked. */
  ghost predicate Opening(crc: Checksum, file: Bytes, ps: seq<Piece>) {
    && ps != [] && Adjacent(ps) && AllChecked(crc, file, ps)
    && ps[0].t == FIRST_TYPE && forall i | 0 < i < |ps| :: ps[i].t == MIDDLE_TYPE
  }

  /** The pieces of one record: a full one, or a first, middle ones and a last. */
  ghost predicate IsRecord(crc: Checksum, file: Bytes, ps: seq<Piece>, data: Bytes) {
    && ps != [] && Adjacent(ps) && AllChecked(crc, file, ps) && data == Payloads(ps)
    && if |ps| == 1 then ps[0].t == FULL_TYPE
       else ps[0].t == FIRST_TYPE && ps[|ps| - 1].t == LAST_TYPE
            && forall i | 0 < i < |ps| - 1 :: ps[i].t == MIDDLE_TYPE
  }

  /** Records that lie in the file one after the other, from `from` on. */
  ghost predicate RecordsIn(crc: Checksum, file: Bytes, from: nat, records: seq<Bytes>)
    decreases |records|
  {
    records == [] ||
    exists ps: seq<Piece> :: IsRecord(crc, file, ps, records[0]) && from <= ps[0].at
                 && RecordsIn(crc, file, Past(ps[|ps| - 1]), records[1..])
  }

  lemma MaskUnmask(x: Word)
    ensures Mask(Unmask(x)) == x
  {
    var rot := (x - MASK_DELTA) % 0x1_0000_0000;
    var hi, lo := rot / 0x2_0000, rot % 0x2_0000;
    assert Unmask(x) == hi + lo * 0x8000 && hi < 0x8000;
    assert Unmask(x) / 0x8000 == lo && Unmask(x) % 0x8000 == hi;
  }

  lemma EncodeDecode32(b: Bytes)
    requires |b| == 4
    ensures Fixed32(DecodeFixed32(b)) == b
  {
    var x := DecodeFixed32(b);
    assert x == b[0] as int + 256 * (b[1] as int + 256 * (b[2] as int + 256 * (b[3] as int)));
    assert x / 256 == b[1] as int + 256 * (b[2] as int + 256 * (b[3] as int));
    assert x / 0x1_0000 == b[2] as int + 256 * (b[3] as int);
    assert x / 0x100_0000 == b[3] as int;
  }

  predicate IsPiece(t: Byte) {
    t == FULL_TYPE || t == FIRST_TYPE || t == MIDDLE_TYPE || t == LAST_TYPE
  }

  /** What the physical reader returns as a record lies in the file under its checksum. */
  lemma {:induction false} PhysicalChecked(crc: Checksum, file: Bytes, pos: nat) returns (p: Piece)
    requires pos <= |file| && IsPiece(ReadPhysical(crc, file, pos).t)
    ensures var f := ReadPhysical(crc, file, pos);
            Next(pos, p.at) && Checked(crc, file, p) && p.t == f.t && p.payload == f.payload && f.next == Past(p)
    decreases |file| - pos
  {
    var end := BlockEnd(file, pos);
    BlockEnds(file, pos);
    if end - pos >= HEADER {
      ParseChecked(crc, file, pos, end);
      var f := Parse(crc, file[pos..end], end, FullBlock(file, pos));
      p := Piece(pos, f.t, f.payload);
    } else {
      p := PhysicalChecked(crc, file, end);
    }
  }

  lemma BlockEnds(file: Bytes, pos: nat)
    requires pos <= |file|
    ensures var end := BlockEnd(file, pos);
            && pos <= end <= |file| && end <= pos - pos % BLOCK + BLOCK
            && (FullBlock(file, pos) ==> end == pos + (BLOCK - pos % BLOCK) && end % BLOCK == 0)
  {
  }

  /** What passes the reader's tests, in its buffer. */
  lemma ParsePasses(crc: Checksum, buffer: Bytes, end: nat, full: bool)
    requires HEADER <= |buffer| <= end && IsPiece(Parse(crc, buffer, end, full).t)
    ensures var f := Parse(crc, buffer, end, full); var n := |f.payload|;
            && n <= 0xffff && HEADER + n <= |buffer| && f.next == end - |buffer| + HEADER + n
            && buffer[..4] == Fixed32(Mask(crc([f.t] + f.payload)))
            && buffer[4..HEADER] == [n % 256, n / 256, f.t] && buffer[HEADER..HEADER + n] == f.payload
  {
    var length := buffer[4] as int + 256 * (buffer[5] as int);
    var t, payload := buffer[6], buffer[HEADER..HEADER + length];
    assert buffer[6..HEADER + length] == [t] + payload;
    MaskUnmask(DecodeFixed32(buffer[..4]));
    EncodeDecode32(buffer[..4]);
    assert length % 256 == buffer[4] as int && length / 256 == buffer[5] as int;
  }

  lemma ParseChecked(crc: Checksum, file: Bytes, pos: nat, end: nat)
    requires pos + HEADER <= end <= |file| && end <= pos - pos % BLOCK + BLOCK
    requires IsPiece(Parse(crc, file[pos..end], end, FullBlock(file, pos)).t)
    ensures var f := Parse(crc, file[pos..end], end, FullBlock(file, pos));
            var p := Piece(pos, f.t, f.payload); Checked(crc, file, p) && f.next == Past(p)
  {
    var buffer := file[pos..end];
    ParsePasses(crc, buffer, end, FullBlock(file, pos));
    var n := |Parse(crc, buffer, end, FullBlock(file, pos)).payload|;
    SliceIn(file, pos, end, 0, 4);
    SliceIn(file, pos, end, 4, HEADER);
    SliceIn(file, pos, end, HEADER, HEADER + n);
  }

  lemma SliceIn(file: Bytes, pos: nat, end: nat, a: nat, b: nat)
    requires pos <= end <= |file| && a <= b <= end - pos
    ensures file[pos..end][a..b] == file[pos + a..pos + b]
  {
    var s := file[pos..end];
    forall i | 0 <= i < b - a ensures s[a..b][i] == file[pos + a..pos + b][i] {
    }
    assert s[a..b] == file[pos + a..pos + b];
  }

  /** One more piece after an opening. */
  lemma Extends(crc: Checksum, file: Bytes, ps: seq<Piece>, p: Piece)
    requires Opening(crc, file, ps) && Checked(crc, file, p) && Next(Past(ps[|ps| - 1]), p.at)
    ensures Payloads(ps + [p]) == Payloads(ps) + p.payload
    ensures p.t == MIDDLE_TYPE ==> Opening(crc, file, ps + [p])
    ensures p.t == LAST_TYPE ==> IsRecord(crc, file, ps + [p], Payloads(ps + [p]))
  {
    var qs := ps + [p];
    assert qs[..|qs| - 1] == ps;
    MoreAdjacent(ps, p);
    MoreChecked(crc, file, ps, p);
  }

  lemma MoreAdjacent(ps: seq<Piece>, p: Piece)
    requires ps != [] && Adjacent(ps) && Next(Past(ps[|ps| - 1]), p.at)
    ensures Adjacent(ps + [p])
  {
    forall i: nat | i + 1 < |ps + [p]| ensures Touch(ps + [p], i) {
      if i + 1 < |ps| {
        assert Touch(ps, i);
      }
    }
  }

  lemma MoreChecked(crc: Checksum, file: Bytes, ps: seq<Piece>, p: Piece)
    requires AllChecked(crc, file, ps) && Checked(crc, file, p)
    ensures AllChecked(crc, file, ps + [p])
  {
    forall i: nat | i < |ps + [p]| ensures CheckedAt(crc, file, ps + [p], i) {
      if i < |ps| {
        assert CheckedAt(crc, file, ps, i);
      }
    }
  }

  lemma Single(crc: Checksum, file: Bytes, p: Piece)
    requires Checked(crc, file, p)
    ensures Payloads([p]) == p.payload
    ensures p.t == FIRST_TYPE ==> Opening(crc, file, [p])
    ensures p.t == FULL_TYPE ==> IsRecord(crc, file, [p], p.payload)
  {
    assert [p][..0] == [];
  }

  /** Where the reader stands: inside a record, whose pieces so far are `ps`, or between records. */
  ghost predicate Inside(crc: Checksum, file: Bytes, from: nat, pos: nat, inFragmented: bool, scratch: Bytes,
                         ps: seq<Piece>) {
    from <= pos && (inFragmented ==> Opening(crc, file, ps) && scratch == Payloads(ps) && from <= ps[0].at
                                     && Past(ps[|ps| - 1]) == pos)
  }

  /** The pieces of the record that is returned next. */
  lemma {:induction false} RecordChecked(crc: Checksum, file: Bytes, from: nat, pos: nat, inFragmented: bool,
                                         scratch: Bytes, ps: seq<Piece>)
    returns (qs: seq<Piece>)
    requires pos <= |file| && Inside(crc, file, from, pos, inFragmented, scratch, ps)
    ensures var r := ReadRecord(crc, file, pos, inFragmented, scratch);
            r.Record? ==> IsRecord(crc, file, qs, r.data) && from <= qs[0].at && Past(qs[|qs| - 1]) == r.next
    decreases |file| - pos
  {
    var found := ReadPhysical(crc, file, pos);
    qs := [];
    if !IsPiece(found.t) {
      if found.t != EOF {
        var turn := TurnOn(found.t, found.payload, inFragmented, scratch);
        qs := RecordChecked(crc, file, from, found.next, false, turn.scratch, []);
      }
      return;
    }
    var p := PhysicalChecked(crc, file, pos);
    Single(crc, file, p);
    if inFragmented {
      Extends(crc, file, ps, p);
    }
    if p.t == FULL_TYPE {
      qs := [p];
    } else if p.t == FIRST_TYPE {
      qs := RecordChecked(crc, file, from, found.next, true, p.payload, [p]);
    } else if !inFragmented {
      qs := RecordChecked(crc, file, from, found.next, false, scratch, []);
    } else if p.t == MIDDLE_TYPE {
      qs := RecordChecked(crc, file, from, found.next, true, scratch + p.payload, ps + [p]);
    } else {
      qs := ps + [p];
    }
  }

  /** Whatever a file holds, each record read from it is put together from pieces that lie in it, one after the other,
      each under the masked checksum of its own type and payload; and the records lie in order. */
  lemma {:induction false} ReadsChecked(crc: Checksum, file: Bytes, pos: nat)
    requires pos <= |file|
    ensures RecordsIn(crc, file, pos, ReadAll(crc, file, pos).0)
    decreases |file| - pos
  {
    var ps := RecordChecked(crc, file, pos, pos, false, [], []);
    var r := ReadRecord(crc, file, pos, false, []);
    if r.Record? {
      ReadsChecked(crc, file, r.next);
      var records := ReadAll(crc, file, pos).0;
      assert records[0] == r.data && records[1..] == ReadAll(crc, file, r.next).0;
      assert IsRecord(crc, file, ps, records[0]);
    }
  }

  // ---- One damaged record in a written log ----

  /** A header of the record that AddRecord writes at `pos` is at `p`. */
  ghost predicate HeaderAt(pos: nat, data: Bytes, begin: bool, p: nat)
    decreases |data|, Rank(pos)
  {
    var left := BLOCK - pos % BLOCK;
    RankOf(pos);
    if left < HEADER then HeaderAt(pos + left, data, begin, p)
    else p == pos || (|data| > left - HEADER && HeaderAt(pos + left, data[left - HEADER..], false, p))
  }

  /** At `p` is a header whose checksum is not that of its type and payload. */
  ghost predicate Damaged(crc: Checksum, file: Bytes, p: nat) {
    && p + HEADER <= |file|
    && var length := file[p + 4] as int + 256 * (file[p + 5] as int);
       && p + HEADER + length <= BlockEnd(file, p) <= |file| && !(file[p + 6] == ZERO_TYPE && length == 0)
       && crc(file[p + 6..p + HEADER + length]) != Unmask(DecodeFixed32(file[p..p + 4]))
  }

  /** It is reported, and the rest of its block dropped. */
  lemma DamagedIsBad(crc: Checksum, file: Bytes, p: nat)
    requires Damaged(crc, file, p)
    ensures p < BlockEnd(file, p) <= |file|
            && ReadPhysical(crc, file, p) == Found(BAD_RECORD, [], BlockEnd(file, p), 1)
  {
    var end := BlockEnd(file, p);
    var buffer := file[p..end];
    var length := file[p + 4] as int + 256 * (file[p + 5] as int);
    assert buffer[4] == file[p + 4] && buffer[5] == file[p + 5] && buffer[6] == file[p + 6];
    SliceIn(file, p, end, 0, 4);
    SliceIn(file, p, end, 6, HEADER + length);
  }

  /** Reading reaches the damage, reports it, and goes on behind the block with no record begun. */
  lemma {:induction false} ReachesDamage(crc: Checksum, file: Bytes, pos: nat, data: Bytes, begin: bool,
                                         scratch: Bytes, p: nat) returns (n: nat)
    requires (begin ==> scratch == []) && HeaderAt(pos, data, begin, p) && Damaged(crc, file, p)
    requires Fronts(file, pos, p, Emit(crc, pos, data, begin))
    ensures n > 0 && BlockEnd(file, p) <= |file|
            && ReadRecord(crc, file, pos, !begin, scratch) ==
               Reported(ReadRecord(crc, file, BlockEnd(file, p), false, []), n)
    decreases |data|, Rank(pos)
  {
    var left := BLOCK - pos % BLOCK;
    if left >= HEADER && p == pos {
      DamagedIsBad(crc, file, p);
      n := if begin then 1 else 2;
    } else {
      var part := ReadsBefore(crc, file, pos, data, begin, scratch, p);
      n := ReachesDamage(crc, file, pos + left, part.data, part.begin, part.scratch, p);
    }
  }

  /** The fragment in the block at `pos`, when the damage is behind it. */
  lemma ReadsBefore(crc: Checksum, file: Bytes, pos: nat, data: Bytes, begin: bool, scratch: Bytes, p: nat)
    returns (part: Part)
    requires (begin ==> scratch == []) && HeaderAt(pos, data, begin, p)
             && Fronts(file, pos, p, Emit(crc, pos, data, begin))
    requires BLOCK - pos % BLOCK < HEADER || p != pos
    ensures var next := pos + (BLOCK - pos % BLOCK);
            && (part.begin ==> part.scratch == []) && HeaderAt(next, part.data, part.begin, p)
            && Fronts(file, next, p, Emit(crc, next, part.data, part.begin))
            && (|part.data| < |data| || (|part.data| == |data| && Rank(next) < Rank(pos)))
            && ReadRecord(crc, file, pos, !begin, scratch) ==
               ReadRecord(crc, file, next, !part.begin, part.scratch)
  {
    HeaderBehind(pos, data, begin, p);
    part := FirstPart(crc, pos, data, begin, scratch);
    PartOf(crc, pos, data, begin, scratch);
    FrontsSplit(file, pos, p, part.bytes, Emit(crc, pos + (BLOCK - pos % BLOCK), part.data, part.begin));
    ReadsPart(crc, file, pos, data, begin, scratch);
  }

  /** The file has the front of the bytes from `pos` to `p`. */
  ghost predicate Fronts(file: Bytes, pos: nat, p: nat, e: Bytes) {
    pos <= p <= |file| && p - pos <= |e| && file[pos..p] == e[..p - pos]
  }

  lemma FrontsSplit(file: Bytes, pos: nat, p: nat, a: Bytes, b: Bytes)
    requires Fronts(file, pos, p, a + b) && pos + |a| <= p
    ensures Lies(file, pos, a) && Fronts(file, pos + |a|, p, b)
  {
    var s := file[pos..p];
    assert s[..|a|] == a && s[|a|..] == b[..p - pos - |a|];
    assert s[..|a|] == file[pos..pos + |a|] && s[|a|..] == file[pos + |a|..p];
  }

  lemma {:induction false} HeaderBehind(pos: nat, data: Bytes, begin: bool, p: nat)
    requires HeaderAt(pos, data, begin, p)
    ensures var left := BLOCK - pos % BLOCK;
            && pos <= p && (left < HEADER || p != pos ==> pos + left <= p)
            && (left >= HEADER && p != pos ==> !LastFragment(pos, data))
    decreases |data|, Rank(pos)
  {
    var left := BLOCK - pos % BLOCK;
    RankOf(pos);
    if left < HEADER {
      HeaderBehind(pos + left, data, begin, p);
    } else if p != pos {
      HeaderBehind(pos + left, data[left - HEADER..], false, p);
    }
  }

  /** What is left of a record at the start of a block inside it; `begin'` when the block before held only padding. */
  lemma {:induction false} SplitAtBlock(crc: Checksum, pos: nat, data: Bytes, begin: bool, at: nat)
    returns (front: Bytes, data': Bytes, begin': bool)
    requires pos < at < pos + |Emit(crc, pos, data, begin)| && at % BLOCK == 0
    ensures Emit(crc, pos, data, begin) == front + Emit(crc, at, data', begin') && |front| == at - pos
    ensures begin' ==> begin && data' == data && BLOCK - pos % BLOCK < HEADER && at == pos + (BLOCK - pos % BLOCK)
    ensures begin && !begin' ==> pos + HEADER <= at
    decreases |data|, Rank(pos)
  {
    BlockInside(pos, at);
    NotLast(crc, pos, data, begin, at);
    var next, bytes;
    bytes, data', begin', next := SplitOne(crc, pos, data, begin);
    front := bytes;
    if at != next {
      front, data', begin' := SplitAtBlock(crc, next, data', begin', at);
      assert bytes + (front + Emit(crc, at, data', begin')) == bytes + front + Emit(crc, at, data', begin');
      front := bytes + front;
    }
  }

  /** What a record leaves for the next block. */
  lemma SplitOne(crc: Checksum, pos: nat, data: Bytes, begin: bool)
    returns (bytes: Bytes, data': Bytes, begin': bool, next: nat)
    requires !LastFragment(pos, data)
    ensures next == pos + |bytes| == pos + (BLOCK - pos % BLOCK)
    ensures Emit(crc, pos, data, begin) == bytes + Emit(crc, next, data', begin')
    ensures |data'| < |data| || (|data'| == |data| && Rank(next) < Rank(pos))
    ensures if BLOCK - pos % BLOCK < HEADER then data' == data && begin' == begin else !begin'
  {
    var part := FirstPart(crc, pos, data, begin, []);
    PartOf(crc, pos, data, begin, []);
    bytes, data', begin', next := part.bytes, part.data, part.begin, pos + (BLOCK - pos % BLOCK);
  }

  lemma NotLast(crc: Checksum, pos: nat, data: Bytes, begin: bool, at: nat)
    requires pos + (BLOCK - pos % BLOCK) <= at < pos + |Emit(crc, pos, data, begin)|
    ensures !LastFragment(pos, data)
  {
  }

  /** The next start of a block is at the end of this one or later. */
  lemma BlockInside(pos: nat, at: nat)
    requires pos < at && at % BLOCK == 0
    ensures pos + (BLOCK - pos % BLOCK) <= at
  {
  }

  lemma ReportedTwice(r: Read, a: nat, b: nat)
    ensures Reported(Reported(r, a), b) == Reported(r, a + b)
  {
  }

  /** Fragments whose start is lost are reported and skipped. */
  lemma {:induction false} SkipsRest(crc: Checksum, file: Bytes, pos: nat, data: Bytes) returns (n: nat)
    requires Lies(file, pos, Emit(crc, pos, data, false))
    ensures ReadRecord(crc, file, pos, false, []) ==
            Reported(ReadRecord(crc, file, pos + |Emit(crc, pos, data, false)|, false, []), n)
    decreases |data|, Rank(pos)
  {
    if LastFragment(pos, data) {
      SkipsLast(crc, file, pos, data);
      n := 1;
    } else {
      var next, data', k := SkipsOne(crc, file, pos, data);
      n := SkipsRest(crc, file, next, data');
      ReportedTwice(ReadRecord(crc, file, pos + |Emit(crc, pos, data, false)|, false, []), n, k);
      n := n + k;
    }
  }

  lemma SkipsOne(crc: Checksum, file: Bytes, pos: nat, data: Bytes) returns (next: nat, data': Bytes, k: nat)
    requires !LastFragment(pos, data) && Lies(file, pos, Emit(crc, pos, data, false))
    ensures next <= |file| && Lies(file, next, Emit(crc, next, data', false))
            && pos + |Emit(crc, pos, data, false)| == next + |Emit(crc, next, data', false)|
    ensures |data'| < |data| || (|data'| == |data| && Rank(next) < Rank(pos))
    ensures ReadRecord(crc, file, pos, false, []) == Reported(ReadRecord(crc, file, next, false, []), k)
  {
    var part := FirstPart(crc, pos, data, false, []);
    PartOf(crc, pos, data, false, []);
    next, data' := pos + (BLOCK - pos % BLOCK), part.data;
    SliceOf(file, pos, part.bytes, Emit(crc, next, data', false));
    k := SkipsPart(crc, file, pos, data);
  }

  lemma SkipsLast(crc: Checksum, file: Bytes, pos: nat, data: Bytes)
    requires LastFragment(pos, data) && Lies(file, pos, Emit(crc, pos, data, false))
    ensures ReadRecord(crc, file, pos, false, []) ==
            Reported(ReadRecord(crc, file, pos + |Emit(crc, pos, data, false)|, false, []), 1)
  {
    ReadsPhysical(crc, file, pos, LAST_TYPE, data);
  }

  lemma SkipsPart(crc: Checksum, file: Bytes, pos: nat, data: Bytes) returns (k: nat)
    requires !LastFragment(pos, data) && Lies(file, pos, FirstPart(crc, pos, data, false, []).bytes)
    ensures ReadRecord(crc, file, pos, false, []) ==
            Reported(ReadRecord(crc, file, pos + (BLOCK - pos % BLOCK), false, []), k)
  {
    var left := BLOCK - pos % BLOCK;
    if left < HEADER {
      GoesToNextBlock(crc, file, pos, false, []);
      k := 0;
    } else {
      SkipsMiddle(crc, file, pos, data[..left - HEADER]);
      k := 1;
    }
  }

  lemma SkipsMiddle(crc: Checksum, file: Bytes, pos: nat, head: Bytes)
    requires HEADER + |head| == BLOCK - pos % BLOCK && Lies(file, pos, Physical(crc, MIDDLE_TYPE, head))
    ensures ReadRecord(crc, file, pos, false, []) ==
            Reported(ReadRecord(crc, file, pos + (BLOCK - pos % BLOCK), false, []), 1)
  {
    ReadsPhysical(crc, file, pos, MIDDLE_TYPE, head);
  }

  /** Where record `m` of a log starts. */
  function StartOf(crc: Checksum, records: seq<Bytes>, m: nat): nat
    requires m <= |records|
  {
    |WriteAll(crc, records[..m])|
  }

  lemma RecordLies(crc: Checksum, records: seq<Bytes>, file: Bytes, m: nat, from: nat)
    requires m < |records| && |file| == |WriteAll(crc, records)| && from <= StartOf(crc, records, m) <= |file|
             && file[from..] == WriteAll(crc, records)[from..]
    ensures var e := Emit(crc, StartOf(crc, records, m), records[m], true);
            && Lies(file, StartOf(crc, records, m), e)
            && StartOf(crc, records, m + 1) == StartOf(crc, records, m) + |e| <= |file|
  {
    var whole := WriteAll(crc, records);
    WrittenPrefix(crc, records, m + 1);
    var f, e := WrittenSplit(crc, whole, records, m + 1);
    TailsAgree(file, whole, from, |f|, |f| + |e|);
  }

  lemma TailsAgree(a: Bytes, b: Bytes, from: nat, i: nat, j: nat)
    requires |a| == |b| && from <= i <= j <= |a| && a[from..] == b[from..]
    ensures a[i..j] == b[i..j]
  {
    SliceIn(a, from, |a|, i - from, j - from);
    SliceIn(b, from, |b|, i - from, j - from);
    assert a[from..|a|] == a[from..] && b[from..|b|] == b[from..];
  }

  /** Behind the damage the records are read as they were written. */
  lemma {:induction false} SuffixReads(crc: Checksum, records: seq<Bytes>, file: Bytes, m: nat, from: nat)
    requires m <= |records| && |file| == |WriteAll(crc, records)| && from <= StartOf(crc, records, m) <= |file|
             && file[from..] == WriteAll(crc, records)[from..]
    ensures ReadAll(crc, file, StartOf(crc, records, m)) == (records[m..], 0)
    decreases |records| - m
  {
    if m == |records| {
      assert records[..m] == records && records[m..] == [];
      AtEnd(crc, file);
    } else {
      RecordLies(crc, records, file, m, from);
      SuffixReads(crc, records, file, m + 1, from);
      ReadsNext(crc, file, StartOf(crc, records, m), records[m]);
      assert records[m..] == [records[m]] + records[m + 1..];
    }
  }

  lemma ReadAllOn(crc: Checksum, file: Bytes, pos: nat, at: nat, n: nat)
    requires pos <= |file| && at <= |file|
    requires ReadRecord(crc, file, pos, false, []) == Reported(ReadRecord(crc, file, at, false, []), n)
    ensures ReadAll(crc, file, pos) == (ReadAll(crc, file, at).0, ReadAll(crc, file, at).1 + n)
  {
  }

  lemma NextStart(crc: Checksum, records: seq<Bytes>, j: nat)
    requires 0 < j <= |records|
    ensures StartOf(crc, records, j - 1) + HEADER <= StartOf(crc, records, j)
  {
    WrittenPrefix(crc, records, j);
    var f, e := WrittenSplit(crc, WriteAll(crc, records), records, j);
    EmitLength(crc, |f|, records[j - 1], true);
  }

  lemma {:induction false} StartsRise(crc: Checksum, records: seq<Bytes>, i: nat, j: nat)
    requires i < j <= |records|
    ensures StartOf(crc, records, i) + HEADER <= StartOf(crc, records, j)
    decreases j
  {
    NextStart(crc, records, j);
    if i < j - 1 {
      StartsRise(crc, records, i, j - 1);
    }
  }

  lemma {:induction false} EmitLength(crc: Checksum, pos: nat, data: Bytes, begin: bool)
    ensures |Emit(crc, pos, data, begin)| >= HEADER + |data|
    decreases |data|, Rank(pos)
  {
    if !LastFragment(pos, data) {
      var part := FirstPart(crc, pos, data, begin, []);
      var next := pos + (BLOCK - pos % BLOCK);
      EmitRest(crc, pos, data, begin);
      EmitLength(crc, next, part.data, part.begin);
    }
  }

  lemma EmitRest(crc: Checksum, pos: nat, data: Bytes, begin: bool)
    requires !LastFragment(pos, data)
    ensures var part, next := FirstPart(crc, pos, data, begin, []), pos + (BLOCK - pos % BLOCK);
            && |Emit(crc, pos, data, begin)| == |part.bytes| + |Emit(crc, next, part.data, part.begin)|
            && |part.bytes| + |part.data| >= |data|
            && (|part.data| < |data| || (|part.data| == |data| && Rank(next) < Rank(pos)))
  {
    RankOf(pos);
  }

  lemma {:induction false} HeaderInside(crc: Checksum, pos: nat, data: Bytes, begin: bool, p: nat)
    requires HeaderAt(pos, data, begin, p)
    ensures pos <= p && p + HEADER <= pos + |Emit(crc, pos, data, begin)|
    decreases |data|, Rank(pos)
  {
    HeaderBehind(pos, data, begin, p);
    if BLOCK - pos % BLOCK >= HEADER && p == pos {
      EmitLength(crc, pos, data, begin);
    } else {
      var part := FirstPart(crc, pos, data, begin, []);
      EmitRest(crc, pos, data, begin);
      HeaderInside(crc, pos + (BLOCK - pos % BLOCK), part.data, part.begin, p);
    }
  }

  /** The first record whose first header is not before `at`. */
  ghost predicate FirstFrom(crc: Checksum, records: seq<Bytes>, at: nat, m: nat) {
    m <= |records| && forall i: nat | i < |records| :: i >= m <==> StartOf(crc, records, i) + HEADER > at
  }

  lemma LaterThan(crc: Checksum, records: seq<Bytes>, at: nat, m: nat, k: nat)
    requires FirstFrom(crc, records, at, m) && k < |records| && StartOf(crc, records, k) + HEADER <= at
    ensures k < m
  {
  }

  lemma IsFirstFrom(crc: Checksum, records: seq<Bytes>, at: nat, m: nat)
    requires m <= |records| && (m < |records| ==> StartOf(crc, records, m) + HEADER > at)
             && (m > 0 ==> StartOf(crc, records, m - 1) + HEADER <= at)
    ensures FirstFrom(crc, records, at, m)
  {
    forall i: nat | i < |records| ensures i >= m <==> StartOf(crc, records, i) + HEADER > at {
      if i > m {
        StartsRise(crc, records, m, i);
      } else if i < m - 1 {
        StartsRise(crc, records, i, m - 1);
      }
    }
  }

  /** Reading on from the start of a block, or the end, gives the records whose first header is there or behind. */
  lemma Resumes(crc: Checksum, records: seq<Bytes>, file: Bytes, at: nat) returns (m: nat, n: nat)
    requires |file| == |WriteAll(crc, records)| && at <= |file| && file[at..] == WriteAll(crc, records)[at..]
    requires at == |file| || at % BLOCK == 0
    ensures FirstFrom(crc, records, at, m) && ReadAll(crc, file, at) == (records[m..], n)
  {
    var j := RecordAround(crc, records, at);
    if j > 0 {
      StartsRise(crc, records, j - 1, j);
    }
    if j == |records| || StartOf(crc, records, j) == at {
      m, n := j, 0;
      SuffixFrom(crc, records, file, j, at);
    } else {
      m, n := ResumesInside(crc, records, file, at, j);
    }
    IsFirstFrom(crc, records, at, m);
  }

  /** The record that byte `at` is in. */
  lemma RecordAround(crc: Checksum, records: seq<Bytes>, at: nat) returns (j: nat)
    requires at <= |WriteAll(crc, records)|
    ensures j <= |records| && StartOf(crc, records, j) <= at
            && if j < |records| then at < StartOf(crc, records, j + 1) <= |WriteAll(crc, records)|
               else StartOf(crc, records, j) == at == |WriteAll(crc, records)|
  {
    j := WholeRecords(crc, records, at);
    WholeRecordsAre(crc, records, at);
    assert records[..|records|] == records;
    if j < |records| {
      WrittenPrefix(crc, records, j + 1);
    }
  }

  lemma SuffixFrom(crc: Checksum, records: seq<Bytes>, file: Bytes, m: nat, at: nat)
    requires m <= |records| && |file| == |WriteAll(crc, records)| && at <= |file| && StartOf(crc, records, m) == at
             && file[at..] == WriteAll(crc, records)[at..]
    ensures ReadAll(crc, file, at) == (records[m..], 0)
  {
    SuffixReads(crc, records, file, m, at);
  }

  /** What record `j` has from the block on that starts inside it. */
  lemma InsideSplit(crc: Checksum, records: seq<Bytes>, file: Bytes, at: nat, j: nat)
    returns (data': Bytes, begin': bool)
    requires |file| == |WriteAll(crc, records)| && at <= |file| && file[at..] == WriteAll(crc, records)[at..]
    requires j < |records| && StartOf(crc, records, j) < at < StartOf(crc, records, j + 1) && at % BLOCK == 0
    ensures Lies(file, at, Emit(crc, at, data', begin'))
            && at + |Emit(crc, at, data', begin')| == StartOf(crc, records, j + 1)
    ensures if begin' then data' == records[j] && StartOf(crc, records, j) + HEADER > at
            else StartOf(crc, records, j) + HEADER <= at
  {
    var whole, pos := WriteAll(crc, records), StartOf(crc, records, j);
    WrittenPrefix(crc, records, j);
    RecordLies(crc, records, whole, j, 0);
    var front;
    front, data', begin' := SplitAtBlock(crc, pos, records[j], true, at);
    var rest := Emit(crc, at, data', begin');
    SliceOf(whole, pos, front, rest);
    TailsAgree(file, whole, at, at, at + |rest|);
  }

  lemma ResumesInside(crc: Checksum, records: seq<Bytes>, file: Bytes, at: nat, j: nat) returns (m: nat, n: nat)
    requires |file| == |WriteAll(crc, records)| && at <= |file| && file[at..] == WriteAll(crc, records)[at..]
    requires j < |records| && StartOf(crc, records, j) < at < StartOf(crc, records, j + 1) && at % BLOCK == 0
    ensures m == if StartOf(crc, records, j) + HEADER > at then j else j + 1
    ensures ReadAll(crc, file, at) == (records[m..], n)
  {
    var data', begin' := InsideSplit(crc, records, file, at, j);
    SuffixReads(crc, records, file, j + 1, at);
    m := if begin' then j else j + 1;
    n := ReadsRest(crc, records, file, at, j, data', begin', StartOf(crc, records, j + 1));
  }

  lemma ReadsRest(crc: Checksum, records: seq<Bytes>, file: Bytes, at: nat, j: nat, data': Bytes, begin': bool,
                  end: nat) returns (n: nat)
    requires j < |records| && Lies(file, at, Emit(crc, at, data', begin')) && (begin' ==> data' == records[j])
    requires end == at + |Emit(crc, at, data', begin')| && ReadAll(crc, file, end) == (records[j + 1..], 0)
    ensures ReadAll(crc, file, at) == (records[if begin' then j else j + 1..], n)
  {
    if begin' {
      ReadsNext(crc, file, at, records[j]);
      assert records[j..] == [records[j]] + records[j + 1..];
      n := 0;
    } else {
      n := SkipsRest(crc, file, at, data');
      ReadAllOn(crc, file, at, end, n);
    }
  }

  /** A log in which one header no longer has the checksum of its record, and which is otherwise changed only in the
      rest of that block, if at all: the records before are read, the damaged one and those that start in the rest of
      its block are not, all later ones are, and the damage is reported. */
  lemma DamageCostsItsBlock(crc: Checksum, records: seq<Bytes>, file: Bytes, k: nat, p: nat)
    returns (m: nat, n: nat)
    requires k < |records| && HeaderAt(StartOf(crc, records, k), records[k], true, p)
    requires |file| == |WriteAll(crc, records)| && p <= |file| && file[..p] == WriteAll(crc, records)[..p]
    requires Damaged(crc, file, p) && file[BlockEnd(file, p)..] == WriteAll(crc, records)[BlockEnd(file, p)..]
    ensures k < m && FirstFrom(crc, records, BlockEnd(file, p), m)
    ensures n > 0 && ReadAll(crc, file, 0) == (records[..k] + records[m..], n)
  {
    var pos, at := StartOf(crc, records, k), BlockEnd(file, p);
    DamageInBlock(crc, file, pos, records[k], p);
    var n1 := ReadsToDamage(crc, records, file, k, p);
    m, n := ReadsBehind(crc, records, file, k, pos, at, n1);
  }

  lemma ReadsBehind(crc: Checksum, records: seq<Bytes>, file: Bytes, k: nat, pos: nat, at: nat, n1: nat)
    returns (m: nat, n: nat)
    requires k < |records| && pos == StartOf(crc, records, k) && pos + HEADER <= at <= |file|
    requires |file| == |WriteAll(crc, records)| && file[at..] == WriteAll(crc, records)[at..]
    requires (at == |file| || at % BLOCK == 0) && ReadsTo(crc, file, records, k, pos)
    requires ReadRecord(crc, file, pos, false, []) == Reported(ReadRecord(crc, file, at, false, []), n1)
    ensures k < m && FirstFrom(crc, records, at, m) && n >= n1
    ensures ReadAll(crc, file, 0) == (records[..k] + records[m..], n)
  {
    var n2;
    m, n2 := Resumes(crc, records, file, at);
    LaterThan(crc, records, at, m, k);
    n := n1 + n2;
    ReadAllOn(crc, file, pos, at, n1);
    Joined(crc, records, file, k, pos, records[m..], n);
  }

  lemma Joined(crc: Checksum, records: seq<Bytes>, file: Bytes, k: nat, pos: nat, rest: seq<Bytes>, more: nat)
    requires k <= |records| && pos <= |file| && ReadsTo(crc, file, records, k, pos)
    requires ReadAll(crc, file, pos) == (rest, more)
    ensures ReadAll(crc, file, 0) == (records[..k] + rest, more)
  {
  }

  lemma DamageInBlock(crc: Checksum, file: Bytes, pos: nat, data: Bytes, p: nat)
    requires HeaderAt(pos, data, true, p) && Damaged(crc, file, p)
    ensures var at := BlockEnd(file, p); pos + HEADER <= at <= |file| && (at == |file| || at % BLOCK == 0)
  {
    BlockEnds(file, p);
    HeaderBehind(pos, data, true, p);
  }

  lemma FrontsAgree(file: Bytes, whole: Bytes, f: Bytes, e: Bytes, p: nat)
    requires |file| == |whole| && p <= |file| && file[..p] == whole[..p] && f <= whole && Lies(whole, |f|, e)
             && |f| <= p <= |f| + |e|
    ensures f <= file && Fronts(file, |f|, p, e)
  {
    assert file[..|f|] == file[..p][..|f|] && whole[..|f|] == whole[..p][..|f|];
    assert file[|f|..p] == file[..p][|f|..] && whole[|f|..p] == whole[..p][|f|..];
    assert whole[|f|..p] == whole[|f|..|f| + |e|][..p - |f|];
  }

  lemma ReadsToDamage(crc: Checksum, records: seq<Bytes>, file: Bytes, k: nat, p: nat) returns (n: nat)
    requires k < |records| && HeaderAt(StartOf(crc, records, k), records[k], true, p)
    requires |file| == |WriteAll(crc, records)| && p <= |file| && file[..p] == WriteAll(crc, records)[..p]
    requires Damaged(crc, file, p)
    ensures StartOf(crc, records, k) <= |file|
            && ReadsTo(crc, file, records, k, StartOf(crc, records, k)) && n > 0
            && ReadRecord(crc, file, StartOf(crc, records, k), false, []) ==
               Reported(ReadRecord(crc, file, BlockEnd(file, p), false, []), n)
  {
    var whole, pos := WriteAll(crc, records), StartOf(crc, records, k);
    WrittenPrefix(crc, records, k + 1);
    WrittenPrefix(crc, records, k);
    var f, e := WrittenSplit(crc, whole, records, k + 1);
    assert records[..k + 1][..k] == records[..k];
    HeaderInside(crc, pos, records[k], true, p);
    FrontsAgree(file, whole, f, e, p);
    ReadAllAppend(crc, file, records, k);
    n := ReachesDamage(crc, file, pos, records[k], true, [], p);
  }

  // ---- Other damage, between records ----

  /** A length that runs over the end of a whole block is reported, and the rest of the block dropped. */
  lemma BadLengthReported(crc: Checksum, file: Bytes, p: nat)
    requires p + HEADER <= BlockEnd(file, p) <= |file| && p - p % BLOCK + BLOCK <= |file|
    requires p + HEADER + file[p + 4] as int + 256 * (file[p + 5] as int) > BlockEnd(file, p)
    ensures var (rest, more) := ReadAll(crc, file, BlockEnd(file, p)); ReadAll(crc, file, p) == (rest, more + 1)
  {
    var end := BlockEnd(file, p);
    var buffer := file[p..end];
    assert buffer[4] == file[p + 4] && buffer[5] == file[p + 5];
    assert ReadPhysical(crc, file, p) == Found(BAD_RECORD, [], end, 1);
    ReadAllOn(crc, file, p, end, 1);
  }

  /** A checked piece is what the physical reader returns. */
  lemma PieceRead(crc: Checksum, file: Bytes, p: Piece)
    requires Checked(crc, file, p) && p.t != ZERO_TYPE
    ensures ReadPhysical(crc, file, p.at) == Found(p.t, p.payload, Past(p), 0)
  {
    var n := |p.payload|;
    var word, head := Fixed32(Mask(crc([p.t] + p.payload))), [n % 256, n / 256, p.t];
    var s := file[p.at..Past(p)];
    SliceIn(file, p.at, Past(p), 0, 4);
    SliceIn(file, p.at, Past(p), 4, HEADER);
    SliceIn(file, p.at, Past(p), HEADER, HEADER + n);
    Joins(s, word, head, p.payload);
    ReadsPhysical(crc, file, p.at, p.t, p.payload);
  }

  lemma Joins(s: Bytes, a: Bytes, b: Bytes, c: Bytes)
    requires |a| == 4 && |b| == 3 && |s| == 7 + |c| && s[0..4] == a && s[4..7] == b && s[7..7 + |c|] == c
    ensures s == a + b + c
  {
    assert s == s[0..4] + s[4..7] + s[7..7 + |c|];
  }

  /** A record of a type the reader does not know is reported and skipped. */
  lemma UnknownTypeReported(crc: Checksum, file: Bytes, p: Piece)
    requires Checked(crc, file, p) && p.t > BAD_RECORD
    ensures var (rest, more) := ReadAll(crc, file, Past(p)); ReadAll(crc, file, p.at) == (rest, more + 1)
  {
    PieceRead(crc, file, p);
    ReadAllOn(crc, file, p.at, Past(p), 1);
  }

  /** A record begun and never ended is reported and lost when the next one begins. */
  lemma UnendedReported(crc: Checksum, file: Bytes, p: Piece, q: Piece)
    requires Checked(crc, file, p) && Checked(crc, file, q) && q.at == Past(p)
    requires p.t == FIRST_TYPE && p.payload != [] && q.t == FULL_TYPE
    ensures var (rest, more) := ReadAll(crc, file, Past(q)); ReadAll(crc, file, p.at) == ([q.payload] + rest, more + 1)
  {
    PieceRead(crc, file, p);
    PieceRead(crc, file, q);
    assert ReadRecord(crc, file, q.at, true, p.payload) == Record(q.payload, Past(q), 1);
    assert ReadRecord(crc, file, p.at, false, []) == Record(q.payload, Past(q), 1);
  }
}
