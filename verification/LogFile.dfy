/** The log writer and the log reader as they run (db/log_writer.cc, db/log_reader.cc). */
module LogFile {
  import opened DbFormat
  import opened Coding
  import opened LogFormat

  class LogWriter {
    const crc: Checksum
    var dest: Bytes
    var blockOffset: nat

    /** The offset is the file's length within its block, or a whole block not yet left. */
    ghost predicate Valid()
      reads this
    {
      InBlock(|dest|, blockOffset)
    }

    constructor (crc: Checksum, dest: Bytes)
      ensures Valid() && this.crc == crc && this.dest == dest
    {
      this.crc := crc;
      this.dest := dest;
      blockOffset := |dest| % BLOCK;
    }

    method EmitPhysicalRecord(t: Byte, payload: Bytes)
      requires Valid() && blockOffset + HEADER + |payload| <= BLOCK
      modifies this
      ensures Valid() && dest == old(dest) + Physical(crc, t, payload)
              && blockOffset == old(blockOffset) + HEADER + |payload|
    {
      var header := Fixed32(Mask(crc([t] + payload))) + [|payload| % 256, |payload| / 256, t];
      ghost var before := dest;
      dest := dest + header;
      dest := dest + payload;
      assert header + payload == Physical(crc, t, payload);
      assert before + header + payload == before + (header + payload);
      StaysInBlock(|before|, blockOffset, HEADER + |payload|);
      blockOffset := blockOffset + HEADER + |payload|;
    }

    /** Leave the block when no header fits. */
    method SkipTrailer(ghost data: Bytes, ghost begin: bool)
      requires Valid()
      modifies this
      ensures Valid() && blockOffset + HEADER <= BLOCK && (old(blockOffset) == BLOCK ==> blockOffset == 0)
      ensures Added(crc, old(dest), data, begin) == Added(crc, dest, data, begin)
    {
      var leftover := BLOCK - blockOffset;
      if leftover < HEADER {
        if leftover > 0 {
          AddedTrailer(crc, dest, data, begin);
          StaysInBlock(|dest|, blockOffset, leftover);
          dest := dest + Pad(leftover);
        }
        blockOffset := 0;
      }
    }

    /** One turn of the loop: the fragment that fits the block, and what it leaves. */
    method EmitFragment(left: Bytes, begin: bool) returns (rest: Bytes)
      requires Valid()
      modifies this
      ensures Valid() && Added(crc, old(dest), left, begin) ==
              if rest != [] then Added(crc, dest, rest, false) else dest
      ensures |rest| <= |left| && (rest != [] ==> blockOffset == BLOCK
                                                  && (old(blockOffset) == BLOCK ==> |rest| < |left|))
    {
      SkipTrailer(left, begin);
      var avail := BLOCK - blockOffset - HEADER;
      var length := if |left| < avail then |left| else avail;
      var end := |left| == length;
      AddedStep(crc, dest, left, begin);
      EmitPhysicalRecord(TypeOf(begin, end), left[..length]);
      rest := left[length..];
    }

    method AddRecord(slice: Bytes)
      requires Valid()
      modifies this
      ensures Valid() && dest == old(dest) + Emit(crc, |old(dest)|, slice, true)
    {
      ghost var goal := Added(crc, dest, slice, true);
      var left, begin, more := slice, true, true;
      while more
        invariant Valid() && (more && !begin ==> blockOffset == BLOCK && left != [])
        invariant goal == if more then Added(crc, dest, left, begin) else dest
        decreases more, |left|, begin
      {
        left := EmitFragment(left, begin);
        begin := false;
        more := |left| > 0;
      }
    }
  }

  predicate InBlock(n: nat, offset: nat) {
    if offset == BLOCK then n % BLOCK == 0 else offset == n % BLOCK
  }

  lemma StaysInBlock(n: nat, offset: nat, k: nat)
    requires InBlock(n, offset) && offset + k <= BLOCK
    ensures InBlock(n + k, offset + k) && (offset + k == BLOCK ==> InBlock(n + k, 0))
  {
  }

  /** The file once what is left of a record has been added. */
  function Added(crc: Checksum, dest: Bytes, left: Bytes, begin: bool): Bytes {
    dest + Emit(crc, |dest|, left, begin)
  }

  lemma AddedTrailer(crc: Checksum, dest: Bytes, left: Bytes, begin: bool)
    requires |dest| % BLOCK + HEADER > BLOCK
    ensures Added(crc, dest, left, begin) == Added(crc, dest + Pad(BLOCK - |dest| % BLOCK), left, begin)
  {
    var pad := Pad(BLOCK - |dest| % BLOCK);
    Assoc(dest, pad, Emit(crc, |dest + pad|, left, begin));
  }

  lemma AddedStep(crc: Checksum, dest: Bytes, left: Bytes, begin: bool)
    requires |dest| % BLOCK + HEADER <= BLOCK
    ensures var avail := BLOCK - |dest| % BLOCK - HEADER;
            var length := if |left| < avail then |left| else avail;
            var first := dest + Physical(crc, TypeOf(begin, |left| == length), left[..length]);
            Added(crc, dest, left, begin) == if |left| > length then Added(crc, first, left[length..], false) else first
  {
    var avail := BLOCK - |dest| % BLOCK - HEADER;
    if |left| <= avail {
      assert left[..|left|] == left;
    } else {
      AddedFirst(crc, dest, left, begin);
    }
  }

  lemma AddedFirst(crc: Checksum, dest: Bytes, left: Bytes, begin: bool)
    requires |dest| % BLOCK + HEADER <= BLOCK && BLOCK - |dest| % BLOCK - HEADER < |left|
    ensures var avail := BLOCK - |dest| % BLOCK - HEADER;
            Added(crc, dest, left, begin) == Added(crc, dest + Physical(crc, TypeOf(begin, false), left[..avail]),
                left[avail..], false)
  {
    var avail := BLOCK - |dest| % BLOCK - HEADER;
    var p := Physical(crc, TypeOf(begin, false), left[..avail]);
    Assoc(dest, p, Emit(crc, |dest + p|, left[avail..], false));
  }

  class LogReader {
    const crc: Checksum
    const file: Bytes
    var at: nat           // where the file is read next
    var buffer: Bytes
    var eof: bool
    var reports: nat      // calls of the reporter

    ghost predicate Valid()
      reads this
    {
      Buffered(file, at, buffer, eof)
    }

    /** The position of the first byte not yet consumed. */
    ghost function Pos(): (p: nat)
      requires Valid()
      reads this
    {
      at - |buffer|
    }

    constructor (crc: Checksum, file: Bytes)
      ensures Valid() && this.crc == crc && this.file == file && Pos() == 0 && reports == 0
    {
      this.crc := crc;
      this.file := file;
      at, buffer, eof, reports := 0, [], false, 0;
      new;
      assert file[0..0] == [];
    }

    /** The next block, or what the file has left of it. */
    method ReadBlock()
      requires Valid() && !eof && |buffer| < HEADER
      modifies this
      ensures Valid() && Pos() == old(at) && reports == old(reports) && at == BlockEnd(file, old(at))
              && eof == !FullBlock(file, old(at))
    {
      buffer := file[at..BlockEnd(file, at)];
      at := at + |buffer|;
      if |buffer| < BLOCK {
        eof := true;
      }
    }

    /** Parse what is buffered: the record type, or one of the reader's own outcomes. */
    method ParseBuffer() returns (t: Byte, fragment: Bytes)
      requires Valid() && |buffer| >= HEADER
      modifies this
      ensures Valid() && at == old(at) && eof == old(eof) && old(reports) <= reports
      ensures Found(t, fragment, Pos(), reports - old(reports)) == Parse(crc, old(buffer), at, !eof)
    {
      fragment := [];
      var length := buffer[4] as int + 256 * (buffer[5] as int);
      t := buffer[6];
      if HEADER + length > |buffer| {
        buffer := [];
        if !eof {
          reports := reports + 1;
          return BAD_RECORD, fragment;
        }
        return EOF, fragment;
      }
      if t == ZERO_TYPE && length == 0 {
        buffer := [];
        return BAD_RECORD, fragment;
      }
      if crc(buffer[6..HEADER + length]) != Unmask(DecodeFixed32(buffer[..4])) {
        buffer := [];
        reports := reports + 1;
        return BAD_RECORD, fragment;
      }
      fragment := buffer[HEADER..HEADER + length];
      buffer := buffer[HEADER + length..];
    }

    /** Read on past trailers until a header is buffered; false when the file ends first. */
    method FillBuffer() returns (more: bool)
      requires Valid()
      modifies this
      ensures Valid() && reports == old(reports) && (more ==> |buffer| >= HEADER)
      ensures ReadPhysical(crc, file, old(Pos())) == if more then Parse(crc, buffer, at, !eof)
                                                                  else Found(EOF, [], at, 0)
    {
      ghost var goal := ReadPhysical(crc, file, Pos());
      while |buffer| < HEADER
        invariant Valid() && reports == old(reports) && ReadPhysical(crc, file, Pos()) == goal
        decreases !eof, |file| - at
      {
        FromBuffer(crc, file, at, buffer, eof);
        if eof {
          return false;
        }
        ReadBlock();
      }
      FromBuffer(crc, file, at, buffer, eof);
      return true;
    }

    method ReadPhysicalRecord() returns (t: Byte, fragment: Bytes)
      requires Valid()
      modifies this
      ensures Valid() && old(reports) <= reports
      ensures Found(t, fragment, Pos(), reports - old(reports)) == ReadPhysical(crc, file, old(Pos()))
    {
      var more := FillBuffer();
      if !more {
        buffer := [];
        return EOF, [];
      }
      t, fragment := ParseBuffer();
    }

    /** The switch on the record type. */
    method Take(t: Byte, fragment: Bytes, inFragmented: bool, scratch: Bytes) returns (turn: Turn)
      modifies this`reports
      ensures turn == TurnOn(t, fragment, inFragmented, scratch)
      ensures reports == old(reports) + match turn case Stop => 0 case Return(_, n) => n case Continue(_, _, n) => n
    {
      if t == FULL_TYPE || t == FIRST_TYPE {
        var lost := 0;
        if inFragmented && scratch != [] {
          reports := reports + 1;
          lost := 1;
        }
        return if t == FULL_TYPE then Return(fragment, lost) else Continue(true, fragment, lost);
      } else if t == EOF {
        return Stop;
      } else if inFragmented && t == MIDDLE_TYPE {
        return Continue(true, scratch + fragment, 0);
      } else if inFragmented && t == LAST_TYPE {
        return Return(scratch + fragment, 0);
      } else if !inFragmented && t == BAD_RECORD {
        return Continue(false, scratch, 0);
      } else {
        reports := reports + 1;
        return Continue(false, if t == MIDDLE_TYPE || t == LAST_TYPE then scratch else [], 1);
      }
    }

    /** The next record, or none at the end of the file. */
    method NextRecord() returns (ok: bool, record: Bytes)
      requires Valid()
      modifies this
      ensures Valid() && old(reports) <= reports
      ensures ReadRecord(crc, file, old(Pos()), false, []) ==
              if ok then Record(record, Pos(), reports - old(reports)) else End(reports - old(reports))
    {
      ghost var goal := ReadRecord(crc, file, Pos(), false, []);
      var scratch: Bytes, inFragmented := [], false;
      while true
        invariant Valid() && old(reports) <= reports
        invariant goal == Reported(ReadRecord(crc, file, Pos(), inFragmented, scratch), reports - old(reports))
        decreases |file| - Pos()
      {
        ghost var pos, was := Pos(), reports;
        var t, fragment := ReadPhysicalRecord();
        TurnsOn(crc, file, pos, inFragmented, scratch, Found(t, fragment, Pos(), reports - was));
        var turn := Take(t, fragment, inFragmented, scratch);
        match turn
        case Stop => return false, [];
        case Return(r, _) => return true, r;
        case Continue(i, s, _) => inFragmented, scratch := i, s;
      }
    }
  }

  /** One turn of the reader's loop. */
  lemma TurnsOn(crc: Checksum, file: Bytes, pos: nat, inFragmented: bool, scratch: Bytes, found: Found)
    requires pos <= |file| && ReadPhysical(crc, file, pos) == found
    ensures ReadRecord(crc, file, pos, inFragmented, scratch) ==
            match TurnOn(found.t, found.payload, inFragmented, scratch)
            case Stop => End(found.reports)
            case Return(record, n) => Record(record, found.next, found.reports + n)
            case Continue(i, s, n) => Reported(ReadRecord(crc, file, found.next, i, s), found.reports + n)
  {
  }

  /** The buffer reaches to the end of its block, and the last read fell short exactly when that block is not full. */
  lemma EndOfBuffer(file: Bytes, at: nat, buffer: Bytes, eof: bool)
    requires Buffered(file, at, buffer, eof)
    ensures buffer != [] || eof ==> at == BlockEnd(file, at - |buffer|) && eof == !FullBlock(file, at - |buffer|)
  {
  }

  /** What the physical record at the buffer's front is read from. */
  lemma FromBuffer(crc: Checksum, file: Bytes, at: nat, buffer: Bytes, eof: bool)
    requires Buffered(file, at, buffer, eof)
    ensures ReadPhysical(crc, file, at - |buffer|) ==
            if |buffer| >= HEADER then Parse(crc, buffer, at, !eof)
            else if eof then Found(EOF, [], at, 0)
            else ReadPhysical(crc, file, at)
  {
    EndOfBuffer(file, at, buffer, eof);
  }

  predicate Buffered(file: Bytes, at: nat, buffer: Bytes, eof: bool) {
    && |buffer| <= at <= |file| && file[at - |buffer|..at] == buffer && |buffer| <= BLOCK
    && (if eof then at == |file| && |buffer| <= |file| % BLOCK else at % BLOCK == 0)
  }

  /** A log file made by adding the records one by one. */
  method WriteLog(crc: Checksum, records: seq<Bytes>) returns (file: Bytes)
    ensures file == WriteAll(crc, records)
  {
    var writer := new LogWriter(crc, []);
    assert records[..0] == [];
    for i := 0 to |records|
      invariant writer.Valid() && writer.crc == crc && writer.dest == WriteAll(crc, records[..i])
    {
      assert records[..i + 1][..i] == records[..i];
      writer.AddRecord(records[i]);
    }
    assert records[..|records|] == records;
    file := writer.dest;
  }

  /** One more record onto those read so far; when there is none, they are all there is. */
  method ReadOnto(reader: LogReader, records: seq<Bytes>) returns (ok: bool, r: seq<Bytes>)
    requires reader.Valid()
    modifies reader
    ensures reader.Valid() && (ok ==> old(reader.Pos()) < reader.Pos())
    ensures Onto(records, old(reader.reports), ReadAll(reader.crc, reader.file, old(reader.Pos()))) ==
            if ok then Onto(r, reader.reports, ReadAll(reader.crc, reader.file, reader.Pos())) else (r, reader.reports)
  {
    ghost var pos, was := reader.Pos(), reader.reports;
    var record;
    ok, record := reader.NextRecord();
    OntoNext(reader.crc, reader.file, pos, records, was, ok, record, reader.Pos(), reader.reports - was);
    r := if ok then records + [record] else records;
  }

  /** Every record a reader returns until the end of the file, and the corruptions it reports. */
  method ReadLog(crc: Checksum, file: Bytes) returns (records: seq<Bytes>, reports: nat)
    ensures (records, reports) == ReadAll(crc, file, 0)
  {
    var reader := new LogReader(crc, file);
    ghost var goal := ReadAll(crc, file, 0);
    records := [];
    OntoNothing(goal);
    var ok := true;
    while ok
      invariant reader.Valid() && reader.crc == crc && reader.file == file && fresh(reader)
      invariant goal == if ok then Onto(records, reader.reports, ReadAll(crc, file, reader.Pos()))
                                   else (records, reader.reports)
      decreases ok, |file| - reader.Pos()
    {
      ok, records := ReadOnto(reader, records);
    }
    reports := reader.reports;
  }

  function Onto(records: seq<Bytes>, reports: nat, more: (seq<Bytes>, nat)): (seq<Bytes>, nat) {
    (records + more.0, reports + more.1)
  }

  lemma OntoNothing(more: (seq<Bytes>, nat))
    ensures Onto([], 0, more) == more
  {
    assert [] + more.0 == more.0;
  }

  /** Reading one more record, or finding none, leaves what the whole read amounts to unchanged. */
  lemma OntoNext(crc: Checksum, file: Bytes, pos: nat, records: seq<Bytes>, reports: nat, ok: bool, record: Bytes,
                 next: nat, n: nat)
    requires pos <= |file| && next <= |file|
    requires ReadRecord(crc, file, pos, false, []) == if ok then Record(record, next, n) else End(n)
    ensures Onto(records, reports, ReadAll(crc, file, pos)) ==
            if ok then Onto(records + [record], reports + n, ReadAll(crc, file, next)) else (records, reports + n)
  {
    if ok {
      var rest := ReadAll(crc, file, next);
      assert records + ([record] + rest.0) == (records + [record]) + rest.0;
    } else {
      assert records + [] == records;
    }
  }
}
