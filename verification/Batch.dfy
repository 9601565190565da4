/** Write batches as bytes, as they are built, merged, logged and replayed (db/write_batch.cc, db/db_impl.cc:412-436).
    */
module Batch {
  import opened DbFormat
  import opened Coding
  import opened History
  import LogFormat
  import LogFile

  /** A call on the handler that walks a batch; keys are the bytes the client gave. */
  datatype Call = PutCall(key: Bytes, val: Bytes) | DeleteCall(key: Bytes)

  datatype Outcome = Fine | TooSmall | BadPut | BadDelete | UnknownTag | WrongCount

  const HEADER: nat := 12

  // ---- The bytes ----

  function CallBytes(c: Call): Bytes {
    match c
    case PutCall(key, val) => [1] + (Prefixed(key) + Prefixed(val))
    case DeleteCall(key) => [0] + Prefixed(key)
  }

  function CallsBytes(cs: seq<Call>): Bytes {
    if cs == [] then [] else CallBytes(cs[0]) + CallsBytes(cs[1..])
  }

  /** Sequence number, number of calls, calls. */
  function BatchBytes(sequence: nat, cs: seq<Call>): Bytes
    requires sequence < WIDTH64
  {
    Fixed64(sequence) + (Fixed32(|cs| % WIDTH32) + CallsBytes(cs))
  }

  // ---- Walking a batch ----

  lemma PrefixedEats(input: Bytes)
    ensures GetPrefixed(input).Some? ==> |GetPrefixed(input).value.1| < |input|
  {
    ScanEats(input, 5);
  }

  /** The first call and what follows it, or what is wrong with it. */
  datatype First = Got(call: Call, rest: Bytes) | Bad(outcome: Outcome)

  function PutOf(input: Bytes): (r: First)
    ensures r.Got? ==> |r.rest| < |input|
  {
    PrefixedEats(input);
    match GetPrefixed(input)
    case None => Bad(BadPut)
    case Some((key, rest)) =>
      PrefixedEats(rest);
      (match GetPrefixed(rest)
       case None => Bad(BadPut)
       case Some((val, rest')) => Got(PutCall(key, val), rest'))
  }

  function DeleteOf(input: Bytes): (r: First)
    ensures r.Got? ==> |r.rest| < |input|
  {
    PrefixedEats(input);
    match GetPrefixed(input)
    case None => Bad(BadDelete)
    case Some((key, rest)) => Got(DeleteCall(key), rest)
  }

  function FirstOf(input: Bytes): (r: First)
    requires input != []
    ensures r.Got? ==> |r.rest| < |input|
  {
    if input[0] == 1 then PutOf(input[1..])
    else if input[0] == 0 then DeleteOf(input[1..])
    else Bad(UnknownTag)
  }

  /** The calls made before the end or the first damage. */
  datatype Walked = Walked(calls: seq<Call>, outcome: Outcome)

  function Walk(input: Bytes): Walked
    decreases |input|
  {
    if input == [] then Walked([], Fine)
    else
      match FirstOf(input)
      case Got(c, rest) => After(c, Walk(rest))
      case Bad(outcome) => Walked([], outcome)
  }

  function After(c: Call, more: Walked): Walked {
    more.(calls := [c] + more.calls)
  }

  function SequenceOf(rep: Bytes): nat
    requires |rep| >= HEADER
  {
    DecodeFixed64(rep[..8])
  }

  /** WriteBatchInternal::Count: the four bytes as a C int. */
  function CountOf(rep: Bytes): int
    requires |rep| >= HEADER
  {
    var n := DecodeFixed32(rep[8..12]);
    if n < 0x8000_0000 then n else n - WIDTH32
  }

  /** WriteBatch::Iterate. */
  function IterateOf(rep: Bytes): Walked {
    if |rep| < HEADER then Walked([], TooSmall)
    else
      var w := Walk(rep[HEADER..]);
      if w.outcome.Fine? && |w.calls| != CountOf(rep) then w.(outcome := WrongCount) else w
  }

  // ---- Round trip ----

  /** Keys and values have lengths of 32 bits. */
  ghost predicate Short(c: Call) {
    |c.key| < WIDTH32 && (c.PutCall? ==> |c.val| < WIDTH32)
  }

  lemma PutReads(key: Bytes, val: Bytes, rest: Bytes)
    requires |key| < WIDTH32 && |val| < WIDTH32
    ensures PutOf(Prefixed(key) + (Prefixed(val) + rest)) == Got(PutCall(key, val), rest)
  {
    PrefixedRoundTrip(key, Prefixed(val) + rest);
    PrefixedRoundTrip(val, rest);
  }

  lemma DeleteReads(key: Bytes, rest: Bytes)
    requires |key| < WIDTH32
    ensures DeleteOf(Prefixed(key) + rest) == Got(DeleteCall(key), rest)
  {
    PrefixedRoundTrip(key, rest);
  }

  lemma WalkTag(tag: Byte, tail: Bytes, c: Call, rest: Bytes)
    requires FirstOf([tag] + tail) == Got(c, rest)
    ensures Walk([tag] + tail) == After(c, Walk(rest))
  {
  }

  lemma FirstTag(tag: Byte, tail: Bytes)
    requires tag == 1 || tag == 0
    ensures FirstOf([tag] + tail) == if tag == 1 then PutOf(tail) else DeleteOf(tail)
  {
    assert ([tag] + tail)[1..] == tail;
  }

  lemma WalkOne(c: Call, rest: Bytes)
    requires Short(c)
    ensures Walk(CallBytes(c) + rest) == After(c, Walk(rest))
  {
    match c
    case PutCall(key, val) =>
      var tail := Prefixed(key) + (Prefixed(val) + rest);
      assert CallBytes(c) + rest == [1] + tail;
      PutReads(key, val, rest);
      FirstTag(1, tail);
      WalkTag(1, tail, c, rest);
    case DeleteCall(key) =>
      assert CallBytes(c) + rest == [0] + (Prefixed(key) + rest);
      DeleteReads(key, rest);
      FirstTag(0, Prefixed(key) + rest);
      WalkTag(0, Prefixed(key) + rest, c, rest);
  }

  lemma {:induction false} WalkAll(cs: seq<Call>)
    requires forall c | c in cs :: Short(c)
    ensures Walk(CallsBytes(cs)) == Walked(cs, Fine)
    decreases |cs|
  {
    if cs != [] {
      WalkAll(cs[1..]);
      WalkOne(cs[0], CallsBytes(cs[1..]));
      assert [cs[0]] + cs[1..] == cs;
    }
  }

  lemma Parts(a: Bytes, b: Bytes, c: Bytes)
    requires |a| == 8 && |b| == 4
    ensures var rep := a + (b + c); rep[..8] == a && rep[8..12] == b && rep[HEADER..] == c && rep[8..] == b + c
  {
  }

  lemma HeaderParts(sequence: nat, cs: seq<Call>)
    requires sequence < WIDTH64
    ensures var rep := BatchBytes(sequence, cs);
            && |rep| >= HEADER && rep[..8] == Fixed64(sequence) && rep[8..12] == Fixed32(|cs| % WIDTH32)
            && rep[HEADER..] == CallsBytes(cs) && rep[8..] == Fixed32(|cs| % WIDTH32) + CallsBytes(cs)
  {
    Fixed64Trip(sequence);
    Parts(Fixed64(sequence), Fixed32(|cs| % WIDTH32), CallsBytes(cs));
  }

  lemma HeaderNumbers(sequence: nat, cs: seq<Call>)
    requires sequence < WIDTH64
    ensures var rep := BatchBytes(sequence, cs);
            && |rep| >= HEADER && SequenceOf(rep) == sequence
            && CountOf(rep) == if |cs| % WIDTH32 < 0x8000_0000 then |cs| % WIDTH32 else |cs| % WIDTH32 - WIDTH32
  {
    HeaderParts(sequence, cs);
    Fixed64Trip(sequence);
    DecodeEncode32(|cs| % WIDTH32);
  }

  /** A batch is walked back as it was built. */
  lemma BatchRoundTrip(sequence: nat, cs: seq<Call>)
    requires sequence < WIDTH64 && |cs| < 0x8000_0000 && forall c | c in cs :: Short(c)
    ensures var rep := BatchBytes(sequence, cs);
            && |rep| >= HEADER && IterateOf(rep) == Walked(cs, Fine) && SequenceOf(rep) == sequence
            && CountOf(rep) == |cs|
  {
    HeaderParts(sequence, cs);
    HeaderNumbers(sequence, cs);
    WalkAll(cs);
    SmallCount(sequence, cs);
    IterateFine(BatchBytes(sequence, cs), CallsBytes(cs), cs);
  }

  lemma SmallCount(sequence: nat, cs: seq<Call>)
    requires sequence < WIDTH64 && |cs| < 0x8000_0000
    ensures |BatchBytes(sequence, cs)| >= HEADER && CountOf(BatchBytes(sequence, cs)) == |cs|
  {
    HeaderNumbers(sequence, cs);
    assert |cs| % WIDTH32 == |cs|;
  }

  lemma IterateFine(rep: Bytes, tail: Bytes, cs: seq<Call>)
    requires |rep| >= HEADER && rep[HEADER..] == tail && Walk(tail) == Walked(cs, Fine) && CountOf(rep) == |cs|
    ensures IterateOf(rep) == Walked(cs, Fine)
  {
  }

  // ---- The class ----

  lemma {:induction false} CallsConcat(a: seq<Call>, b: seq<Call>)
    ensures CallsBytes(a + b) == CallsBytes(a) + CallsBytes(b)
    decreases |a|
  {
    if a == [] {
      assert a + b == b;
    } else {
      assert (a + b)[0] == a[0] && (a + b)[1..] == a[1..] + b;
      CallsConcat(a[1..], b);
      Assoc(CallBytes(a[0]), CallsBytes(a[1..]), CallsBytes(b));
    }
  }

  /** Counting modulo 2 to the 32. */
  lemma Counts(m: int, a: nat, b: nat)
    requires m == a % WIDTH32 || m == a % WIDTH32 - WIDTH32
    ensures (m + b) % WIDTH32 == (a + b) % WIDTH32
  {
    var i := (m - a) / WIDTH32;
    assert m == a + i * WIDTH32;
    SameRemainder(a + b, i);
  }

  lemma SameRemainder(x: nat, k: int)
    ensures (x + k * WIDTH32) % WIDTH32 == x % WIDTH32
  {
  }

  /** A batch with more calls at the end: its header, the new count, its calls and the new ones. */
  lemma Extended(sequence: nat, cs: seq<Call>, added: seq<Call>, count: int)
    requires sequence < WIDTH64 && count % WIDTH32 == |cs + added| % WIDTH32
    ensures var rep := BatchBytes(sequence, cs);
            && |rep| >= HEADER
            && rep[..8] + (Fixed32(count % WIDTH32) + (rep[HEADER..] + CallsBytes(added))) ==
                BatchBytes(sequence, cs + added)
  {
    HeaderParts(sequence, cs);
    CallsConcat(cs, added);
  }

  class WriteBatch {
    var rep: Bytes
    ghost var sequence: nat
    ghost var calls: seq<Call>

    ghost predicate Valid()
      reads this
    {
      sequence < WIDTH64 && rep == BatchBytes(sequence, calls)
    }

    constructor ()
      ensures Valid() && sequence == 0 && calls == []
    {
      rep := [0, 0, 0, 0, 0, 0, 0, 0, 0, 0, 0, 0];
      sequence, calls := 0, [];
      new;
      assert Fixed64(0) == [0, 0, 0, 0, 0, 0, 0, 0] && Fixed32(0) == [0, 0, 0, 0];
    }

    method SetSequence(s: nat)
      requires Valid() && s < WIDTH64
      modifies this
      ensures Valid() && sequence == s && calls == old(calls)
    {
      HeaderParts(sequence, calls);
      rep := Fixed64(s) + rep[8..];
      sequence := s;
    }

    /** Take what a log record holds, whatever it is. */
    method SetContents(contents: Bytes)
      modifies `rep
      ensures rep == contents
    {
      rep := contents;
    }

    /** WriteBatchInternal::SetCount, and more records at the end. */
    method Extend(count: int, bytes: Bytes, ghost added: seq<Call>)
      requires Valid() && bytes == CallsBytes(added) && count % WIDTH32 == |calls + added| % WIDTH32
      modifies this
      ensures Valid() && sequence == old(sequence) && calls == old(calls) + added
    {
      HeaderParts(sequence, calls);
      Extended(sequence, calls, added, count);
      rep := rep[..8] + (Fixed32(count % WIDTH32) + (rep[HEADER..] + bytes));
      calls := calls + added;
    }

    /** Count, which a batch always has the header for. */
    method Count() returns (n: int)
      requires Valid()
      ensures n == CountOf(rep) && (n == |calls| % WIDTH32 || n == |calls| % WIDTH32 - WIDTH32)
    {
      HeaderParts(sequence, calls);
      HeaderNumbers(sequence, calls);
      n := CountOf(rep);
    }

    method Put(key: Bytes, val: Bytes)
      requires Valid()
      modifies this
      ensures Valid() && sequence == old(sequence) && calls == old(calls) + [PutCall(key, val)]
    {
      var n := Count();
      Counts(n, |calls|, 1);
      OneCall(PutCall(key, val));
      Extend(n + 1, [1] + (Prefixed(key) + Prefixed(val)), [PutCall(key, val)]);
    }

    method Delete(key: Bytes)
      requires Valid()
      modifies this
      ensures Valid() && sequence == old(sequence) && calls == old(calls) + [DeleteCall(key)]
    {
      var n := Count();
      Counts(n, |calls|, 1);
      OneCall(DeleteCall(key));
      Extend(n + 1, [0] + Prefixed(key), [DeleteCall(key)]);
    }

    /** The calls of another batch after those of this one. */
    method Append(source: WriteBatch)
      requires Valid() && source.Valid()
      modifies this
      ensures Valid() && sequence == old(sequence) && calls == old(calls) + old(source.calls)
    {
      var count := JointCount(source);
      var bytes := source.Records();
      Extend(count, bytes, source.calls);
    }

    method JointCount(source: WriteBatch) returns (count: int)
      requires Valid() && source.Valid()
      ensures count % WIDTH32 == |calls + source.calls| % WIDTH32
    {
      var n := Count();
      var m := source.Count();
      BothCounts(n, m, |calls|, |source.calls|);
      count := n + m;
    }

    /** What follows the header. */
    method Records() returns (bytes: Bytes)
      requires Valid()
      ensures bytes == CallsBytes(calls)
    {
      HeaderParts(sequence, calls);
      bytes := rep[HEADER..];
    }

    /** Walk the batch, collecting the calls. */
    method Iterate() returns (made: seq<Call>, outcome: Outcome)
      ensures Walked(made, outcome) == IterateOf(rep)
    {
      made, outcome := [], Fine;
      if |rep| < HEADER {
        outcome := TooSmall;
        return;
      }
      var input := rep[HEADER..];
      ghost var goal := Walk(input);
      assert [] + goal.calls == goal.calls;
      while input != []
        invariant goal == Walked(made + Walk(input).calls, Walk(input).outcome)
        decreases |input|
      {
        var r := FirstOf(input);
        if r.Bad? {
          assert made + [] == made;
          outcome := r.outcome;
          return;
        }
        NextMade(made, r.call, Walk(r.rest).calls);
        made, input := made + [r.call], r.rest;
      }
      assert made + [] == made;
      if |made| != CountOf(rep) {
        outcome := WrongCount;
      }
    }
  }

  lemma NextMade(made: seq<Call>, c: Call, more: seq<Call>)
    ensures made + ([c] + more) == (made + [c]) + more
  {
  }

  lemma OneCall(c: Call)
    ensures CallsBytes([c]) == CallBytes(c)
  {
    assert [c][1..] == [] && CallBytes(c) + [] == CallBytes(c);
  }

  lemma BothCounts(n: int, m: int, a: nat, b: nat)
    requires n == a % WIDTH32 || n == a % WIDTH32 - WIDTH32
    requires m == b % WIDTH32 || m == b % WIDTH32 - WIDTH32
    ensures (n + m) % WIDTH32 == (a + b) % WIDTH32
  {
    var i, j := (n - a) / WIDTH32, (m - b) / WIDTH32;
    assert n + m == a + b + (i + j) * WIDTH32;
    SameRemainder(a + b, i + j);
  }

  // ---- Batches in a log ----

  /** What a call means to the engine. */
  function OpOf(c: Call): Op {
    match c
    case PutCall(key, val) => Put(Position(key), val)
    case DeleteCall(key) => Delete(Position(key))
  }

  function OpsOf(cs: seq<Call>): (ops: seq<Op>)
    ensures |ops| == |cs|
  {
    if cs == [] then [] else OpsOf(cs[..|cs| - 1]) + [OpOf(cs[|cs| - 1])]
  }

  /** A batch with its sequence number. */
  datatype Numbered = Numbered(sequence: nat, calls: seq<Call>)

  ghost predicate NumberedOk(b: Numbered) {
    b.sequence < WIDTH64 && |b.calls| < 0x8000_0000 && forall c | c in b.calls :: Short(c)
  }

  /** The log records of the batches, and the records they mean to the engine. */
  function LogRecords(bs: seq<Numbered>): (r: seq<Bytes>)
    requires forall b | b in bs :: NumberedOk(b)
    ensures |r| == |bs|
  {
    if bs == [] then []
    else
      var last := bs[|bs| - 1];
      assert NumberedOk(last);
      LogRecords(bs[..|bs| - 1]) + [BatchBytes(last.sequence, last.calls)]
  }

  function Records(bs: seq<Numbered>): seq<Record> {
    if bs == [] then [] else Records(bs[..|bs| - 1]) + [Record(bs[|bs| - 1].sequence, OpsOf(bs[|bs| - 1].calls))]
  }

  /** The records replayed from a log, if none is damaged. */
  function Replay(rs: seq<Bytes>): Option<seq<Record>> {
    if rs == [] then Some([])
    else
      var init :- Replay(rs[..|rs| - 1]);
      var r := rs[|rs| - 1];
      var w := IterateOf(r);
      if |r| >= HEADER && w.outcome.Fine? then Some(init + [Record(SequenceOf(r), OpsOf(w.calls))]) else None
  }

  lemma {:induction false} ReplayRecords(bs: seq<Numbered>)
    requires forall b | b in bs :: NumberedOk(b)
    ensures Replay(LogRecords(bs)) == Some(Records(bs))
    decreases |bs|
  {
    if bs != [] {
      var last := bs[|bs| - 1];
      ReplayRecords(bs[..|bs| - 1]);
      LastReads(bs);
      ReplayOneMore(LogRecords(bs[..|bs| - 1]), BatchBytes(last.sequence, last.calls));
    }
  }

  lemma LastReads(bs: seq<Numbered>)
    requires bs != [] && forall b | b in bs :: NumberedOk(b)
    ensures var last := bs[|bs| - 1];
            last.sequence < WIDTH64 &&
            var r := BatchBytes(last.sequence, last.calls);
            |r| >= HEADER && IterateOf(r) == Walked(last.calls, Fine) && SequenceOf(r) == last.sequence
  {
    var last := bs[|bs| - 1];
    assert NumberedOk(last);
    BatchRoundTrip(last.sequence, last.calls);
  }

  lemma ReplayOneMore(rs: seq<Bytes>, r: Bytes)
    requires Replay(rs).Some? && |r| >= HEADER && IterateOf(r).outcome.Fine?
    ensures Replay(rs + [r]) == Some(Replay(rs).value + [Record(SequenceOf(r), OpsOf(IterateOf(r).calls))])
  {
    assert (rs + [r])[..|rs|] == rs;
  }

  lemma {:induction false} LogPrefix(bs: seq<Numbered>, k: nat)
    requires k <= |bs| && forall b | b in bs :: NumberedOk(b)
    ensures LogRecords(bs)[..k] == LogRecords(bs[..k])
    decreases |bs|
  {
    if k == |bs| {
      assert bs[..k] == bs;
    } else {
      LogPrefix(bs[..|bs| - 1], k);
      assert bs[..|bs| - 1][..k] == bs[..k];
    }
  }

  /** A log of batches, cut at any byte, replays exactly the batches wholly inside the cut, each with its own sequence
      number, and reports nothing. */
  lemma LogReplays(crc: LogFormat.Checksum, bs: seq<Numbered>, n: nat)
    requires (forall b | b in bs :: NumberedOk(b)) && n <= |LogFormat.WriteAll(crc, LogRecords(bs))|
    ensures var (records, reports) := LogFormat.ReadAll(crc, LogFormat.WriteAll(crc, LogRecords(bs))[..n], 0);
            var k := LogFormat.WholeRecords(crc, LogRecords(bs), n);
            reports == 0 && Replay(records) == Some(Records(bs[..k]))
  {
    var k := LogFormat.WholeRecords(crc, LogRecords(bs), n);
    LogFormat.CrashPrefix(crc, LogRecords(bs), n);
    LogPrefix(bs, k);
    ReplayRecords(bs[..k]);
  }

  /** The contents are a log of batches cut at byte `n`, and the batches wholly inside the cut mean these records. */
  ghost predicate LogOf(crc: LogFormat.Checksum, contents: Bytes, bs: seq<Numbered>, n: nat, records: seq<Record>) {
    && (forall b | b in bs :: NumberedOk(b)) && n <= |LogFormat.WriteAll(crc, LogRecords(bs))|
    && contents == LogFormat.WriteAll(crc, LogRecords(bs))[..n]
    && records == Records(bs[..LogFormat.WholeRecords(crc, LogRecords(bs), n)])
  }

  lemma {:induction false} ReplayPrefix(rs: seq<Bytes>, i: nat)
    requires i <= |rs| && Replay(rs).Some?
    ensures Replay(rs[..i]).Some?
    decreases |rs|
  {
    if i == |rs| {
      assert rs[..i] == rs;
    } else {
      ReplayPrefix(rs[..|rs| - 1], i);
      assert rs[..|rs| - 1][..i] == rs[..i];
    }
  }

  /** The loop of RecoverLogFile over the log records, up to the batches they hold. */
  method ReplayLog(crc: LogFormat.Checksum, contents: Bytes, ghost bs: seq<Numbered>, ghost n: nat,
                   ghost all: seq<Record>)
    returns (records: seq<Record>)
    requires LogOf(crc, contents, bs, n, all)
    ensures records == all
  {
    LogReplays(crc, bs, n);
    var rs, _ := LogFile.ReadLog(crc, contents);
    records := [];
    var batch := new WriteBatch();
    for i := 0 to |rs|
      invariant Replay(rs[..i]) == Some(records)
    {
      ReplayPrefix(rs, i + 1);
      assert rs[..i + 1][..i] == rs[..i];
      batch.SetContents(rs[i]);
      var calls, _ := batch.Iterate();
      records := records + [Record(SequenceOf(rs[i]), OpsOf(calls))];
    }
    assert rs[..|rs|] == rs;
  }
}
