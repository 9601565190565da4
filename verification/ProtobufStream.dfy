/** nanopb's streams: the encoder that sizes a message before it writes it, and the decoder that reads it back through
    substreams (nanopb: pb_encode.c, pb_decode.c, pb_common.c). */
module ProtobufStream {
  import opened DbFormat
  import opened Coding
  import opened Protobuf

  // ---- The field iterator ----

  lemma {:induction false} FindNone(d: Desc, tag: nat, i: nat)
    requires i <= |d.fields| && forall k | i <= k < |d.fields| :: d.fields[k].tag != tag
    ensures Find(d, tag, i) == |d.fields|
    decreases |d.fields| - i
  {
    if i < |d.fields| {
      FindNone(d, tag, i + 1);
    }
  }

  /** pb_field_iter_t: it goes round the fields, counting the required ones it has passed. */
  class FieldIter {
    const d: Desc
    var pos: nat
    var required: nat

    ghost predicate Valid()
      reads this
    {
      (pos < |d.fields| || (pos == 0 && d.fields == [])) && required == RequiredBefore(d, pos)
    }

    constructor (d: Desc)
      ensures this.d == d && pos == 0 && Valid()
    {
      this.d := d;
      pos := 0;
      required := 0;
    }

    /** False at the end, where it starts again. */
    method Next() returns (more: bool)
      requires Valid()
      modifies this
      ensures Valid()
      ensures more == (old(pos) + 1 < |d.fields|) && pos == if more then old(pos) + 1 else 0
    {
      if |d.fields| == 0 {
        return false;
      }
      var prev := d.fields[pos];
      pos := pos + 1;
      if pos == |d.fields| {
        pos := 0;
        required := 0;
        return false;
      }
      if prev.h.Required? {
        required := required + 1;
      }
      return true;
    }

    /** From wherever it stands, the field with the tag. */
    method FindTag(tag: nat) returns (found: bool)
      requires Valid() && TagsOk(d)
      modifies this
      ensures Valid()
      ensures d.fields != [] ==> found == (Find(d, tag, 0) < |d.fields|) && (found ==> pos == Find(d, tag, 0))
      ensures d.fields == [] ==> found == (tag == 0)
    {
      if |d.fields| == 0 {
        return tag == 0;
      }
      var start := pos;
      ghost var wrapped := false;
      while true
        invariant Valid()
        invariant if wrapped then pos < start else start <= pos
        invariant forall k | start <= k < (if wrapped then |d.fields| else pos) :: d.fields[k].tag != tag
        invariant wrapped ==> forall k | 0 <= k < pos :: d.fields[k].tag != tag
        decreases if wrapped then start - pos else |d.fields| - pos + start + 1
      {
        if d.fields[pos].tag == tag {
          FindIs(d, pos, 0);
          return true;
        }
        var more := Next();
        wrapped := wrapped || !more;
        if pos == start {
          break;
        }
      }
      FindNone(d, tag, 0);
      return false;
    }
  }

  // ---- Output ----

  /** pb_ostream_t: one that does not write only counts. */
  class OStream {
    const writing: bool
    const max: nat
    var out: Bytes
    var written: nat

    ghost predicate Valid()
      reads this
    {
      writing ==> written <= max
    }

    constructor (writing: bool, max: nat, out: Bytes)
      ensures this.writing == writing && this.max == max && this.out == out && written == 0 && Valid()
    {
      this.writing := writing;
      this.max := max;
      this.out := out;
      written := 0;
    }

    /** The stream has taken these bytes since it stood at `w` and held `o`. */
    ghost predicate Took(w: nat, o: Bytes, e: Bytes)
      reads this
    {
      Valid() && written == w + |e| && out == if writing then o + e else o
    }

    ghost predicate Room(w: nat, e: Bytes)
    {
      writing ==> w + |e| <= max
    }

    /** pb_write. */
    method Write(b: Bytes) returns (ok: bool)
      requires Valid()
      modifies this
      ensures Valid() && ok == Room(old(written), b)
      ensures ok ==> Took(old(written), old(out), b)
    {
      if |b| > 0 && writing {
        if written + |b| > max {
          return false;
        }
        out := out + b;
      }
      assert writing && |b| == 0 ==> out == old(out) + b;
      written := written + |b|;
      return true;
    }

    /** pb_write with no buffer. */
    method Count(n: nat) returns (ok: bool)
      requires !writing
      modifies this
      ensures ok && written == old(written) + n && out == old(out)
    {
      written := written + n;
      return true;
    }

    /** pb_encode_varint. */
    method WriteVarint(v: nat) returns (ok: bool)
      requires Valid()
      modifies this
      ensures Valid() && ok == Room(old(written), Varint(v))
      ensures ok ==> Took(old(written), old(out), Varint(v))
    {
      if v <= 127 {
        ok := Write([v]);
        return;
      }
      var buffer: Bytes := [v % 128 + 128];
      var value: nat := v / 128;
      while value > 0
        invariant |buffer| > 0 && buffer[|buffer| - 1] >= 128
        invariant value > 0 ==> buffer + Varint(value) == Varint(v)
        invariant value == 0 ==> buffer[..|buffer| - 1] + [buffer[|buffer| - 1] - 128] == Varint(v)
        invariant out == old(out) && written == old(written)
      {
        ghost var was := buffer;
        buffer := buffer + [value % 128 + 128];
        if value >= 128 {
          assert was + ([value % 128 + 128] + Varint(value / 128)) == buffer + Varint(value / 128);
        } else {
          assert buffer[..|buffer| - 1] == was;
        }
        value := value / 128;
      }
      buffer := buffer[..|buffer| - 1] + [buffer[|buffer| - 1] - 128];
      ok := Write(buffer);
    }
  }

  // ---- The encoder ----

  /** Two writes make one. */
  lemma Joined(o: Bytes, e: Bytes, e': Bytes)
    ensures o + e + e' == o + (e + e') && |e + e'| == |e| + |e'|
  {
  }

  method WriteTag(s: OStream, tag: nat, wire: nat) returns (ok: bool)
    requires s.Valid()
    modifies s
    ensures s.Valid() && ok == s.Room(old(s.written), WireTag(tag, wire))
    ensures ok ==> s.Took(old(s.written), old(s.out), WireTag(tag, wire))
  {
    ok := s.WriteVarint(tag * 8 + wire);
  }

  /** pb_encode_string. */
  method WriteString(s: OStream, b: Bytes) returns (ok: bool)
    requires s.Valid()
    modifies s
    ensures s.Valid() && ok == s.Room(old(s.written), Varint(|b|) + b)
    ensures ok ==> s.Took(old(s.written), old(s.out), Varint(|b|) + b)
  {
    ok := s.WriteVarint(|b|);
    if ok {
      ok := s.Write(b);
      Joined(old(s.out), Varint(|b|), b);
    }
  }

  method EncodeNumber(s: OStream, l: LType, v: Value) returns (ok: bool)
    requires s.Valid() && Packable(l) && ValueOk(l, v)
    modifies s
    ensures s.Valid() && ok == s.Room(old(s.written), EncodeValue(l, v))
    ensures ok ==> s.Took(old(s.written), old(s.out), EncodeValue(l, v))
  {
    match l
    case BoolT => ok := s.WriteVarint(v.n);
    case IntT(_) => ok := s.WriteVarint(v.n % WIDTH64);
    case UIntT(_) => ok := s.WriteVarint(v.n);
    case SIntT(_) => ok := s.WriteVarint(ZigZag(v.n));
    case Fixed32T => ok := s.Write(Fixed32(v.n));
    case Fixed64T => ok := s.Write(Fixed64(v.n));
  }

  /** One of PB_ENCODERS. */
  method EncodeOne(s: OStream, l: LType, v: Value) returns (ok: bool)
    requires s.Valid() && ValueOk(l, v)
    modifies s
    ensures s.Valid() && ok == (ValueFits(l, v, false) && s.Room(old(s.written), EncodeValue(l, v)))
    ensures ok ==> s.Took(old(s.written), old(s.out), EncodeValue(l, v))
    decreases l, 2
  {
    match l
    case BytesT(max) =>
      if |v.b| > max {
        return false;
      }
      ok := WriteString(s, v.b);
    case StringT(_) => ok := WriteString(s, v.b);
    case SubT(d) => ok := EncodeSubmessage(s, d, v.slots);
    case _ => ok := EncodeNumber(s, l, v);
  }

  /** pb_encode_submessage: it is sized, its length written, and then it is written through a stream of that length. */
  method EncodeSubmessage(s: OStream, d: Desc, slots: seq<Slot>) returns (ok: bool)
    requires s.Valid() && MsgOk(d, slots)
    modifies s
    ensures s.Valid()
    ensures var m := EncodeFrom(d, slots, 0);
            && ok == (MsgFits(d, slots, 0, false) && s.Room(old(s.written), Varint(|m|) + m))
            && (ok ==> s.Took(old(s.written), old(s.out), Varint(|m|) + m))
    decreases d, 4
  {
    ghost var m := EncodeFrom(d, slots, 0);
    var sizing := new OStream(false, 0, []);
    ok := Encode(sizing, d, slots);
    if !ok {
      return;
    }
    var size := sizing.written;
    assert size == |m|;
    ok := s.WriteVarint(size);
    if !ok {
      return;
    }
    Joined(old(s.out), Varint(|m|), m);
    if !s.writing {
      ok := s.Count(size);
      return;
    }
    if s.written + size > s.max {
      return false;
    }
    var sub := new OStream(true, size, s.out);
    ok := Encode(sub, d, slots);
    s.written := s.written + sub.written;
    s.out := sub.out;
    if sub.written != size {
      return false;
    }
  }

  lemma FromStep(d: Desc, slots: seq<Slot>, i: nat, done: Bytes)
    requires MsgOk(d, slots) && i < |slots|
    ensures done + EncodeFrom(d, slots, i) == done + EncodeField(d.fields[i], slots[i]) + EncodeFrom(d, slots, i + 1)
    ensures MsgFits(d, slots, i, false) == (SlotFits(d.fields[i], slots[i], false) && MsgFits(d, slots, i + 1, false))
  {
    assert done + (EncodeField(d.fields[i], slots[i]) + EncodeFrom(d, slots, i + 1))
        == done + EncodeField(d.fields[i], slots[i]) + EncodeFrom(d, slots, i + 1);
  }

  lemma FromEnd(d: Desc, slots: seq<Slot>)
    requires MsgOk(d, slots)
    ensures EncodeFrom(d, slots, |slots|) == [] && MsgFits(d, slots, |slots|, false)
  {
  }

  /** The message from the `i`th field on fits the descriptor, and the stream after what is done. */
  ghost predicate Goes(s: OStream, w: nat, d: Desc, slots: seq<Slot>, i: nat, done: Bytes)
    requires MsgOk(d, slots) && i <= |slots|
  {
    MsgFits(d, slots, i, false) && s.Room(w, done + EncodeFrom(d, slots, i))
  }

  method EncodeNext(s: OStream, d: Desc, slots: seq<Slot>, i: nat, ghost w: nat, ghost o: Bytes, ghost done: Bytes)
    returns (ok: bool)
    requires MsgOk(d, slots) && i < |slots| && s.Took(w, o, done)
    modifies s
    ensures s.Valid()
    ensures ok ==> s.Took(w, o, done + EncodeField(d.fields[i], slots[i]))
    ensures Goes(s, w, d, slots, i, done) ==
            (ok && Goes(s, w, d, slots, i + 1, done + EncodeField(d.fields[i], slots[i])))
    decreases d, 2
  {
    FromStep(d, slots, i, done);
    Joined(o, done, EncodeField(d.fields[i], slots[i]));
    ok := EncodeBasic(s, d.fields[i], slots[i]);
  }

  /** pb_encode. */
  method Encode(s: OStream, d: Desc, slots: seq<Slot>) returns (ok: bool)
    requires s.Valid() && MsgOk(d, slots)
    modifies s
    ensures s.Valid()
    ensures ok == (MsgFits(d, slots, 0, false) && s.Room(old(s.written), EncodeFrom(d, slots, 0)))
    ensures ok ==> s.Took(old(s.written), old(s.out), EncodeFrom(d, slots, 0))
    decreases d, 3
  {
    FromEnd(d, slots);
    var iter := new FieldIter(d);
    if |d.fields| == 0 {
      return true;
    }
    ghost var w, o, whole, done := s.written, s.out, EncodeFrom(d, slots, 0), [];
    assert done + whole == whole;
    ghost var goes := Goes(s, w, d, slots, 0, done);
    while true
      invariant iter.Valid() && iter.d == d && fresh(iter)
      invariant s.Took(w, o, done) && whole == done + EncodeFrom(d, slots, iter.pos)
      invariant goes == Goes(s, w, d, slots, iter.pos, done)
      decreases |slots| - iter.pos
    {
      var i := iter.pos;
      FromStep(d, slots, i, done);
      ok := EncodeNext(s, d, slots, i, w, o, done);
      if !ok {
        return;
      }
      done := done + EncodeField(d.fields[i], slots[i]);
      var more := iter.Next();
      if !more {
        assert i + 1 == |slots| && whole == done;
        return;
      }
    }
  }

  method EncodeTagged(s: OStream, f: Field, v: Value) returns (ok: bool)
    requires s.Valid() && ValueOk(f.l, v)
    modifies s
    ensures var e := WireTag(f.tag, WireType(f.l)) + EncodeValue(f.l, v);
            && s.Valid() && ok == (ValueFits(f.l, v, false) && s.Room(old(s.written), e))
            && (ok ==> s.Took(old(s.written), old(s.out), e))
    decreases f, 0
  {
    ok := WriteTag(s, f.tag, WireType(f.l));
    if ok {
      ok := EncodeOne(s, f.l, v);
      Joined(old(s.out), WireTag(f.tag, WireType(f.l)), EncodeValue(f.l, v));
    }
  }

  /** encode_basic_field. */
  method EncodeBasic(s: OStream, f: Field, slot: Slot) returns (ok: bool)
    requires s.Valid() && SlotOk(f, slot)
    modifies s
    ensures s.Valid() && ok == (SlotFits(f, slot, false) && s.Room(old(s.written), EncodeField(f, slot)))
    ensures ok ==> s.Took(old(s.written), old(s.out), EncodeField(f, slot))
    decreases f, 2
  {
    ok := true;
    match f.h
    case Required => ok := EncodeTagged(s, f, slot.v);
    case Singular =>
      if !IsZero(f.l, slot.v) {
        ok := EncodeTagged(s, f, slot.v);
      }
    case Repeated(_) => ok := EncodeArray(s, f, slot.vs);
    case _ =>
      if slot.o.Some? {
        ok := EncodeTagged(s, f, slot.o.value);
      }
  }

  /** encode_array. */
  method EncodeArray(s: OStream, f: Field, vs: seq<Value>) returns (ok: bool)
    requires s.Valid() && f.h.Repeated? && SlotOk(f, Many(vs))
    modifies s
    ensures s.Valid() && ok == (SlotFits(f, Many(vs), false) && s.Room(old(s.written), EncodeField(f, Many(vs))))
    ensures ok ==> s.Took(old(s.written), old(s.out), EncodeField(f, Many(vs)))
    decreases f, 1, 1
  {
    if |vs| == 0 {
      return true;
    }
    if |vs| > f.h.max {
      return false;
    }
    if Packable(f.l) {
      PackableFit(f.l, vs, false);
      ok := EncodePackedArray(s, f, vs);
    } else {
      ok := EncodeEachValue(s, f, vs);
    }
  }

  lemma {:induction false} FixedSize(l: LType, vs: seq<Value>)
    requires (l.Fixed32T? || l.Fixed64T?) && forall i | 0 <= i < |vs| :: ValueOk(l, vs[i])
    ensures |EncodePacked(l, vs)| == (if l.Fixed32T? then 4 else 8) * |vs|
    decreases |vs|
  {
    if vs != [] {
      FixedSize(l, vs[1..]);
    }
  }

  ghost function PackedFrom(l: LType, vs: seq<Value>, i: nat): Bytes
    requires i <= |vs| && forall k | 0 <= k < |vs| :: ValueOk(l, vs[k])
  {
    EncodePacked(l, vs[i..])
  }

  lemma PackedStep(l: LType, vs: seq<Value>, i: nat, done: Bytes)
    requires i < |vs| && forall k | 0 <= k < |vs| :: ValueOk(l, vs[k])
    ensures done + PackedFrom(l, vs, i) == done + EncodeValue(l, vs[i]) + PackedFrom(l, vs, i + 1)
  {
    assert vs[i..][1..] == vs[i + 1..];
  }

  lemma EachStep(f: Field, vs: seq<Value>, i: nat, done: Bytes)
    requires i < |vs| && forall k | 0 <= k < |vs| :: ValueOk(f.l, vs[k])
    ensures done + EncodeEach(f, vs[i..]) == done + (WireTag(f.tag, WireType(f.l)) + EncodeValue(f.l, vs[i]))
            + EncodeEach(f, vs[i + 1..])
    ensures AllFit(f.l, vs[i..], false) == (ValueFits(f.l, vs[i], false) && AllFit(f.l, vs[i + 1..], false))
  {
    assert vs[i..][1..] == vs[i + 1..];
  }

  method EncodeNumbers(s: OStream, l: LType, vs: seq<Value>) returns (ok: bool)
    requires s.Valid() && Packable(l) && forall i | 0 <= i < |vs| :: ValueOk(l, vs[i])
    modifies s
    ensures s.Valid() && ok == s.Room(old(s.written), EncodePacked(l, vs))
    ensures ok ==> s.Took(old(s.written), old(s.out), EncodePacked(l, vs))
  {
    ghost var done: Bytes := [];
    var i := 0;
    ghost var whole := EncodePacked(l, vs);
    assert vs[0..] == vs && done + whole == whole;
    while i < |vs|
      invariant i <= |vs|
      invariant s.Took(old(s.written), old(s.out), done) && s.Room(old(s.written), done)
      invariant whole == done + PackedFrom(l, vs, i)
    {
      PackedStep(l, vs, i, done);
      ghost var e := EncodeValue(l, vs[i]);
      ok := EncodeNumber(s, l, vs[i]);
      Joined(old(s.out), done, e);
      if !ok {
        return;
      }
      done := done + e;
      i := i + 1;
    }
    assert PackedFrom(l, vs, i) == [] && whole == done;
    return true;
  }

  /** The packed half of encode_array: the length is worked out first. */
  method EncodePackedArray(s: OStream, f: Field, vs: seq<Value>) returns (ok: bool)
    requires s.Valid() && Packable(f.l) && forall i | 0 <= i < |vs| :: ValueOk(f.l, vs[i])
    modifies s
    ensures var p := EncodePacked(f.l, vs); var e := WireTag(f.tag, 2) + (Varint(|p|) + p);
            s.Valid() && ok == s.Room(old(s.written), e) && (ok ==> s.Took(old(s.written), old(s.out), e))
  {
    ghost var p := EncodePacked(f.l, vs);
    ok := WriteTag(s, f.tag, 2);
    if !ok {
      return;
    }
    Joined(old(s.out), WireTag(f.tag, 2), Varint(|p|) + p);
    var size := PackedSize(f.l, vs);
    Joined(s.out, Varint(|p|), p);
    ok := s.WriteVarint(size);
    if !ok {
      return;
    }
    if !s.writing {
      ok := s.Count(size);
      return;
    }
    ok := EncodeNumbers(s, f.l, vs);
  }

  method PackedSize(l: LType, vs: seq<Value>) returns (size: nat)
    requires Packable(l) && forall i | 0 <= i < |vs| :: ValueOk(l, vs[i])
    ensures size == |EncodePacked(l, vs)|
  {
    if l.Fixed32T? || l.Fixed64T? {
      FixedSize(l, vs);
      return (if l.Fixed32T? then 4 else 8) * |vs|;
    }
    var sizing := new OStream(false, 0, []);
    var ok := EncodeNumbers(sizing, l, vs);
    return sizing.written;
  }

  /** The other half. */
  method EncodeEachValue(s: OStream, f: Field, vs: seq<Value>) returns (ok: bool)
    requires s.Valid() && forall i | 0 <= i < |vs| :: ValueOk(f.l, vs[i])
    modifies s
    ensures s.Valid() && ok == (AllFit(f.l, vs, false) && s.Room(old(s.written), EncodeEach(f, vs)))
    ensures ok ==> s.Took(old(s.written), old(s.out), EncodeEach(f, vs))
    decreases f, 1, 0
  {
    ghost var done: Bytes := [];
    var i := 0;
    assert vs[0..] == vs && done + EncodeEach(f, vs) == EncodeEach(f, vs);
    while i < |vs|
      invariant i <= |vs|
      invariant s.Took(old(s.written), old(s.out), done) && s.Room(old(s.written), done)
      invariant EncodeEach(f, vs) == done + EncodeEach(f, vs[i..])
      invariant AllFit(f.l, vs, false) == AllFit(f.l, vs[i..], false)
    {
      EachStep(f, vs, i, done);
      ghost var e := WireTag(f.tag, WireType(f.l)) + EncodeValue(f.l, vs[i]);
      ok := EncodeTagged(s, f, vs[i]);
      Joined(old(s.out), done, e);
      if !ok {
        return;
      }
      done := done + e;
      i := i + 1;
    }
    assert EncodeEach(f, vs) == done;
    return true;
  }

  // ---- Input ----

  /** pb_istream_t: the bytes it has left. */
  class IStream {
    var rest: Bytes

    constructor (rest: Bytes)
      ensures this.rest == rest
    {
      this.rest := rest;
    }
  }

  /** A read gave what a function of the bytes before it gives, and left the same bytes. */
  ghost predicate Got<T>(r: Option<T>, rest: Bytes, e: Option<(T, Bytes)>) {
    match e
    case None => r.None?
    case Some((v, t)) => r == Some(v) && rest == t
  }

  method ReadByte(s: IStream) returns (r: Option<Byte>)
    modifies s
    ensures r == if old(s.rest) == [] then None else Some(old(s.rest[0]))
    ensures s.rest == if r.None? then old(s.rest) else old(s.rest[1..])
  {
    if |s.rest| == 0 {
      return None;
    }
    r := Some(s.rest[0]);
    s.rest := s.rest[1..];
  }

  /** pb_decode_varint32. */
  method ReadVarint32(s: IStream) returns (r: Option<nat>)
    modifies s
    ensures Got(r, s.rest, Get32(old(s.rest)))
  {
    var b := ReadByte(s);
    if b.None? {
      return None;
    }
    if b.value < 128 {
      return Some(b.value as nat);
    }
    var bitpos, result: nat := 7, b.value as nat % 128;
    while true
      invariant Get32(old(s.rest)) == Loop32(s.rest, bitpos, result)
      decreases |s.rest|
    {
      b := ReadByte(s);
      if b.None? {
        return None;
      }
      var byte := b.value as nat;
      if bitpos >= 32 {
        var sign := if bitpos < 63 then 0xff else 0x01;
        if byte % 128 != 0 && (result / 0x8000_0000 == 0 || byte != sign) {
          return None;
        }
      } else {
        result := Placed(result, byte % 128, bitpos);
      }
      bitpos := bitpos + 7;
      if byte < 128 {
        if bitpos == 35 && byte / 16 % 8 != 0 {
          return None;
        }
        return Some(result);
      }
    }
  }

  /** pb_decode_varint. */
  method ReadVarint64(s: IStream) returns (r: Option<nat>)
    modifies s
    ensures Got(r, s.rest, Get64(old(s.rest)))
  {
    var scan := ScanLoop(s.rest, 10);
    if scan.None? {
      return None;
    }
    s.rest := scan.value.1;
    return Some(scan.value.0 % WIDTH64);
  }

  /** pb_skip_varint. */
  method SkipVarintBytes(s: IStream) returns (ok: bool)
    modifies s
    ensures SkipVarint(old(s.rest)) == if ok then Some(s.rest) else None
  {
    while true
      invariant SkipVarint(old(s.rest)) == SkipVarint(s.rest)
      decreases |s.rest|
    {
      var b := ReadByte(s);
      if b.None? {
        return false;
      }
      if b.value < 128 {
        return true;
      }
    }
  }

  /** pb_read: that many bytes off the front. */
  method Read(s: IStream, n: nat) returns (r: Option<Bytes>)
    modifies s
    ensures Got(r, s.rest, if old(|s.rest|) < n then None else Some((old(s.rest[..n]), old(s.rest[n..]))))
  {
    if |s.rest| < n {
      return None;
    }
    r := Some(s.rest[..n]);
    s.rest := s.rest[n..];
  }

  /** A length and that many bytes. */
  method ReadDelimited(s: IStream) returns (r: Option<Bytes>)
    modifies s
    ensures Got(r, s.rest, Delimited(old(s.rest)))
  {
    var n := ReadVarint32(s);
    if n.None? {
      return None;
    }
    r := Read(s, n.value);
  }

  /** pb_skip_field. */
  method SkipField(s: IStream, wire: nat) returns (ok: bool)
    modifies s
    ensures Skip(wire, old(s.rest)) == if ok then Some(s.rest) else None
  {
    if wire == 0 {
      ok := SkipVarintBytes(s);
    } else if wire == 1 {
      var r := Read(s, 8);
      return r.Some?;
    } else if wire == 2 {
      var r := ReadDelimited(s);
      return r.Some?;
    } else if wire == 5 {
      var r := Read(s, 4);
      return r.Some?;
    } else {
      return false;
    }
  }

  // ---- The decoder ----

  /** Tags name fields, in submessages too. */
  predicate DescOk(d: Desc)
    decreases d
  {
    TagsOk(d) && forall i | 0 <= i < |d.fields| :: d.fields[i].l.SubT? ==> DescOk(d.fields[i].l.d)
  }

  method DecodeNumber(s: IStream, l: LType, cur: Value) returns (r: Option<Value>)
    requires Packable(l)
    modifies s
    ensures Got(r, s.rest, DecodeValue(l, cur, old(s.rest)))
  {
    if l.BoolT? {
      var u := ReadVarint32(s);
      return if u.None? then None else Some(Num(if u.value != 0 then 1 else 0));
    } else if l.Fixed32T? {
      var b := Read(s, 4);
      return if b.None? then None else Some(Num(DecodeFixed32(b.value)));
    } else if l.Fixed64T? {
      var b := Read(s, 8);
      return if b.None? then None else Some(Num(DecodeFixed64(b.value)));
    }
    var u := ReadVarint64(s);
    if u.None? || !Width(l.bits) {
      return None;
    }
    if l.UIntT? {
      return if u.value >= Limit(l.bits) then None else Some(Num(u.value));
    }
    var n := if l.SIntT? then UnZigZag(u.value) else Signed(u.value, if l.bits == 64 then WIDTH64 else WIDTH32);
    return if -Limit(l.bits) / 2 <= n < Limit(l.bits) / 2 then Some(Num(n)) else None;
  }

  /** One of PB_DECODERS; a submessage is read through a substream. */
  method DecodeOne(s: IStream, l: LType, cur: Value) returns (r: Option<Value>)
    requires l.SubT? ==> DescOk(l.d)
    modifies s
    ensures Got(r, s.rest, DecodeValue(l, cur, old(s.rest)))
    decreases l, 0
  {
    if Packable(l) {
      r := DecodeNumber(s, l, cur);
      return;
    }
    var b := ReadDelimited(s);
    if b.None? {
      return None;
    }
    match l
    case BytesT(max) => return if |b.value| > max then None else Some(Blob(b.value));
    case StringT(size) => return if |b.value| + 1 > size then None else Some(Blob(b.value));
    case SubT(d) =>
      var sub := new IStream(b.value);
      var slots := DecodeNoinit(sub, d, SlotsOf(d, cur));
      return if slots.None? then None else Some(Msg(slots.value));
  }

  /** The packed half of decode_static_field. */
  method DecodePackedArray(s: IStream, l: LType, vs0: seq<Value>, max: nat) returns (r: Option<seq<Value>>)
    requires Packable(l)
    modifies s
    ensures r == DecodePacked(l, vs0, max, old(s.rest))
  {
    var vs := vs0;
    while |s.rest| > 0 && |vs| < max
      invariant DecodePacked(l, vs, max, s.rest) == DecodePacked(l, vs0, max, old(s.rest))
      decreases max - |vs|
    {
      var v := DecodeNumber(s, l, DefaultValue(l));
      if v.None? {
        return None;
      }
      vs := vs + [v.value];
    }
    return if |s.rest| != 0 then None else Some(vs);
  }

  /** decode_static_field. */
  method DecodeStatic(s: IStream, f: Field, slot: Slot, wire: nat) returns (r: Option<Slot>)
    requires f.l.SubT? ==> DescOk(f.l.d)
    modifies s
    ensures Got(r, s.rest, DecodeSlot(f, slot, wire, old(s.rest)))
    decreases f, 0
  {
    match f.h
    case Repeated(max) =>
      var vs := if slot.Many? then slot.vs else [];
      if wire == 2 && Packable(f.l) {
        var b := ReadDelimited(s);
        if b.None? {
          return None;
        }
        var sub := new IStream(b.value);
        var vs' := DecodePackedArray(sub, f.l, vs, max);
        return if vs'.None? then None else Some(Many(vs'.value));
      }
      if |vs| >= max {
        return None;
      }
      var v := DecodeOne(s, f.l, DefaultValue(f.l));
      return if v.None? then None else Some(Many(vs + [v.value]));
    case Required =>
      var v := DecodeOne(s, f.l, if slot.One? then slot.v else DefaultValue(f.l));
      return if v.None? then None else Some(One(v.value));
    case Singular =>
      var v := DecodeOne(s, f.l, if slot.One? then slot.v else DefaultValue(f.l));
      return if v.None? then None else Some(One(v.value));
    case _ =>
      var v := DecodeOne(s, f.l, if slot.Maybe? && slot.o.Some? then slot.o.value else DefaultValue(f.l));
      return if v.None? then None else Some(Maybe(Some(v.value)));
  }

  // ---- Required fields ----

  /** The mask has a bit for each required field that was seen, by its place among the first 64. */
  ghost predicate Masks(d: Desc, mask: set<nat>, seen: set<nat>) {
    forall i | 0 <= i < |d.fields| && d.fields[i].h.Required? && RequiredBefore(d, i) < MAX_REQUIRED ::
      i in seen <==> RequiredBefore(d, i) in mask
  }

  lemma {:induction false} RequiredGrows(d: Desc, i: nat, j: nat)
    requires i < j <= |d.fields|
    ensures RequiredBefore(d, j) >= RequiredBefore(d, i) + if d.fields[i].h.Required? then 1 else 0
    decreases j
  {
    if i < j - 1 {
      RequiredGrows(d, i, j - 1);
    }
  }

  lemma {:induction false} RequiredAt(d: Desc, n: nat, k: nat) returns (i: nat)
    requires n <= |d.fields| && k < RequiredBefore(d, n)
    ensures i < n && d.fields[i].h.Required? && RequiredBefore(d, i) == k
    decreases n
  {
    if k == RequiredBefore(d, n - 1) {
      i := n - 1;
    } else {
      i := RequiredAt(d, n - 1, k);
    }
  }

  lemma MasksOn(d: Desc, mask: set<nat>, seen: set<nat>, i: nat)
    requires Masks(d, mask, seen) && i < |d.fields|
    ensures var k := RequiredBefore(d, i);
            Masks(d, if d.fields[i].h.Required? && k < MAX_REQUIRED then mask + {k} else mask, seen + {i})
  {
    forall j | 0 <= j < |d.fields| && j != i && d.fields[j].h.Required?
      ensures d.fields[i].h.Required? ==> RequiredBefore(d, j) != RequiredBefore(d, i)
    {
      if j < i {
        RequiredGrows(d, j, i);
      } else if d.fields[i].h.Required? {
        RequiredGrows(d, i, j);
      }
    }
  }

  /** Bits up to the number of required fields, or 64, all set. */
  predicate Full(mask: set<nat>, count: nat) {
    forall k | 0 <= k < count && k < MAX_REQUIRED :: k in mask
  }

  lemma FullIsAllSeen(d: Desc, mask: set<nat>, seen: set<nat>)
    requires Masks(d, mask, seen)
    ensures Full(mask, RequiredBefore(d, |d.fields|)) == AllSeen(d, seen)
  {
    if Full(mask, RequiredBefore(d, |d.fields|)) {
      forall i: nat | i < |d.fields| && d.fields[i].h.Required? && RequiredBefore(d, i) < MAX_REQUIRED
        ensures i in seen
      {
        RequiredGrows(d, i, |d.fields|);
      }
    }
    if AllSeen(d, seen) {
      forall k | 0 <= k < RequiredBefore(d, |d.fields|) && k < MAX_REQUIRED
        ensures k in mask
      {
        var i := RequiredAt(d, |d.fields|, k);
      }
    }
  }

  /** The iterator is run to the end to count the required fields. */
  method CountRequired(iter: FieldIter) returns (count: nat)
    requires iter.Valid()
    modifies iter
    ensures count == RequiredBefore(iter.d, |iter.d.fields|)
  {
    if |iter.d.fields| == 0 {
      return 0;
    }
    var last := iter.d.fields[iter.pos];
    while true
      invariant iter.Valid() && iter.pos < |iter.d.fields|
      decreases |iter.d.fields| - iter.pos
    {
      count := iter.required;
      last := iter.d.fields[iter.pos];
      var more := iter.Next();
      if !more {
        break;
      }
    }
    if last.h.Required? {
      count := count + 1;
    }
  }

  /** pb_decode_noinit. */
  method DecodeNoinit(s: IStream, d: Desc, slots0: seq<Slot>) returns (r: Option<seq<Slot>>)
    requires DescOk(d) && |slots0| == |d.fields|
    modifies s
    ensures r == DecodeLoop(d, slots0, {}, old(s.rest))
    decreases d, 0
  {
    var mask: set<nat>, slots := {}, slots0;
    ghost var seen: set<nat> := {};
    ghost var goal := DecodeLoop(d, slots0, {}, old(s.rest));
    var iter := new FieldIter(d);
    while |s.rest| > 0
      invariant iter.Valid() && iter.d == d && fresh(iter)
      invariant |slots| == |d.fields| && Masks(d, mask, seen)
      invariant goal == DecodeLoop(d, slots, seen, s.rest)
      decreases |s.rest|
    {
      var key := ReadVarint32(s);
      if key.None? {
        return None;
      }
      if key.value == 0 {
        break;
      }
      var found := iter.FindTag(key.value / 8);
      if !found {
        var ok := SkipField(s, key.value % 8);
        if !ok {
          return None;
        }
      } else if |d.fields| == 0 {
        var b := ReadVarint32(s);
        if b.None? {
          return None;
        }
      } else {
        var i := iter.pos;
        MasksOn(d, mask, seen, i);
        if d.fields[i].h.Required? && iter.required < MAX_REQUIRED {
          mask := mask + {iter.required};
        }
        var slot := DecodeStatic(s, d.fields[i], slots[i], key.value % 8);
        if slot.None? {
          return None;
        }
        slots := SetSlot(d, slots, i, slot.value);
        seen := seen + {i};
      }
    }
    FullIsAllSeen(d, mask, seen);
    var count := CountRequired(iter);
    return if Full(mask, count) then Some(slots) else None;
  }

  // ---- Both ----

  /** pb_get_encoded_size. */
  method EncodedSize(d: Desc, slots: seq<Slot>) returns (size: Option<nat>)
    requires MsgOk(d, slots)
    ensures size == if MsgFits(d, slots, 0, false) then Some(|EncodeFrom(d, slots, 0)|) else None
  {
    var s := new OStream(false, 0, []);
    var ok := Encode(s, d, slots);
    return if ok then Some(s.written) else None;
  }

  /** pb_encode into a buffer and pb_decode of what it wrote: the message, whenever it fits. */
  method ThereAndBack(d: Desc, slots: seq<Slot>, max: nat) returns (wrote: bool, back: Option<seq<Slot>>)
    requires DescOk(d) && MsgOk(d, slots) && max < HUGE
    ensures wrote == (MsgFits(d, slots, 0, false) && |EncodeFrom(d, slots, 0)| <= max)
    ensures wrote ==> back == if MsgFits(d, slots, 0, true) then Some(slots) else None
  {
    back := None;
    var o := new OStream(true, max, []);
    wrote := Encode(o, d, slots);
    if wrote {
      assert o.out == EncodeFrom(d, slots, 0);
      MsgTrip(d, slots);
      var i := new IStream(o.out);
      back := DecodeNoinit(i, d, DefaultSlots(d, |d.fields|));
    }
  }
}
