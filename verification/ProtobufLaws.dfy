/** What a decoder of messages must do beside giving back what was encoded: refuse a message without its required
    fields, pass over fields it does not know, and read the published bytes (nanopb: pb_decode.c; Protocol Buffers
    encoding guide, "Base 128 Varints", "Message Structure" and "Packed Repeated Fields"). */
module ProtobufLaws {
  import opened DbFormat
  import opened Coding
  import opened Protobuf

  // ---- Required fields ----

  ghost function RequiredAmong(d: Desc, i: nat): set<nat>
    requires i <= |d.fields|
  {
    set j: nat | j < i && d.fields[j].h.Required?
  }

  /** One of the first 64 required fields of the descriptor. */
  ghost predicate MustBeThere(d: Desc, i: nat) {
    i < |d.fields| && d.fields[i].h.Required? && |RequiredAmong(d, i)| < 64
  }

  lemma {:induction false} RequiredCount(d: Desc, i: nat)
    requires i <= |d.fields|
    ensures RequiredBefore(d, i) == |RequiredAmong(d, i)|
    decreases i
  {
    if i > 0 {
      RequiredCount(d, i - 1);
      var before := RequiredAmong(d, i - 1);
      assert RequiredAmong(d, i) == if d.fields[i - 1].h.Required? then before + {i - 1} else before;
    }
  }

  lemma SeenAre(d: Desc, seen: set<nat>)
    ensures AllSeen(d, seen) <==> forall i: nat | MustBeThere(d, i) :: i in seen
  {
    forall i: nat | i < |d.fields| ensures RequiredBefore(d, i) == |RequiredAmong(d, i)| {
      RequiredCount(d, i);
    }
  }

  /** The tags of the fields that are read before the message ends or cannot be read on. */
  ghost function TagsRead(d: Desc, slots: seq<Slot>, input: Bytes): set<nat>
    requires |slots| == |d.fields|
    decreases |input|
  {
    if input == [] then {}
    else
      match Get32(input)
      case None => {}
      case Some((key, rest)) =>
        if key == 0 then {}
        else
          var i := Find(d, key / 8, 0);
          if i == |d.fields| then
            match SkipUnknown(d, key, rest)
            case None => {}
            case Some(rest') => {key / 8} + TagsRead(d, slots, rest')
          else
            match DecodeSlot(d.fields[i], slots[i], key % 8, rest)
            case None => {}
            case Some((s, rest')) => {key / 8} + TagsRead(d, SetSlot(d, slots, i, s), rest')
  }

  ghost function Below(n: nat): (r: set<nat>)
    ensures forall i: nat :: i in r <==> i < n
  {
    if n == 0 then {} else Below(n - 1) + {n - 1}
  }

  /** The fields of the message can all be read, whichever they are. */
  ghost predicate Readable(d: Desc, slots: seq<Slot>, input: Bytes)
    requires |slots| == |d.fields|
  {
    DecodeLoop(d, slots, Below(|d.fields|), input).Some?
  }

  ghost predicate FieldRead(d: Desc, slots: seq<Slot>, seen: set<nat>, input: Bytes, i: nat)
    requires |slots| == |d.fields|
  {
    i in seen || (i < |d.fields| && d.fields[i].tag in TagsRead(d, slots, input))
  }

  lemma {:induction false} LoopNeeds(d: Desc, slots: seq<Slot>, seen: set<nat>, input: Bytes)
    requires TagsOk(d) && |slots| == |d.fields|
    ensures DecodeLoop(d, slots, seen, input).Some? <==>
            Readable(d, slots, input) && forall i: nat | MustBeThere(d, i) :: FieldRead(d, slots, seen, input, i)
    decreases |input|
  {
    var all := Below(|d.fields|);
    SeenAre(d, seen);
    SeenAre(d, all);
    if input != [] && Get32(input).Some? && Get32(input).value.0 != 0 {
      var (key, rest) := Get32(input).value;
      var i := Find(d, key / 8, 0);
      if i == |d.fields| {
        var skipped := SkipUnknown(d, key, rest);
        if skipped.Some? {
          LoopNeeds(d, slots, seen, skipped.value);
        }
        UnknownTag(d, key / 8, 0);
      } else {
        var r := DecodeSlot(d.fields[i], slots[i], key % 8, rest);
        if r.Some? {
          var slots' := SetSlot(d, slots, i, r.value.0);
          LoopNeeds(d, slots', seen + {i}, r.value.1);
          assert all + {i} == all;
        }
      }
    }
  }

  lemma {:induction false} UnknownTag(d: Desc, tag: nat, i: nat)
    requires i <= |d.fields| && Find(d, tag, i) == |d.fields|
    ensures forall j | i <= j < |d.fields| :: d.fields[j].tag != tag
    decreases |d.fields| - i
  {
    if i < |d.fields| {
      UnknownTag(d, tag, i + 1);
    }
  }

  /** A message is decoded exactly when its fields can be read and the first 64 required ones are among them. */
  lemma DecodesExactly(d: Desc, input: Bytes)
    requires TagsOk(d)
    ensures var slots := DefaultSlots(d, |d.fields|);
            Decode(d, input).Some? <==>
            Readable(d, slots, input)
            && forall i: nat | MustBeThere(d, i) :: d.fields[i].tag in TagsRead(d, slots, input)
  {
    var slots := DefaultSlots(d, |d.fields|);
    LoopNeeds(d, slots, {}, input);
    forall i: nat | MustBeThere(d, i)
      ensures FieldRead(d, slots, {}, input, i) <==> d.fields[i].tag in TagsRead(d, slots, input)
    {
    }
  }

  /** The encoding of a message with field `x` left out, from the `i`th field on. */
  function EncodeBut(d: Desc, slots: seq<Slot>, x: nat, i: nat): Bytes
    requires MsgOk(d, slots) && i <= |slots|
    decreases |slots| - i
  {
    if i == |slots| then []
    else (if i == x then [] else EncodeField(d.fields[i], slots[i])) + EncodeBut(d, slots, x, i + 1)
  }

  lemma {:induction false} ButFails(d: Desc, slots: seq<Slot>, x: nat, i: nat, seen: set<nat>)
    requires MsgOk(d, slots) && i <= |slots| && |EncodeBut(d, slots, x, i)| < HUGE
    requires MustBeThere(d, x) && x !in seen
    ensures var without := slots[x := DefaultSlot(d.fields[x])];
            DecodeLoop(d, Half(d, without, i), seen, EncodeBut(d, slots, x, i)) == None
    decreases |slots| - i
  {
    var without := slots[x := DefaultSlot(d.fields[x])];
    if i == |slots| {
      NotAllSeen(d, seen, x);
    } else {
      var tail := EncodeBut(d, slots, x, i + 1);
      if i == x {
        StaysFresh(d, without, i);
        assert [] + tail == tail;
        ButFails(d, slots, x, i + 1, seen);
      } else {
        StillExclusive(d, slots, x);
        var seen' := TakesField(d, without, i, seen, tail);
        ButFails(d, slots, x, i + 1, seen');
      }
    }
  }

  lemma NotAllSeen(d: Desc, seen: set<nat>, x: nat)
    requires MustBeThere(d, x) && x !in seen
    ensures !AllSeen(d, seen)
  {
    SeenAre(d, seen);
  }

  lemma StaysFresh(d: Desc, slots: seq<Slot>, i: nat)
    requires |slots| == |d.fields| && i < |slots| && slots[i] == DefaultSlot(d.fields[i])
    ensures Half(d, slots, i) == Half(d, slots, i + 1)
  {
    HalfOn(d, slots, i);
    assert Half(d, slots, i)[i := slots[i]] == Half(d, slots, i);
  }

  /** One more field is read into its slot, or the message is refused. */
  lemma TakesField(d: Desc, slots: seq<Slot>, i: nat, seen: set<nat>, tail: Bytes) returns (seen': set<nat>)
    requires TagsOk(d) && Exclusive(d, slots) && i < |slots| && SlotOk(d.fields[i], slots[i])
    requires |EncodeField(d.fields[i], slots[i])| < HUGE
    ensures seen' <= seen + {i}
    ensures var r := DecodeLoop(d, Half(d, slots, i), seen, EncodeField(d.fields[i], slots[i]) + tail);
            r == None || r == DecodeLoop(d, Half(d, slots, i + 1), seen', tail)
  {
    var f, half := d.fields[i], Half(d, slots, i);
    HalfOn(d, slots, i);
    if Present(f, slots[i]) {
      HalfAlone(d, slots, i);
      FieldTrip(d, half, seen, i, slots[i], tail);
      seen' := seen + {i};
    } else {
      AbsentField(f, slots[i]);
      assert half[i := slots[i]] == half && EncodeField(f, slots[i]) + tail == tail;
      seen' := seen;
    }
  }

  lemma StillExclusive(d: Desc, slots: seq<Slot>, x: nat)
    requires Exclusive(d, slots) && x < |slots| && d.fields[x].h.Required?
    ensures Exclusive(d, slots[x := DefaultSlot(d.fields[x])])
  {
  }

  /** A message encoded without one of its first 64 required fields is refused. */
  lemma MissingIsRefused(d: Desc, slots: seq<Slot>, x: nat)
    requires MsgOk(d, slots) && MustBeThere(d, x) && |EncodeBut(d, slots, x, 0)| < HUGE
    ensures Decode(d, EncodeBut(d, slots, x, 0)) == None
  {
    var without := slots[x := DefaultSlot(d.fields[x])];
    assert Half(d, without, 0) == DefaultSlots(d, |d.fields|);
    ButFails(d, slots, x, 0, {});
  }

  // ---- Unknown fields ----

  /** A field of any of the four kinds on the wire. */
  datatype Unknown =
    | VarintField(tag: nat, v: nat)
    | EightBytes(tag: nat, b: Bytes)
    | Delimited(tag: nat, b: Bytes)
    | FourBytes(tag: nat, b: Bytes)

  /** The descriptor has no such tag. */
  predicate Foreign(d: Desc, u: Unknown) {
    && 0 < u.tag < 0x2000_0000 && (forall i | 0 <= i < |d.fields| :: d.fields[i].tag != u.tag)
    && (u.EightBytes? ==> |u.b| == 8) && (u.FourBytes? ==> |u.b| == 4) && (u.Delimited? ==> |u.b| < WIDTH32)
  }

  function UnknownBytes(u: Unknown): Bytes {
    match u
    case VarintField(tag, v) => Varint(tag * 8) + Varint(v)
    case EightBytes(tag, b) => Varint(tag * 8 + 1) + b
    case Delimited(tag, b) => Varint(tag * 8 + 2) + (Varint(|b|) + b)
    case FourBytes(tag, b) => Varint(tag * 8 + 5) + b
  }

  lemma {:induction false} SkipsVarint(v: nat, rest: Bytes)
    ensures SkipVarint(Varint(v) + rest) == Some(rest)
    decreases v
  {
    VarintParts(v, rest);
    if v >= 128 {
      SkipsVarint(v / 128, rest);
    }
  }

  lemma SkipsBody(d: Desc, u: Unknown, rest: Bytes)
    requires Foreign(d, u)
    ensures var (wire, body) := match u
                                case VarintField(_, v) => (0, Varint(v))
                                case EightBytes(_, b) => (1, b)
                                case Delimited(_, b) => (2, Varint(|b|) + b)
                                case FourBytes(_, b) => (5, b);
            Skip(wire, body + rest) == Some(rest)
  {
    match u
    case VarintField(_, v) => SkipsVarint(v, rest);
    case EightBytes(_, b) => assert (b + rest)[8..] == rest;
    case Delimited(_, b) => DelimitedTrip(b, rest);
    case FourBytes(_, b) => assert (b + rest)[4..] == rest;
  }

  lemma {:induction false} NotFound(d: Desc, tag: nat, i: nat)
    requires i <= |d.fields| && forall j | 0 <= j < |d.fields| :: d.fields[j].tag != tag
    ensures Find(d, tag, i) == |d.fields|
    decreases |d.fields| - i
  {
    if i < |d.fields| {
      NotFound(d, tag, i + 1);
    }
  }

  lemma PassesBody(d: Desc, slots: seq<Slot>, seen: set<nat>, tag: nat, wire: nat, body: Bytes, rest: Bytes)
    requires |slots| == |d.fields| && 0 < tag < 0x2000_0000 && wire < 8
    requires (forall i | 0 <= i < |d.fields| :: d.fields[i].tag != tag) && Skip(wire, body + rest) == Some(rest)
    ensures DecodeLoop(d, slots, seen, Varint(tag * 8 + wire) + (body + rest)) == DecodeLoop(d, slots, seen, rest)
  {
    var key := tag * 8 + wire;
    Get32Trip(key, body + rest);
    assert key / 8 == tag && key % 8 == wire;
    NotFound(d, tag, 0);
  }

  /** The reader passes over one unknown field. */
  lemma PassesOver(d: Desc, slots: seq<Slot>, seen: set<nat>, u: Unknown, rest: Bytes)
    requires |slots| == |d.fields| && Foreign(d, u)
    ensures DecodeLoop(d, slots, seen, UnknownBytes(u) + rest) == DecodeLoop(d, slots, seen, rest)
  {
    var (wire, body) := match u
                        case VarintField(_, v) => (0, Varint(v))
                        case EightBytes(_, b) => (1, b)
                        case Delimited(_, b) => (2, Varint(|b|) + b)
                        case FourBytes(_, b) => (5, b);
    assert UnknownBytes(u) + rest == Varint(u.tag * 8 + wire) + (body + rest);
    SkipsBody(d, u, rest);
    PassesBody(d, slots, seen, u.tag, wire, body, rest);
  }

  function AllBytes(us: seq<Unknown>): Bytes {
    if us == [] then [] else UnknownBytes(us[0]) + AllBytes(us[1..])
  }

  lemma {:induction false} PassesOverAll(d: Desc, slots: seq<Slot>, seen: set<nat>, us: seq<Unknown>, rest: Bytes)
    requires |slots| == |d.fields| && forall u | u in us :: Foreign(d, u)
    ensures DecodeLoop(d, slots, seen, AllBytes(us) + rest) == DecodeLoop(d, slots, seen, rest)
    decreases |us|
  {
    if us == [] {
      assert AllBytes(us) + rest == rest;
    } else {
      var more := AllBytes(us[1..]);
      assert AllBytes(us) + rest == UnknownBytes(us[0]) + (more + rest);
      PassesOver(d, slots, seen, us[0], more + rest);
      PassesOverAll(d, slots, seen, us[1..], rest);
    }
  }

  /** The encoding from the `i`th field on, with unknown fields before each field and at the end. */
  function EncodeAmid(d: Desc, slots: seq<Slot>, us: seq<seq<Unknown>>, i: nat): Bytes
    requires MsgOk(d, slots) && i <= |slots| && |us| == |slots| + 1
    decreases |slots| - i
  {
    AllBytes(us[i])
    + if i == |slots| then [] else EncodeField(d.fields[i], slots[i]) + EncodeAmid(d, slots, us, i + 1)
  }

  ghost predicate AllForeign(d: Desc, us: seq<seq<Unknown>>) {
    forall i | 0 <= i < |us| :: forall u | u in us[i] :: Foreign(d, u)
  }

  lemma {:induction false} AmidTrip(d: Desc, slots: seq<Slot>, us: seq<seq<Unknown>>, i: nat, seen: set<nat>)
    requires MsgOk(d, slots) && i <= |slots| && |us| == |slots| + 1 && AllForeign(d, us)
    requires |EncodeAmid(d, slots, us, i)| < HUGE
    requires forall k | 0 <= k < i && d.fields[k].h.Required? :: k in seen
    ensures DecodeLoop(d, Half(d, slots, i), seen, EncodeAmid(d, slots, us, i)) ==
            if MsgFits(d, slots, i, true) then Some(slots) else None
    decreases |slots| - i
  {
    var half := Half(d, slots, i);
    if i == |slots| {
      PassesOverAll(d, half, seen, us[i], []);
      assert half == slots;
    } else {
      var f, tail := d.fields[i], EncodeAmid(d, slots, us, i + 1);
      PassesOverAll(d, half, seen, us[i], EncodeField(f, slots[i]) + tail);
      HalfOn(d, slots, i);
      if Present(f, slots[i]) {
        HalfAlone(d, slots, i);
        FieldTrip(d, half, seen, i, slots[i], tail);
        AmidTrip(d, slots, us, i + 1, seen + {i});
      } else {
        AbsentField(f, slots[i]);
        assert half[i := slots[i]] == half && EncodeField(f, slots[i]) + tail == tail;
        AmidTrip(d, slots, us, i + 1, seen);
      }
    }
  }

  /** Unknown fields anywhere between the fields of a message change nothing of what is decoded. */
  lemma UnknownChangesNothing(d: Desc, slots: seq<Slot>, us: seq<seq<Unknown>>)
    requires MsgOk(d, slots) && |us| == |slots| + 1 && AllForeign(d, us)
    requires |EncodeAmid(d, slots, us, 0)| < HUGE && |EncodeFrom(d, slots, 0)| < HUGE
    ensures Decode(d, EncodeAmid(d, slots, us, 0)) == Decode(d, EncodeFrom(d, slots, 0))
    ensures Decode(d, EncodeAmid(d, slots, us, 0)) == if MsgFits(d, slots, 0, true) then Some(slots) else None
  {
    assert Half(d, slots, 0) == DefaultSlots(d, |d.fields|);
    AmidTrip(d, slots, us, 0, {});
    MsgTrip(d, slots);
  }

  // ---- Published bytes ----

  lemma VarintBytes()
    ensures Varint(1) == [1] && Varint(150) == [0x96, 0x01] && Varint(300) == [0xac, 0x02]
    ensures Varint(270) == [0x8e, 0x02] && Varint(86942) == [0x9e, 0xa7, 0x05]
    ensures forall n: nat | n < 128 :: Varint(n) == [n]
  {
    assert Varint(679) == [0xa7, 0x05];
  }

  /** A message of one field. */
  lemma OneField(f: Field, s: Slot)
    requires 0 < f.tag < 0x2000_0000 && SlotOk(f, s)
    ensures MsgOk(Desc([f]), [s]) && EncodeFrom(Desc([f]), [s], 0) == EncodeField(f, s)
  {
    var d := Desc([f]);
    assert MsgOk(d, [s]);
    assert EncodeFrom(d, [s], 1) == [];
  }

  /** The examples of the encoding guide: an int32 field 1 of 150, a string field 2 "testing", a submessage field 3 that
      holds the first, and a packed field 4. */
  lemma GuideExamples()
    ensures var f := Field(1, Required, IntT(32)); var s := One(Num(150));
            MsgOk(Desc([f]), [s]) && EncodeFrom(Desc([f]), [s], 0) == [0x08, 0x96, 0x01]
    ensures var f := Field(2, Required, StringT(8)); var s := One(Blob([0x74, 0x65, 0x73, 0x74, 0x69, 0x6e, 0x67]));
            MsgOk(Desc([f]), [s])
            && EncodeFrom(Desc([f]), [s], 0) == [0x12, 0x07, 0x74, 0x65, 0x73, 0x74, 0x69, 0x6e, 0x67]
  {
    VarintBytes();
    OneField(Field(1, Required, IntT(32)), One(Num(150)));
    OneField(Field(2, Required, StringT(8)), One(Blob([0x74, 0x65, 0x73, 0x74, 0x69, 0x6e, 0x67])));
  }

  lemma GuideSubmessage()
    ensures var f := Field(1, Required, IntT(32));
            var g, s := Field(3, Required, SubT(Desc([f]))), One(Msg([One(Num(150))]));
            MsgOk(Desc([g]), [s]) && EncodeFrom(Desc([g]), [s], 0) == [0x1a, 0x03, 0x08, 0x96, 0x01]
  {
    var f := Field(1, Required, IntT(32));
    var g, s := Field(3, Required, SubT(Desc([f]))), One(Msg([One(Num(150))]));
    VarintBytes();
    GuideExamples();
    assert ValueOk(g.l, s.v);
    OneField(g, s);
  }

  lemma IntBytes(n: nat)
    requires n < 0x8000_0000
    ensures ValueOk(IntT(32), Num(n)) && EncodeValue(IntT(32), Num(n)) == Varint(n)
  {
    assert n as int % WIDTH64 == n;
  }

  lemma PackedExample() returns (vs: seq<Value>)
    ensures vs == [Num(3), Num(270), Num(86942)] && (forall i | 0 <= i < |vs| :: ValueOk(IntT(32), vs[i]))
    ensures EncodePacked(IntT(32), vs) == [0x03, 0x8e, 0x02, 0x9e, 0xa7, 0x05]
  {
    var l := IntT(32);
    VarintBytes();
    IntBytes(3);
    IntBytes(270);
    IntBytes(86942);
    vs := [];
    PackedOn(l, Num(86942), vs, [0x9e, 0xa7, 0x05], []);
    vs := [Num(86942)] + vs;
    PackedOn(l, Num(270), vs, [0x8e, 0x02], [0x9e, 0xa7, 0x05]);
    vs := [Num(270)] + vs;
    PackedOn(l, Num(3), vs, [0x03], [0x8e, 0x02, 0x9e, 0xa7, 0x05]);
    vs := [Num(3)] + vs;
  }

  lemma GuidePacked()
    ensures var f, s := Field(4, Repeated(3), IntT(32)), Many([Num(3), Num(270), Num(86942)]);
            MsgOk(Desc([f]), [s])
            && EncodeFrom(Desc([f]), [s], 0) == [0x22, 0x06, 0x03, 0x8e, 0x02, 0x9e, 0xa7, 0x05]
  {
    var vs := PackedExample();
    VarintBytes();
    OneField(Field(4, Repeated(3), IntT(32)), Many(vs));
  }

  lemma PackedOn(l: LType, v: Value, vs: seq<Value>, e: Bytes, es: Bytes)
    requires ValueOk(l, v) && (forall i | 0 <= i < |vs| :: ValueOk(l, vs[i]))
    requires EncodeValue(l, v) == e && EncodePacked(l, vs) == es
    ensures (forall i | 0 <= i < |[v] + vs| :: ValueOk(l, ([v] + vs)[i])) && EncodePacked(l, [v] + vs) == e + es
  {
    assert ([v] + vs)[1..] == vs;
  }

  /** The guide's zigzag table, and the kinds on the wire of the fixed-width types. */
  lemma GuideNumbers()
    ensures ZigZag(0) == 0 && ZigZag(-1) == 1 && ZigZag(1) == 2 && ZigZag(-2) == 3
    ensures ZigZag(0x7fff_ffff) == 0xffff_fffe && ZigZag(-0x8000_0000) == 0xffff_ffff
    ensures var f, s := Field(1, Required, Fixed32T), One(Num(1));
            MsgOk(Desc([f]), [s]) && EncodeFrom(Desc([f]), [s], 0) == [0x0d, 1, 0, 0, 0]
    ensures var f, s := Field(1, Required, Fixed64T), One(Num(1));
            MsgOk(Desc([f]), [s]) && EncodeFrom(Desc([f]), [s], 0) == [0x09, 1, 0, 0, 0, 0, 0, 0, 0]
    ensures var f, s := Field(1, Required, BoolT), One(Num(1));
            MsgOk(Desc([f]), [s]) && EncodeFrom(Desc([f]), [s], 0) == [0x08, 1]
  {
    VarintBytes();
    OneField(Field(1, Required, Fixed32T), One(Num(1)));
    OneField(Field(1, Required, Fixed64T), One(Num(1)));
    OneField(Field(1, Required, BoolT), One(Num(1)));
  }

  // ---- Fields in the forms other writers give them ----

  /** A field with the length of a packed array and its values. */
  function PackedBytes(f: Field, vs: seq<Value>): Bytes
    requires forall k | 0 <= k < |vs| :: ValueOk(f.l, vs[k])
  {
    var p := EncodePacked(f.l, vs);
    Varint(f.tag * 8 + 2) + (Varint(|p|) + p)
  }

  /** A packed array adds its values to those there. */
  lemma PackedOnto(d: Desc, slots: seq<Slot>, seen: set<nat>, i: nat, vs: seq<Value>, done: seq<Value>, tail: Bytes)
    requires TagsOk(d) && i < |d.fields| == |slots| && slots[i] == Many(done) && vs != []
    requires var f := d.fields[i]; f.h.Repeated? && Packable(f.l) && forall k | 0 <= k < |vs| :: ValueOk(f.l, vs[k])
    requires |EncodePacked(d.fields[i].l, vs)| < WIDTH32
    ensures var f := d.fields[i];
            DecodeLoop(d, slots, seen, PackedBytes(f, vs) + tail) ==
            After(d, slots, seen, i, Many(done + vs), |done| + |vs| <= f.h.max, tail)
  {
    var f := d.fields[i];
    var p := EncodePacked(f.l, vs);
    assert PackedBytes(f, vs) + tail == WireTag(f.tag, 2) + (Varint(|p|) + p + tail);
    TagTrip(d, slots, seen, i, 2, Varint(|p|) + p + tail);
    DelimitedTrip(p, tail);
    PackedTrip(f.l, vs, done, f.h.max);
    SetAlone(d, slots, i, Many(done + vs));
  }

  /** An array is read alike whether its values come packed or each under its own tag. */
  lemma EitherForm(d: Desc, slots: seq<Slot>, seen: set<nat>, i: nat, vs: seq<Value>, done: seq<Value>, tail: Bytes)
    requires TagsOk(d) && i < |d.fields| == |slots| && slots[i] == Many(done) && vs != []
    requires var f := d.fields[i]; f.h.Repeated? && Packable(f.l) && forall k | 0 <= k < |vs| :: ValueOk(f.l, vs[k])
    requires |EncodePacked(d.fields[i].l, vs)| < WIDTH32 && |EncodeEach(d.fields[i], vs)| < HUGE
    ensures var f := d.fields[i];
            DecodeLoop(d, slots, seen, EncodeEach(f, vs) + tail) ==
            DecodeLoop(d, slots, seen, PackedBytes(f, vs) + tail)
  {
    PackedOnto(d, slots, seen, i, vs, done, tail);
    EachTrip(d, slots, seen, i, vs, done, tail);
    PackableFit(d.fields[i].l, vs, true);
  }

  /** A field of one value. */
  function OneBytes(f: Field, v: Value): Bytes
    requires ValueOk(f.l, v)
  {
    WireTag(f.tag, WireType(f.l)) + EncodeValue(f.l, v)
  }

  /** The slot of a field of one value. */
  function Holding(f: Field, v: Value): Slot {
    if f.h.Required? || f.h.Singular? then One(v) else Maybe(Some(v))
  }

  /** Whatever the slots hold, a value that is no message replaces what is there. */
  lemma Overwrites(d: Desc, slots: seq<Slot>, seen: set<nat>, i: nat, v: Value, tail: Bytes)
    requires TagsOk(d) && i < |d.fields| == |slots|
    requires var f := d.fields[i];
             !f.h.Repeated? && !f.l.SubT? && ValueOk(f.l, v) && |EncodeValue(f.l, v)| < HUGE && ValueFits(f.l, v, true)
    ensures var f := d.fields[i];
            DecodeLoop(d, slots, seen, OneBytes(f, v) + tail) ==
            DecodeLoop(d, SetSlot(d, slots, i, Holding(f, v)), seen + {i}, tail)
  {
    var f := d.fields[i];
    var e := EncodeValue(f.l, v);
    assert OneBytes(f, v) + tail == WireTag(f.tag, WireType(f.l)) + (e + tail);
    TagTrip(d, slots, seen, i, WireType(f.l), e + tail);
    ValueTrip(f.l, v, tail);
  }

  /** Of two values of one field the last one stands. */
  lemma LastValueStands(d: Desc, slots: seq<Slot>, seen: set<nat>, i: nat, v: Value, w: Value, tail: Bytes)
    requires TagsOk(d) && i < |d.fields| == |slots|
    requires var f := d.fields[i];
             !f.h.Repeated? && !f.l.SubT? && ValueOk(f.l, v) && |EncodeValue(f.l, v)| < HUGE && ValueFits(f.l, v, true)
             && ValueOk(f.l, w) && |EncodeValue(f.l, w)| < HUGE && ValueFits(f.l, w, true)
    ensures var f := d.fields[i];
            DecodeLoop(d, slots, seen, OneBytes(f, v) + (OneBytes(f, w) + tail)) ==
            DecodeLoop(d, slots, seen, OneBytes(f, w) + tail)
  {
    var f := d.fields[i];
    var first := SetSlot(d, slots, i, Holding(f, v));
    Overwrites(d, slots, seen, i, v, OneBytes(f, w) + tail);
    Overwrites(d, first, seen + {i}, i, w, tail);
    Overwrites(d, slots, seen, i, w, tail);
    assert seen + {i} + {i} == seen + {i};
    assert SetSlot(d, first, i, Holding(f, w)) == SetSlot(d, slots, i, Holding(f, w));
  }

  /** Of two members of a oneof the last one stands, and the other is gone. */
  lemma LastMemberStands(d: Desc, slots: seq<Slot>, seen: set<nat>, i: nat, v: Value, j: nat, w: Value, tail: Bytes)
    requires TagsOk(d) && i < |d.fields| == |slots| && j < |slots| && i != j
    requires d.fields[i].h.Oneof? && d.fields[j].h == d.fields[i].h
    requires var f := d.fields[i];
             !f.l.SubT? && ValueOk(f.l, v) && |EncodeValue(f.l, v)| < HUGE && ValueFits(f.l, v, true)
    requires var g := d.fields[j];
             !g.l.SubT? && ValueOk(g.l, w) && |EncodeValue(g.l, w)| < HUGE && ValueFits(g.l, w, true)
    ensures var f, g := d.fields[i], d.fields[j];
            var slots' := SetSlot(d, slots, j, Maybe(Some(w)));
            slots'[i] == Maybe(None)
            && DecodeLoop(d, slots, seen, OneBytes(f, v) + (OneBytes(g, w) + tail)) ==
               DecodeLoop(d, slots', seen + {i} + {j}, tail)
  {
    var f, g := d.fields[i], d.fields[j];
    var first := SetSlot(d, slots, i, Holding(f, v));
    Overwrites(d, slots, seen, i, v, OneBytes(g, w) + tail);
    Overwrites(d, first, seen + {i}, j, w, tail);
    assert SetSlot(d, first, j, Holding(g, w)) == SetSlot(d, slots, j, Maybe(Some(w)));
  }

  // ---- Whatever is decoded has its room ----

  /** The value is one its type has room for. */
  ghost predicate ValueHeld(l: LType, v: Value)
    decreases l, 0
  {
    match l
    case BoolT => v == Num(0) || v == Num(1)
    case IntT(bits) => v.Num? && (Width(bits) ==> -Limit(bits) / 2 <= v.n < Limit(bits) / 2)
    case UIntT(bits) => v.Num? && (Width(bits) ==> 0 <= v.n < Limit(bits))
    case SIntT(bits) => v.Num? && (Width(bits) ==> -Limit(bits) / 2 <= v.n < Limit(bits) / 2)
    case Fixed32T => v.Num? && 0 <= v.n < 0x1_0000_0000
    case Fixed64T => v.Num? && 0 <= v.n < 0x1_0000_0000_0000_0000
    case BytesT(max) => v.Blob? && |v.b| <= max
    case StringT(size) => v.Blob? && (v.b == [] || |v.b| + 1 <= size)
    case SubT(d) => v.Msg? && AllHeld(d, v.slots)
  }

  ghost predicate SlotHeld(f: Field, s: Slot)
    decreases f, 0
  {
    match f.h
    case Required => s.One? && ValueHeld(f.l, s.v)
    case Singular => s.One? && ValueHeld(f.l, s.v)
    case Optional => s.Maybe? && (s.o.Some? ==> ValueHeld(f.l, s.o.value))
    case Oneof(_) => s.Maybe? && (s.o.Some? ==> ValueHeld(f.l, s.o.value))
    case Repeated(max) => s.Many? && |s.vs| <= max && forall i | 0 <= i < |s.vs| :: ValueHeld(f.l, s.vs[i])
  }

  ghost predicate AllHeld(d: Desc, slots: seq<Slot>)
    decreases d, 0
  {
    |slots| == |d.fields| && forall i | 0 <= i < |slots| :: SlotHeld(d.fields[i], slots[i])
  }

  lemma DefaultHeld(l: LType)
    ensures ValueHeld(l, DefaultValue(l))
    decreases l, 0
  {
    if l.SubT? {
      DefaultsHeld(l.d);
    }
  }

  lemma DefaultsHeld(d: Desc)
    ensures AllHeld(d, DefaultSlots(d, |d.fields|))
    decreases d, 0
  {
    forall i: nat | i < |d.fields| ensures SlotHeld(d.fields[i], DefaultSlots(d, |d.fields|)[i]) {
      DefaultAt(d, |d.fields|, i);
      DefaultHeld(d.fields[i].l);
    }
  }

  lemma DecodedValueHeld(l: LType, cur: Value, input: Bytes)
    requires ValueHeld(l, cur)
    ensures var r := DecodeValue(l, cur, input); r.Some? ==> ValueHeld(l, r.value.0)
    decreases l, 0
  {
    match l
    case SubT(d) =>
      var b := Protobuf.Delimited(input);
      if b.Some? {
        LoopHeld(d, cur.slots, {}, b.value.0);
      }
    case Fixed64T =>
      if |input| >= 8 {
        Fixed64Range(input[..8]);
      }
    case _ =>
  }

  lemma Fixed64Range(b: Bytes)
    requires |b| == 8
    ensures 0 <= DecodeFixed64(b) < 0x1_0000_0000_0000_0000
  {
    var lo, hi := DecodeFixed32(b[..4]), DecodeFixed32(b[4..]);
  }

  lemma PackedHeld(l: LType, vs: seq<Value>, max: nat, input: Bytes)
    requires |vs| <= max && forall i | 0 <= i < |vs| :: ValueHeld(l, vs[i])
    ensures var r := DecodePacked(l, vs, max, input);
            r.Some? ==> |r.value| <= max && forall i | 0 <= i < |r.value| :: ValueHeld(l, r.value[i])
    decreases l, 1, max - |vs|
  {
    if input != [] && |vs| < max {
      DefaultHeld(l);
      DecodedValueHeld(l, DefaultValue(l), input);
      var r := DecodeValue(l, DefaultValue(l), input);
      if r.Some? {
        PackedHeld(l, vs + [r.value.0], max, r.value.1);
      }
    }
  }

  lemma DecodedSlotHeld(f: Field, s: Slot, wire: nat, input: Bytes)
    requires SlotHeld(f, s)
    ensures var r := DecodeSlot(f, s, wire, input); r.Some? ==> SlotHeld(f, r.value.0)
    decreases f, 0
  {
    DefaultHeld(f.l);
    match f.h
    case Repeated(max) =>
      if wire == 2 && Packable(f.l) {
        var b := Protobuf.Delimited(input);
        if b.Some? {
          PackedHeld(f.l, s.vs, max, b.value.0);
        }
      } else {
        DecodedValueHeld(f.l, DefaultValue(f.l), input);
      }
    case Required => DecodedValueHeld(f.l, s.v, input);
    case Singular => DecodedValueHeld(f.l, s.v, input);
    case _ => DecodedValueHeld(f.l, if s.o.Some? then s.o.value else DefaultValue(f.l), input);
  }

  lemma LoopHeld(d: Desc, slots: seq<Slot>, seen: set<nat>, input: Bytes)
    requires AllHeld(d, slots)
    ensures var r := DecodeLoop(d, slots, seen, input); r.Some? ==> AllHeld(d, r.value)
    decreases d, 0, |input|
  {
    if input != [] && Get32(input).Some? && Get32(input).value.0 != 0 {
      var (key, rest) := Get32(input).value;
      var i := Find(d, key / 8, 0);
      if i == |d.fields| {
        var skipped := SkipUnknown(d, key, rest);
        if skipped.Some? {
          LoopHeld(d, slots, seen, skipped.value);
        }
      } else {
        var r := DecodeSlot(d.fields[i], slots[i], key % 8, rest);
        DecodedSlotHeld(d.fields[i], slots[i], key % 8, rest);
        if r.Some? {
          LoopHeld(d, SetSlot(d, slots, i, r.value.0), seen + {i}, r.value.1);
        }
      }
    }
  }

  /** Whatever the input, every number decoded is within its type and every string, byte string and array within its
      room, in submessages too. */
  lemma DecodedIsHeld(d: Desc, input: Bytes)
    ensures Decode(d, input).Some? ==> AllHeld(d, Decode(d, input).value)
  {
    DefaultsHeld(d);
    LoopHeld(d, DefaultSlots(d, |d.fields|), {}, input);
  }
}
