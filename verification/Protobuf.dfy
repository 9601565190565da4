/** Protocol Buffers messages as nanopb encodes and decodes them (nanopb: pb_encode.c, pb_decode.c, pb_common.c;
    Protocol Buffers encoding guide, "Base 128 Varints" and "Message Structure").  A descriptor lists the fields of a
    message; a message holds a slot for each. */
module Protobuf {
  import opened DbFormat
  import opened Coding

  // ---- Descriptors and messages ----

  datatype LType =
    | BoolT
    | IntT(bits: nat)
    | UIntT(bits: nat)
    | SIntT(bits: nat)
    | Fixed32T
    | Fixed64T
    | BytesT(max: nat)
    | StringT(size: nat)
    | SubT(d: Desc)

  /** Optional has an explicit flag; Singular is the proto3 kind, present when it is not zero. */
  datatype HType = Required | Optional | Singular | Repeated(max: nat) | Oneof(group: nat)

  datatype Field = Field(tag: nat, h: HType, l: LType)

  datatype Desc = Desc(fields: seq<Field>)

  datatype Value = Num(n: int) | Blob(b: Bytes) | Msg(slots: seq<Slot>)

  datatype Slot = One(v: Value) | Maybe(o: Option<Value>) | Many(vs: seq<Value>)

  predicate Packable(l: LType) {
    l.BoolT? || l.IntT? || l.UIntT? || l.SIntT? || l.Fixed32T? || l.Fixed64T?
  }

  predicate Width(bits: nat) {
    bits == 8 || bits == 16 || bits == 32 || bits == 64
  }

  function Limit(bits: nat): int
    requires Width(bits)
  {
    if bits == 8 then 0x100 else if bits == 16 then 0x1_0000 else if bits == 32 then WIDTH32 else WIDTH64
  }

  // ---- Numbers ----

  /** The signed number with these low bits. */
  function Signed(u: nat, width: int): int
    requires width > 0
  {
    var x := u % width;
    if x < width / 2 then x else x - width
  }

  function ZigZag(n: int): nat {
    if n < 0 then -2 * n - 1 else 2 * n
  }

  function UnZigZag(u: nat): int {
    if u % 2 == 1 then -(u / 2) - 1 else u / 2
  }

  // ---- What a field can hold ----

  // A string is what its buffer holds before the first zero byte, or all of the buffer.  Counts are not yet compared
  // with the room there is.

  predicate ValueOk(l: LType, v: Value)
    decreases l, 0
  {
    match l
    case BoolT => v == Num(0) || v == Num(1)
    case IntT(bits) => Width(bits) && v.Num? && -Limit(bits) / 2 <= v.n < Limit(bits) / 2
    case UIntT(bits) => Width(bits) && v.Num? && 0 <= v.n < Limit(bits)
    case SIntT(bits) => Width(bits) && v.Num? && -Limit(bits) / 2 <= v.n < Limit(bits) / 2
    case Fixed32T => v.Num? && 0 <= v.n < WIDTH32
    case Fixed64T => v.Num? && 0 <= v.n < WIDTH64
    case BytesT(_) => v.Blob? && |v.b| < WIDTH32
    case StringT(size) => v.Blob? && |v.b| <= size < WIDTH32 && 0 !in v.b
    case SubT(d) => v.Msg? && MsgOk(d, v.slots)
  }

  predicate SlotOk(f: Field, s: Slot)
    decreases f, 0
  {
    match f.h
    case Required => s.One? && ValueOk(f.l, s.v)
    case Singular => s.One? && ValueOk(f.l, s.v)
    case Optional => s.Maybe? && (s.o.Some? ==> ValueOk(f.l, s.o.value))
    case Oneof(_) => s.Maybe? && (s.o.Some? ==> ValueOk(f.l, s.o.value))
    case Repeated(_) => s.Many? && forall i | 0 <= i < |s.vs| :: ValueOk(f.l, s.vs[i])
  }

  /** Tags name fields. */
  predicate TagsOk(d: Desc) {
    && (forall i | 0 <= i < |d.fields| :: 0 < d.fields[i].tag < 0x2000_0000)
    && (forall i, j | 0 <= i < j < |d.fields| :: d.fields[i].tag != d.fields[j].tag)
  }

  /** At most one member of a oneof is chosen. */
  predicate Exclusive(d: Desc, slots: seq<Slot>) {
    |slots| == |d.fields| && forall i, j | 0 <= i < j < |slots| && d.fields[i].h.Oneof?
      && d.fields[j].h == d.fields[i].h ::
      slots[i] == Maybe(None) || slots[j] == Maybe(None)
  }

  predicate MsgOk(d: Desc, slots: seq<Slot>)
    decreases d, 0
  {
    && |slots| == |d.fields| && TagsOk(d) && Exclusive(d, slots)
    && forall i | 0 <= i < |slots| :: SlotOk(d.fields[i], slots[i])
  }

  // ---- Defaults ----

  function DefaultValue(l: LType): Value
    decreases l, 0
  {
    match l
    case BytesT(_) => Blob([])
    case StringT(_) => Blob([])
    case SubT(d) => Msg(DefaultSlots(d, |d.fields|))
    case _ => Num(0)
  }

  function DefaultSlot(f: Field): Slot
    decreases f, 0
  {
    match f.h
    case Required => One(DefaultValue(f.l))
    case Singular => One(DefaultValue(f.l))
    case Optional => Maybe(None)
    case Oneof(_) => Maybe(None)
    case Repeated(_) => Many([])
  }

  /** The first `n` slots of a fresh message. */
  function DefaultSlots(d: Desc, n: nat): (r: seq<Slot>)
    requires n <= |d.fields|
    ensures |r| == n
    decreases d, n
  {
    if n == 0 then [] else DefaultSlots(d, n - 1) + [DefaultSlot(d.fields[n - 1])]
  }

  /** pb_check_proto3_default_value. */
  predicate IsDefault(f: Field, s: Slot)
    decreases f, 0
  {
    match f.h
    case Required => false
    case Repeated(_) => s == Many([])
    case Oneof(_) => s == Maybe(None)
    case Optional => s == Maybe(None)
    case Singular => s.One? && IsZero(f.l, s.v)
  }

  predicate IsZero(l: LType, v: Value)
    decreases l, 0
  {
    match l
    case BytesT(_) => v.Blob? && v.b == []
    case StringT(_) => v.Blob? && v.b == []
    case SubT(d) => v.Msg? && |v.slots| == |d.fields| && forall i | 0 <= i < |v.slots| ::
        IsDefault(d.fields[i], v.slots[i])
    case _ => v == Num(0)
  }

  // ---- Encoding ----

  function WireType(l: LType): nat {
    match l
    case BytesT(_) => 2
    case StringT(_) => 2
    case SubT(_) => 2
    case Fixed32T => 5
    case Fixed64T => 1
    case _ => 0
  }

  function WireTag(tag: nat, wire: nat): Bytes {
    Varint(tag * 8 + wire)
  }

  function EncodeValue(l: LType, v: Value): Bytes
    requires ValueOk(l, v)
    decreases l, 1
  {
    match l
    case BoolT => Varint(v.n)
    case IntT(_) => Varint(v.n % WIDTH64)
    case UIntT(_) => Varint(v.n)
    case SIntT(_) => Varint(ZigZag(v.n))
    case Fixed32T => Fixed32(v.n)
    case Fixed64T => Fixed64(v.n)
    case BytesT(_) => Varint(|v.b|) + v.b
    case StringT(_) => Varint(|v.b|) + v.b
    case SubT(d) => var m := EncodeFrom(d, v.slots, 0); Varint(|m|) + m
  }

  /** The values one after the other, from the `i`th on. */
  function EncodePacked(l: LType, vs: seq<Value>): Bytes
    requires forall i | 0 <= i < |vs| :: ValueOk(l, vs[i])
    decreases l, 2, |vs|
  {
    if vs == [] then [] else EncodeValue(l, vs[0]) + EncodePacked(l, vs[1..])
  }

  /** Each value under its own tag. */
  function EncodeEach(f: Field, vs: seq<Value>): Bytes
    requires forall i | 0 <= i < |vs| :: ValueOk(f.l, vs[i])
    decreases f, 0, |vs|
  {
    if vs == [] then [] else WireTag(f.tag, WireType(f.l)) + (EncodeValue(f.l, vs[0]) + EncodeEach(f, vs[1..]))
  }

  function EncodeField(f: Field, s: Slot): Bytes
    requires SlotOk(f, s)
    decreases f, 1
  {
    match f.h
    case Required => WireTag(f.tag, WireType(f.l)) + EncodeValue(f.l, s.v)
    case Singular => if IsZero(f.l, s.v) then [] else WireTag(f.tag, WireType(f.l)) + EncodeValue(f.l, s.v)
    case Optional => if s.o.None? then [] else WireTag(f.tag, WireType(f.l)) + EncodeValue(f.l, s.o.value)
    case Oneof(_) => if s.o.None? then [] else WireTag(f.tag, WireType(f.l)) + EncodeValue(f.l, s.o.value)
    case Repeated(_) =>
      if s.vs == [] then []
      else if Packable(f.l) then var p := EncodePacked(f.l, s.vs); WireTag(f.tag, 2) + (Varint(|p|) + p)
      else EncodeEach(f, s.vs)
  }

  /** The fields from the `i`th on. */
  function EncodeFrom(d: Desc, slots: seq<Slot>, i: nat): Bytes
    requires MsgOk(d, slots) && i <= |slots|
    decreases d, 1, |slots| - i
  {
    if i == |slots| then [] else EncodeField(d.fields[i], slots[i]) + EncodeFrom(d, slots, i + 1)
  }

  // ---- Room ----

  // Whether the counts are within the room the descriptor gives, as the encoder checks it, and (`strict`) as the
  // decoder does: it also wants room for the zero byte that ends a string, and lengths of 32 bits.

  predicate ValueFits(l: LType, v: Value, strict: bool)
    requires ValueOk(l, v)
    decreases l, 2
  {
    match l
    case BytesT(max) => |v.b| <= max
    case StringT(size) => strict ==> |v.b| + 1 <= size
    case SubT(d) => MsgFits(d, v.slots, 0, strict) && (strict ==> |EncodeFrom(d, v.slots, 0)| < WIDTH32)
    case _ => true
  }

  predicate AllFit(l: LType, vs: seq<Value>, strict: bool)
    requires forall i | 0 <= i < |vs| :: ValueOk(l, vs[i])
    decreases l, 3, |vs|
  {
    vs == [] || (ValueFits(l, vs[0], strict) && AllFit(l, vs[1..], strict))
  }

  predicate SlotFits(f: Field, s: Slot, strict: bool)
    requires SlotOk(f, s)
    decreases f, 2
  {
    match f.h
    case Required => ValueFits(f.l, s.v, strict)
    case Singular => IsZero(f.l, s.v) || ValueFits(f.l, s.v, strict)
    case Optional => s.o.None? || ValueFits(f.l, s.o.value, strict)
    case Oneof(_) => s.o.None? || ValueFits(f.l, s.o.value, strict)
    case Repeated(max) =>
      && |s.vs| <= max && AllFit(f.l, s.vs, strict)
      && (strict && Packable(f.l) ==> |EncodePacked(f.l, s.vs)| < WIDTH32)
  }

  /** The fields from the `i`th on. */
  predicate MsgFits(d: Desc, slots: seq<Slot>, i: nat, strict: bool)
    requires MsgOk(d, slots) && i <= |slots|
    decreases d, 2, |slots| - i
  {
    i == |slots| || (SlotFits(d.fields[i], slots[i], strict) && MsgFits(d, slots, i + 1, strict))
  }

  // ---- Decoding ----

  /** A number moved up to the place `bitpos`, for the places a 32-bit number has bits from. */
  function Shift(w: nat, bitpos: nat): nat {
    if bitpos == 7 then 128 * w
    else if bitpos == 14 then 0x4000 * w
    else if bitpos == 21 then 0x20_0000 * w
    else 0x1000_0000 * w
  }

  function Placed(result: nat, b: nat, bitpos: nat): nat {
    (result + Shift(b, bitpos)) % WIDTH32
  }

  /** The rest of a varint for a 32-bit number: past bit 32 there may only be zeros, or the sign bits of a negative
      number. */
  function Loop32(input: Bytes, bitpos: nat, result: nat): (r: Option<(nat, Bytes)>)
    ensures r.Some? ==> |r.value.1| < |input|
  {
    if input == [] then None
    else
      var b := input[0] as nat;
      if bitpos >= 32 && b % 128 != 0 && (result < 0x8000_0000 || b != (if bitpos < 63 then 0xff else 0x01)) then None
      else
        var result' := if bitpos >= 32 then result else Placed(result, b % 128, bitpos);
        if b >= 128 then Loop32(input[1..], bitpos + 7, result')
        else if bitpos + 7 == 35 && b / 16 % 8 != 0 then None
        else Some((result', input[1..]))
  }

  /** pb_decode_varint32. */
  function Get32(input: Bytes): (r: Option<(nat, Bytes)>)
    ensures r.Some? ==> |r.value.1| < |input|
  {
    if input == [] then None
    else if input[0] < 128 then Some((input[0] as nat, input[1..]))
    else Loop32(input[1..], 7, input[0] as nat - 128)
  }

  /** pb_decode_varint. */
  function Get64(input: Bytes): (r: Option<(nat, Bytes)>)
    ensures r.Some? ==> |r.value.1| < |input|
  {
    ScanEats(input, 10);
    GetVarint64(input)
  }

  function SkipVarint(input: Bytes): (r: Option<Bytes>)
    ensures r.Some? ==> |r.value| < |input|
  {
    if input == [] then None else if input[0] < 128 then Some(input[1..]) else SkipVarint(input[1..])
  }

  /** A stretch of the input with its length before it, and what follows. */
  function Delimited(input: Bytes): (r: Option<(Bytes, Bytes)>)
    ensures r.Some? ==> |r.value.0| + |r.value.1| < |input|
  {
    var (n, rest) :- Get32(input);
    if n > |rest| then None else Some((rest[..n], rest[n..]))
  }

  /** pb_skip_field. */
  function Skip(wire: nat, input: Bytes): (r: Option<Bytes>)
    ensures r.Some? ==> |r.value| <= |input|
  {
    if wire == 0 then SkipVarint(input)
    else if wire == 1 then if |input| < 8 then None else Some(input[8..])
    else if wire == 2 then
      var (_, rest) :- Delimited(input);
      Some(rest)
    else if wire == 5 then if |input| < 4 then None else Some(input[4..])
    else None
  }

  /** A field that is not in the descriptor is skipped.  The end mark of an empty descriptor has tag 0 and passes for a
      bool of that tag. */
  function SkipUnknown(d: Desc, key: nat, input: Bytes): (r: Option<Bytes>)
    ensures r.Some? ==> |r.value| <= |input|
  {
    if d.fields == [] && key / 8 == 0 then
      var (_, rest) :- Get32(input);
      Some(rest)
    else Skip(key % 8, input)
  }

  function InRange(bits: nat, n: int, rest: Bytes): Option<(Value, Bytes)>
    requires Width(bits)
  {
    if -Limit(bits) / 2 <= n < Limit(bits) / 2 then Some((Num(n), rest)) else None
  }

  /** The slots to decode a submessage into. */
  function SlotsOf(d: Desc, cur: Value): (r: seq<Slot>)
    ensures |r| == |d.fields|
  {
    if cur.Msg? && |cur.slots| == |d.fields| then cur.slots else DefaultSlots(d, |d.fields|)
  }

  function DecodeValue(l: LType, cur: Value, input: Bytes): (r: Option<(Value, Bytes)>)
    ensures r.Some? ==> |r.value.1| <= |input|
    decreases l, 0
  {
    match l
    case BoolT =>
      var (u, rest) :- Get32(input);
      Some((Num(if u != 0 then 1 else 0), rest))
    case IntT(bits) =>
      var (u, rest) :- Get64(input);
      if !Width(bits) then None else InRange(bits, Signed(u, if bits == 64 then WIDTH64 else WIDTH32), rest)
    case UIntT(bits) =>
      var (u, rest) :- Get64(input);
      if !Width(bits) || u >= Limit(bits) then None else Some((Num(u), rest))
    case SIntT(bits) =>
      var (u, rest) :- Get64(input);
      if !Width(bits) then None else InRange(bits, UnZigZag(u), rest)
    case Fixed32T => if |input| < 4 then None else Some((Num(DecodeFixed32(input[..4])), input[4..]))
    case Fixed64T => if |input| < 8 then None else Some((Num(DecodeFixed64(input[..8])), input[8..]))
    case BytesT(max) =>
      var (b, rest) :- Delimited(input);
      if |b| > max then None else Some((Blob(b), rest))
    case StringT(size) =>
      var (b, rest) :- Delimited(input);
      if |b| + 1 > size then None else Some((Blob(b), rest))
    case SubT(d) =>
      var (b, rest) :- Delimited(input);
      var slots :- DecodeLoop(d, SlotsOf(d, cur), {}, b);
      Some((Msg(slots), rest))
  }

  /** The values of a packed array, as many as there is room for; None if any of it is left. */
  function DecodePacked(l: LType, vs: seq<Value>, max: nat, input: Bytes): Option<seq<Value>>
    decreases l, 1, max - |vs|
  {
    if input == [] then Some(vs)
    else if |vs| >= max then None
    else
      var (v, rest) :- DecodeValue(l, DefaultValue(l), input);
      DecodePacked(l, vs + [v], max, rest)
  }

  function DecodeSlot(f: Field, s: Slot, wire: nat, input: Bytes): (r: Option<(Slot, Bytes)>)
    ensures r.Some? ==> |r.value.1| <= |input|
    decreases f, 0
  {
    match f.h
    case Repeated(max) =>
      var vs := if s.Many? then s.vs else [];
      if wire == 2 && Packable(f.l) then
        var (b, rest) :- Delimited(input);
        var vs' :- DecodePacked(f.l, vs, max, b);
        Some((Many(vs'), rest))
      else if |vs| >= max then None
      else
        var (v, rest) :- DecodeValue(f.l, DefaultValue(f.l), input);
        Some((Many(vs + [v]), rest))
    case Required =>
      var (v, rest) :- DecodeValue(f.l, if s.One? then s.v else DefaultValue(f.l), input);
      Some((One(v), rest))
    case Singular =>
      var (v, rest) :- DecodeValue(f.l, if s.One? then s.v else DefaultValue(f.l), input);
      Some((One(v), rest))
    case _ =>
      var (v, rest) :- DecodeValue(f.l, if s.Maybe? && s.o.Some? then s.o.value else DefaultValue(f.l), input);
      Some((Maybe(Some(v)), rest))
  }

  /** pb_field_iter_find: the field with the tag, |d.fields| if there is none. */
  function Find(d: Desc, tag: nat, i: nat): (r: nat)
    requires i <= |d.fields|
    ensures i <= r <= |d.fields| && (r < |d.fields| ==> d.fields[r].tag == tag)
    decreases |d.fields| - i
  {
    if i == |d.fields| || d.fields[i].tag == tag then i else Find(d, tag, i + 1)
  }

  /** A slot is set; choosing a member of a oneof clears the others. */
  function SetSlot(d: Desc, slots: seq<Slot>, i: nat, s: Slot): (r: seq<Slot>)
    requires i < |slots| == |d.fields|
    ensures |r| == |slots|
  {
    seq(|slots|, j requires 0 <= j < |slots| =>
      if j == i then s else if d.fields[i].h.Oneof? && d.fields[j].h == d.fields[i].h then Maybe(None) else slots[j])
  }

  const MAX_REQUIRED: nat := 64

  /** How many of the first `i` fields are required. */
  function RequiredBefore(d: Desc, i: nat): nat
    requires i <= |d.fields|
  {
    if i == 0 then 0 else RequiredBefore(d, i - 1) + (if d.fields[i - 1].h.Required? then 1 else 0)
  }

  /** Every required field that is checked for was seen: the first 64 of them. */
  predicate AllSeen(d: Desc, seen: set<nat>) {
    forall i: nat | i < |d.fields| && d.fields[i].h.Required? && RequiredBefore(d, i) < MAX_REQUIRED :: i in seen
  }

  /** pb_decode_noinit: fields as they come, unknown ones skipped, until the input or a zero tag ends the message. */
  function DecodeLoop(d: Desc, slots: seq<Slot>, seen: set<nat>, input: Bytes): Option<seq<Slot>>
    requires |slots| == |d.fields|
    decreases d, 0, |input|
  {
    if input == [] then if AllSeen(d, seen) then Some(slots) else None
    else
      var (key, rest) :- Get32(input);
      if key == 0 then if AllSeen(d, seen) then Some(slots) else None
      else
        var i := Find(d, key / 8, 0);
        if i == |d.fields| then
          var rest' :- SkipUnknown(d, key, rest);
          DecodeLoop(d, slots, seen, rest')
        else
          var (s, rest') :- DecodeSlot(d.fields[i], slots[i], key % 8, rest);
          DecodeLoop(d, SetSlot(d, slots, i, s), seen + {i}, rest')
  }

  /** pb_decode: into a message of defaults. */
  function Decode(d: Desc, input: Bytes): Option<seq<Slot>> {
    DecodeLoop(d, DefaultSlots(d, |d.fields|), {}, input)
  }

  // ---- Numbers come back ----

  lemma ShiftOn(w: nat, bitpos: nat, r: nat)
    requires bitpos in {7, 14, 21} && r < Shift(1, bitpos)
    ensures var r' := r + Shift(w % 128, bitpos);
            r' < Shift(1, bitpos + 7) <= WIDTH32 && r' + Shift(w / 128, bitpos + 7) == r + Shift(w, bitpos)
  {
  }

  lemma ShiftOver(w: nat, bitpos: nat)
    requires bitpos in {7, 14, 21} && Shift(w, bitpos) >= WIDTH32
    ensures Shift(w / 128, bitpos + 7) >= WIDTH32
  {
  }

  lemma VarintParts(w: nat, rest: Bytes)
    ensures var input := Varint(w) + rest;
            input[0] as nat == (if w < 128 then w else w % 128 + 128)
            && input[1..] == if w < 128 then rest else Varint(w / 128) + rest
  {
  }

  lemma PlacedIs(r: nat, b: nat, bitpos: nat)
    requires r + Shift(b, bitpos) < WIDTH32
    ensures Placed(r, b, bitpos) == r + Shift(b, bitpos)
  {
  }

  /** A byte below bit 32. */
  lemma Loop32Step(w: nat, rest: Bytes, bitpos: nat, r: nat)
    requires bitpos in {7, 14, 21, 28} && (bitpos == 28 ==> w < 16 || w >= 128)
    ensures Loop32(Varint(w) + rest, bitpos, r) ==
            if w >= 128 then Loop32(Varint(w / 128) + rest, bitpos + 7, Placed(r, w % 128, bitpos))
            else Some((Placed(r, w, bitpos), rest))
  {
    VarintParts(w, rest);
    var input := Varint(w) + rest;
    assert input[0] as nat % 128 == w % 128;
  }

  lemma {:induction false} Loop32Trip(w: nat, rest: Bytes, bitpos: nat, r: nat)
    requires bitpos in {7, 14, 21, 28} && r < Shift(1, bitpos) && r + Shift(w, bitpos) < WIDTH32
    ensures Loop32(Varint(w) + rest, bitpos, r) == Some((r + Shift(w, bitpos), rest))
    decreases 28 - bitpos
  {
    assert bitpos == 28 ==> w < 16;
    Loop32Step(w, rest, bitpos, r);
    if w < 128 {
      PlacedIs(r, w, bitpos);
    } else {
      ShiftOn(w, bitpos, r);
      PlacedIs(r, w % 128, bitpos);
      Loop32Trip(w / 128, rest, bitpos + 7, r + Shift(w % 128, bitpos));
    }
  }

  /** Past the 32 bits, a number under 2 to the 63 is not taken for a sign-extended one. */
  lemma {:induction false} Loop32Past(w: nat, rest: Bytes, bitpos: nat, r: nat, k: nat)
    requires bitpos == 63 - 7 * k && 32 <= bitpos && 0 < w < Power128(k)
    ensures Loop32(Varint(w) + rest, bitpos, r) == None
    decreases k
  {
    var input := Varint(w) + rest;
    if w >= 128 {
      assert input[1..] == Varint(w / 128) + rest;
      Loop32Past(w / 128, rest, bitpos + 7, r, k - 1);
    }
  }

  lemma {:induction false} Loop32Over(w: nat, rest: Bytes, bitpos: nat, r: nat, k: nat)
    requires bitpos in {7, 14, 21, 28} && bitpos == 63 - 7 * k && Shift(w, bitpos) >= WIDTH32 && w < Power128(k)
    ensures Loop32(Varint(w) + rest, bitpos, r) == None
    decreases k
  {
    if bitpos < 28 {
      Loop32Step(w, rest, bitpos, r);
      ShiftOver(w, bitpos);
      Loop32Over(w / 128, rest, bitpos + 7, Placed(r, w % 128, bitpos), k - 1);
    } else if w >= 128 {
      Loop32Step(w, rest, bitpos, r);
      Loop32Past(w / 128, rest, 35, Placed(r, w % 128, bitpos), 4);
    } else {
      VarintParts(w, rest);
    }
  }

  const HUGE: int := 0x8000_0000_0000_0000

  lemma HugeParts(n: nat)
    requires n < HUGE
    ensures n / 128 < Power128(8)
  {
    assert Power128(8) == HUGE / 128;
  }

  lemma Get32Starts(n: nat, rest: Bytes)
    ensures Get32(Varint(n) + rest) ==
            if n < 128 then Some((n, rest)) else Loop32(Varint(n / 128) + rest, 7, n % 128)
  {
    VarintParts(n, rest);
  }

  /** A 32-bit number comes back and a longer one is refused. */
  lemma Get32Trip(n: nat, rest: Bytes)
    requires n < HUGE
    ensures Get32(Varint(n) + rest) == if n < WIDTH32 then Some((n, rest)) else None
  {
    Get32Starts(n, rest);
    if 128 <= n < WIDTH32 {
      Loop32Trip(n / 128, rest, 7, n % 128);
    } else if 128 <= n {
      HugeParts(n);
      Loop32Over(n / 128, rest, 7, n % 128, 8);
    }
  }

  lemma SignedTrip(bits: nat, n: int)
    requires Width(bits) && -Limit(bits) / 2 <= n < Limit(bits) / 2
    ensures Signed(n % WIDTH64, if bits == 64 then WIDTH64 else WIDTH32) == n
  {
    var u := n % WIDTH64;
    assert u == if n < 0 then n + WIDTH64 else n;
    if bits != 64 {
      assert u % WIDTH32 == if n < 0 then n + WIDTH32 else n;
    }
  }

  lemma ZigZagTrip(bits: nat, n: int)
    requires Width(bits) && -Limit(bits) / 2 <= n < Limit(bits) / 2
    ensures ZigZag(n) < WIDTH64 && UnZigZag(ZigZag(n)) == n
  {
  }

  lemma DelimitedAfter(input: Bytes, b: Bytes, rest: Bytes)
    requires Get32(input) == if |b| < WIDTH32 then Some((|b|, b + rest)) else None
    ensures Delimited(input) == if |b| < WIDTH32 then Some((b, rest)) else None
  {
    assert (b + rest)[..|b|] == b && (b + rest)[|b|..] == rest;
  }

  lemma DelimitedTrip(b: Bytes, rest: Bytes)
    requires |b| < HUGE
    ensures Delimited(Varint(|b|) + b + rest) == if |b| < WIDTH32 then Some((b, rest)) else None
  {
    Assoc(Varint(|b|), b, rest);
    Get32Trip(|b|, b + rest);
    DelimitedAfter(Varint(|b|) + (b + rest), b, rest);
  }

  // ---- Values come back ----

  lemma VarintTrip(l: LType, v: Value, rest: Bytes)
    requires ValueOk(l, v) && (l.BoolT? || l.IntT? || l.UIntT? || l.SIntT?)
    ensures DecodeValue(l, DefaultValue(l), EncodeValue(l, v) + rest) == Some((v, rest))
  {
    match l
    case BoolT => Get32Trip(v.n, rest);
    case IntT(bits) =>
      Varint64RoundTrip(v.n % WIDTH64, rest);
      SignedTrip(bits, v.n);
    case UIntT(_) => Varint64RoundTrip(v.n, rest);
    case SIntT(bits) =>
      ZigZagTrip(bits, v.n);
      Varint64RoundTrip(ZigZag(v.n), rest);
  }

  lemma FixedTrip(l: LType, v: Value, rest: Bytes)
    requires ValueOk(l, v) && (l.Fixed32T? || l.Fixed64T?)
    ensures DecodeValue(l, DefaultValue(l), EncodeValue(l, v) + rest) == Some((v, rest))
  {
    var b := EncodeValue(l, v);
    var size := if l.Fixed32T? then 4 else 8;
    if l.Fixed32T? {
      DecodeEncode32(v.n);
    } else {
      Fixed64Trip(v.n);
    }
    assert |b| == size && (b + rest)[..size] == b && (b + rest)[size..] == rest;
  }

  lemma ValueTrip(l: LType, v: Value, rest: Bytes)
    requires ValueOk(l, v) && |EncodeValue(l, v)| < HUGE
    ensures DecodeValue(l, DefaultValue(l), EncodeValue(l, v) + rest) ==
            if ValueFits(l, v, true) then Some((v, rest)) else None
    decreases l, 3
  {
    match l
    case BytesT(_) => DelimitedTrip(v.b, rest);
    case StringT(_) => DelimitedTrip(v.b, rest);
    case SubT(d) =>
      var b := EncodeFrom(d, v.slots, 0);
      DelimitedTrip(b, rest);
      MsgTrip(d, v.slots);
    case Fixed32T => FixedTrip(l, v, rest);
    case Fixed64T => FixedTrip(l, v, rest);
    case _ => VarintTrip(l, v, rest);
  }

  lemma PackedValue(l: LType, v: Value, rest: Bytes)
    requires Packable(l) && ValueOk(l, v)
    ensures DecodeValue(l, DefaultValue(l), EncodeValue(l, v) + rest) == Some((v, rest))
    ensures |EncodeValue(l, v)| > 0
  {
    if l.Fixed32T? || l.Fixed64T? {
      FixedTrip(l, v, rest);
    } else {
      VarintTrip(l, v, rest);
    }
  }

  lemma {:induction false} PackedTrip(l: LType, vs: seq<Value>, done: seq<Value>, max: nat)
    requires Packable(l) && forall i | 0 <= i < |vs| :: ValueOk(l, vs[i])
    ensures DecodePacked(l, done, max, EncodePacked(l, vs)) ==
            if |vs| == 0 || |done| + |vs| <= max then Some(done + vs) else None
    decreases |vs|
  {
    if vs == [] {
      assert done + vs == done;
    } else {
      PackedValue(l, vs[0], EncodePacked(l, vs[1..]));
      if |done| < max {
        PackedTrip(l, vs[1..], done + [vs[0]], max);
        assert done + [vs[0]] + vs[1..] == done + vs;
      }
    }
  }

  lemma {:induction false} PackableFit(l: LType, vs: seq<Value>, strict: bool)
    requires Packable(l) && forall i | 0 <= i < |vs| :: ValueOk(l, vs[i])
    ensures AllFit(l, vs, strict)
    decreases |vs|
  {
    if vs != [] {
      PackableFit(l, vs[1..], strict);
    }
  }

  // ---- Fields come back ----

  lemma {:induction false} FindIs(d: Desc, i: nat, j: nat)
    requires TagsOk(d) && j <= i < |d.fields|
    ensures Find(d, d.fields[i].tag, j) == i
    decreases i - j
  {
    if j < i {
      FindIs(d, i, j + 1);
    }
  }

  /** A tag is read and its field found. */
  lemma TagTrip(d: Desc, slots: seq<Slot>, seen: set<nat>, i: nat, wire: nat, rest: Bytes)
    requires TagsOk(d) && i < |d.fields| == |slots| && wire < 8
    ensures DecodeLoop(d, slots, seen, WireTag(d.fields[i].tag, wire) + rest) ==
            match DecodeSlot(d.fields[i], slots[i], wire, rest)
            case None => None
            case Some((s, rest')) => DecodeLoop(d, SetSlot(d, slots, i, s), seen + {i}, rest')
  {
    var key := d.fields[i].tag * 8 + wire;
    Get32Trip(key, rest);
    assert key / 8 == d.fields[i].tag && key % 8 == wire;
    FindIs(d, i, 0);
  }

  /** No member of a oneof but the `i`th is chosen. */
  predicate Alone(d: Desc, slots: seq<Slot>, i: nat)
    requires i < |d.fields| == |slots|
  {
    forall j | 0 <= j < |slots| && j != i && d.fields[i].h.Oneof? && d.fields[j].h == d.fields[i].h ::
        slots[j] == Maybe(None)
  }

  lemma SetAlone(d: Desc, slots: seq<Slot>, i: nat, s: Slot)
    requires i < |d.fields| == |slots| && Alone(d, slots, i)
    ensures SetSlot(d, slots, i, s) == slots[i := s]
  {
  }

  /** What the loop comes to after a field that fits or does not. */
  function After(d: Desc, slots: seq<Slot>, seen: set<nat>, i: nat, s: Slot, fits: bool, tail: Bytes): Option<seq<Slot>>
    requires i < |d.fields| == |slots|
  {
    if fits then DecodeLoop(d, slots[i := s], seen + {i}, tail) else None
  }

  /** A field with one value. */
  lemma OneTrip(d: Desc, slots: seq<Slot>, seen: set<nat>, i: nat, v: Value, s: Slot, tail: Bytes)
    requires TagsOk(d) && i < |d.fields| == |slots| && Alone(d, slots, i)
    requires var f := d.fields[i]; !f.h.Repeated? && ValueOk(f.l, v) && |EncodeValue(f.l, v)| < HUGE
    requires var f := d.fields[i];
             && slots[i] == DefaultSlot(f)
             && s == if f.h.Required? || f.h.Singular? then One(v) else Maybe(Some(v))
    ensures var f := d.fields[i];
            DecodeLoop(d, slots, seen, WireTag(f.tag, WireType(f.l)) + EncodeValue(f.l, v) + tail) ==
            After(d, slots, seen, i, s, ValueFits(f.l, v, true), tail)
    decreases d, 0
  {
    var f := d.fields[i];
    var t, e := WireTag(f.tag, WireType(f.l)), EncodeValue(f.l, v);
    assert t + e + tail == t + (e + tail);
    TagTrip(d, slots, seen, i, WireType(f.l), e + tail);
    ValueTrip(f.l, v, tail);
    SetAlone(d, slots, i, s);
  }

  /** One value of a repeated field. */
  lemma NextTrip(d: Desc, slots: seq<Slot>, seen: set<nat>, i: nat, v: Value, done: seq<Value>, tail: Bytes)
    requires TagsOk(d) && i < |d.fields| == |slots| && slots[i] == Many(done)
    requires var f := d.fields[i]; f.h.Repeated? && ValueOk(f.l, v) && |EncodeValue(f.l, v)| < HUGE
    ensures var f := d.fields[i];
            DecodeLoop(d, slots, seen, WireTag(f.tag, WireType(f.l)) + (EncodeValue(f.l, v) + tail)) ==
            After(d, slots, seen, i, Many(done + [v]), |done| < f.h.max && ValueFits(f.l, v, true), tail)
    decreases d, 0
  {
    var f := d.fields[i];
    TagTrip(d, slots, seen, i, WireType(f.l), EncodeValue(f.l, v) + tail);
    ValueTrip(f.l, v, tail);
    SetAlone(d, slots, i, Many(done + [v]));
  }

  /** Its values one by one. */
  lemma {:induction false} EachTrip(d: Desc, slots: seq<Slot>, seen: set<nat>, i: nat, vs: seq<Value>, done: seq<Value>,
                                    tail: Bytes)
    requires TagsOk(d) && i < |d.fields| == |slots| && slots[i] == Many(done) && vs != []
    requires var f := d.fields[i]; f.h.Repeated? && forall k | 0 <= k < |vs| :: ValueOk(f.l, vs[k])
    requires |EncodeEach(d.fields[i], vs)| < HUGE
    ensures var f := d.fields[i];
            DecodeLoop(d, slots, seen, EncodeEach(f, vs) + tail) ==
            After(d, slots, seen, i, Many(done + vs), |done| + |vs| <= f.h.max && AllFit(f.l, vs, true), tail)
    decreases d, 1, |vs|
  {
    var f := d.fields[i];
    var t, e, more := WireTag(f.tag, WireType(f.l)), EncodeValue(f.l, vs[0]), EncodeEach(f, vs[1..]);
    assert EncodeEach(f, vs) + tail == t + (e + (more + tail));
    NextTrip(d, slots, seen, i, vs[0], done, more + tail);
    if |vs| > 1 {
      var slots' := slots[i := Many(done + [vs[0]])];
      EachTrip(d, slots', seen + {i}, i, vs[1..], done + [vs[0]], tail);
      AfterTwice(d, slots, seen, i, vs, done, tail);
    } else {
      assert vs == [vs[0]] && more + tail == tail;
    }
  }

  /** Setting a slot twice is setting it once. */
  lemma AfterTwice(d: Desc, slots: seq<Slot>, seen: set<nat>, i: nat, vs: seq<Value>, done: seq<Value>, tail: Bytes)
    requires i < |d.fields| == |slots| && vs != []
    ensures done + [vs[0]] + vs[1..] == done + vs
    ensures forall fits :: After(d, slots[i := Many(done + [vs[0]])], seen + {i}, i, Many(done + vs), fits, tail) ==
                           After(d, slots, seen, i, Many(done + vs), fits, tail)
  {
    assert seen + {i} + {i} == seen + {i};
    assert slots[i := Many(done + [vs[0]])][i := Many(done + vs)] == slots[i := Many(done + vs)];
  }

  lemma PackedFieldTrip(d: Desc, slots: seq<Slot>, seen: set<nat>, i: nat, vs: seq<Value>, tail: Bytes)
    requires TagsOk(d) && i < |d.fields| == |slots| && slots[i] == Many([]) && vs != []
    requires var f := d.fields[i]; f.h.Repeated? && Packable(f.l) && forall k | 0 <= k < |vs| :: ValueOk(f.l, vs[k])
    requires |EncodePacked(d.fields[i].l, vs)| < HUGE
    ensures var f := d.fields[i]; var p := EncodePacked(f.l, vs);
            DecodeLoop(d, slots, seen, WireTag(f.tag, 2) + (Varint(|p|) + p) + tail) ==
            After(d, slots, seen, i, Many(vs), SlotFits(f, Many(vs), true), tail)
  {
    var f := d.fields[i];
    var p := EncodePacked(f.l, vs);
    assert WireTag(f.tag, 2) + (Varint(|p|) + p) + tail == WireTag(f.tag, 2) + (Varint(|p|) + p + tail);
    TagTrip(d, slots, seen, i, 2, Varint(|p|) + p + tail);
    DelimitedTrip(p, tail);
    PackedTrip(f.l, vs, [], f.h.max);
    PackableFit(f.l, vs, true);
    assert [] + vs == vs;
    SetAlone(d, slots, i, Many(vs));
  }

  predicate Present(f: Field, s: Slot)
    requires SlotOk(f, s)
  {
    match f.h
    case Required => true
    case Singular => !IsZero(f.l, s.v)
    case Repeated(_) => s.vs != []
    case _ => s.o.Some?
  }

  /** What is left out as zero is what a fresh message holds. */
  lemma ZeroIsDefault(l: LType, v: Value)
    requires ValueOk(l, v) && IsZero(l, v)
    ensures v == DefaultValue(l)
    decreases l
  {
    if l.SubT? {
      forall i | 0 <= i < |v.slots|
        ensures v.slots[i] == DefaultSlots(l.d, |l.d.fields|)[i]
      {
        DefaultAt(l.d, |l.d.fields|, i);
        assert SlotOk(l.d.fields[i], v.slots[i]) && IsDefault(l.d.fields[i], v.slots[i]);
        if l.d.fields[i].h.Singular? {
          ZeroIsDefault(l.d.fields[i].l, v.slots[i].v);
        }
      }
    }
  }

  lemma {:induction false} DefaultAt(d: Desc, n: nat, i: nat)
    requires i < n <= |d.fields|
    ensures DefaultSlots(d, n)[i] == DefaultSlot(d.fields[i])
    decreases n
  {
    if i < n - 1 {
      DefaultAt(d, n - 1, i);
    }
  }

  lemma AbsentField(f: Field, s: Slot)
    requires SlotOk(f, s) && !Present(f, s)
    ensures EncodeField(f, s) == [] && s == DefaultSlot(f) && SlotFits(f, s, true)
  {
    if f.h.Singular? {
      ZeroIsDefault(f.l, s.v);
    }
  }

  /** A field's bytes set its slot and nothing else, if it fits; if it does not they fail the message. */
  lemma FieldTrip(d: Desc, slots: seq<Slot>, seen: set<nat>, i: nat, s: Slot, tail: Bytes)
    requires TagsOk(d) && i < |d.fields| == |slots|
    requires SlotOk(d.fields[i], s) && Present(d.fields[i], s) && Alone(d, slots, i)
    requires slots[i] == DefaultSlot(d.fields[i]) && |EncodeField(d.fields[i], s)| < HUGE
    ensures var f := d.fields[i];
            DecodeLoop(d, slots, seen, EncodeField(f, s) + tail) ==
                After(d, slots, seen, i, s, SlotFits(f, s, true), tail)
    decreases d, 2
  {
    var f := d.fields[i];
    match f.h
    case Repeated(_) =>
      if Packable(f.l) {
        PackedFieldTrip(d, slots, seen, i, s.vs, tail);
      } else {
        EachTrip(d, slots, seen, i, s.vs, [], tail);
        assert [] + s.vs == s.vs;
      }
    case Required => OneTrip(d, slots, seen, i, s.v, s, tail);
    case Singular => OneTrip(d, slots, seen, i, s.v, s, tail);
    case _ => OneTrip(d, slots, seen, i, s.o.value, s, tail);
  }

  // ---- Messages come back ----

  /** The first `i` slots decoded, the rest still fresh. */
  function Half(d: Desc, slots: seq<Slot>, i: nat): (r: seq<Slot>)
    requires i <= |slots| == |d.fields|
  {
    slots[..i] + DefaultSlots(d, |d.fields|)[i..]
  }

  lemma HalfOn(d: Desc, slots: seq<Slot>, i: nat)
    requires |slots| == |d.fields| && i < |slots|
    ensures Half(d, slots, i)[i] == DefaultSlot(d.fields[i])
    ensures Half(d, slots, i)[i := slots[i]] == Half(d, slots, i + 1)
  {
    DefaultAt(d, |d.fields|, i);
  }

  lemma HalfAlone(d: Desc, slots: seq<Slot>, i: nat)
    requires Exclusive(d, slots) && i < |slots| && SlotOk(d.fields[i], slots[i]) && Present(d.fields[i], slots[i])
    ensures Alone(d, Half(d, slots, i), i)
  {
    var half := Half(d, slots, i);
    if d.fields[i].h.Oneof? {
      assert slots[i] != Maybe(None);
      forall j | 0 <= j < |slots| && j != i && d.fields[j].h == d.fields[i].h
        ensures half[j] == Maybe(None)
      {
        if j > i {
          DefaultAt(d, |d.fields|, j);
        }
      }
    }
  }

  lemma {:induction false} FromTrip(d: Desc, slots: seq<Slot>, i: nat, seen: set<nat>)
    requires MsgOk(d, slots) && i <= |slots| && |EncodeFrom(d, slots, i)| < HUGE
    requires forall k | 0 <= k < i && d.fields[k].h.Required? :: k in seen
    ensures DecodeLoop(d, Half(d, slots, i), seen, EncodeFrom(d, slots, i)) ==
            if MsgFits(d, slots, i, true) then Some(slots) else None
    decreases d, 3, |slots| - i
  {
    var half := Half(d, slots, i);
    if i == |slots| {
      assert half == slots;
    } else {
      var f, tail := d.fields[i], EncodeFrom(d, slots, i + 1);
      HalfOn(d, slots, i);
      if Present(f, slots[i]) {
        HalfAlone(d, slots, i);
        FieldTrip(d, half, seen, i, slots[i], tail);
        FromTrip(d, slots, i + 1, seen + {i});
      } else {
        AbsentField(f, slots[i]);
        assert half[i := slots[i]] == half && EncodeField(f, slots[i]) + tail == tail;
        FromTrip(d, slots, i + 1, seen);
      }
    }
  }

  /** A message decodes to itself exactly when it fits what the decoder has room for, and is refused otherwise. */
  lemma MsgTrip(d: Desc, slots: seq<Slot>)
    requires MsgOk(d, slots) && |EncodeFrom(d, slots, 0)| < HUGE
    ensures Decode(d, EncodeFrom(d, slots, 0)) == if MsgFits(d, slots, 0, true) then Some(slots) else None
    decreases d, 4
  {
    assert Half(d, slots, 0) == DefaultSlots(d, |d.fields|);
    FromTrip(d, slots, 0, {});
  }

  /** The encoder takes a string that fills its buffer; the decoder wants room for a zero byte and refuses it. */
  lemma FullStringIsLost()
    ensures var d := Desc([Field(1, Required, StringT(1))]); var slots := [One(Blob([65]))];
            MsgOk(d, slots) && MsgFits(d, slots, 0, false) && Decode(d, EncodeFrom(d, slots, 0)) == None
  {
    var f := Field(1, Required, StringT(1));
    var d := Desc([f]);
    var slots := [One(Blob([65]))];
    assert SlotOk(d.fields[0], slots[0]);
    assert SlotFits(d.fields[0], slots[0], false) && !SlotFits(d.fields[0], slots[0], true);
    assert MsgFits(d, slots, 1, false) && !MsgFits(d, slots, 0, true);
    assert EncodeFrom(d, slots, 1) == [];
    assert |Varint(10)| == 1 && |Varint(1)| == 1;
    MsgTrip(d, slots);
  }
}
