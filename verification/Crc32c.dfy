/** CRC-32C, section 12.1 of RFC 3720: the four-lane, table-driven form against one bit at a time (util/crc32c.cc).
    Bytes and 32-bit words are their bits, lowest first. */
module Crc32c {

  type Bits = seq<bool>
  datatype Register = Register(bits: Bits)
  type Word = w: Register | |w.bits| == 32 witness Register(seq(32, _ => false))
  type Octet = w: Register | |w.bits| == 8 witness Register(seq(8, _ => false))

  function Zeros(n: nat): (r: Bits)
    ensures |r| == n
  {
    seq(n, _ => false)
  }

  const ZERO: Word := Register(Zeros(32))

  function Xor(a: Word, b: Word): (r: Word) {
    Register(seq(32, i requires 0 <= i < 32 => a.bits[i] != b.bits[i]))
  }

  lemma SameBits(a: Register, b: Register)
    requires |a.bits| == |b.bits| && forall i | 0 <= i < |a.bits| :: a.bits[i] == b.bits[i]
    ensures a == b
  {
    assert a.bits == b.bits;
  }

  /** The byte in bits `k` to `k + 7` of a word. */
  function Place(b: Octet, k: nat): Word
    requires k <= 24
  {
    Register(Zeros(k) + b.bits + Zeros(24 - k))
  }

  /** 0x82f63b78, the polynomial with its bits reversed. */
  function Polynomial(): Word {
    Register(seq(32, i => i in {3, 4, 5, 6, 8, 9, 11, 12, 13, 17, 18, 20, 21, 22, 23, 25, 31}))
  }

  // ---- One bit at a time ----

  /** Shift one bit out of the register, and divide by the polynomial if it was set. */
  function BitStep(x: Word): Word {
    Xor(Register(x.bits[1..] + [false]), if x.bits[0] then Polynomial() else ZERO)
  }

  function BitSteps(x: Word, n: nat): Word
    decreases n, x
  {
    if n == 0 then x else BitSteps(BitStep(x), n - 1)
  }

  /** The register after the bytes of `data`, from `l`. */
  function Fold(l: Word, data: seq<Octet>): Word
    decreases |data|
  {
    if data == [] then l else Fold(BitSteps(Xor(l, Place(data[0], 0)), 8), data[1..])
  }

  /** The CRC of some bytes followed by `data`, given the CRC of those bytes. */
  function Crc(crc: Word, data: seq<Octet>): Word {
    Not(Fold(Not(crc), data))
  }

  function Not(x: Word): Word {
    Register(seq(32, i requires 0 <= i < 32 => !x.bits[i]))
  }

  lemma NotNot(x: Word)
    ensures Not(Not(x)) == x
  {
    SameBits(Not(Not(x)), x);
  }

  lemma {:induction false} FoldConcat(l: Word, a: seq<Octet>, b: seq<Octet>)
    ensures Fold(l, a + b) == Fold(Fold(l, a), b)
    decreases |a|
  {
    if a == [] {
      assert a + b == b;
    } else {
      assert (a + b)[0] == a[0] && (a + b)[1..] == a[1..] + b;
      FoldConcat(BitSteps(Xor(l, Place(a[0], 0)), 8), a[1..], b);
    }
  }

  /** The CRC of a concatenation is got by extending. */
  lemma CrcConcat(crc: Word, a: seq<Octet>, b: seq<Octet>)
    ensures Crc(Crc(crc, a), b) == Crc(crc, a + b)
  {
    FoldConcat(Not(crc), a, b);
    NotNot(Fold(Not(crc), a));
  }

  // ---- Exclusive or ----

  lemma XorZero(x: Word)
    ensures Xor(x, ZERO) == x && Xor(ZERO, x) == x
  {
    SameBits(Xor(x, ZERO), x);
    SameBits(Xor(ZERO, x), x);
  }

  lemma XorComm(x: Word, y: Word)
    ensures Xor(x, y) == Xor(y, x)
  {
    SameBits(Xor(x, y), Xor(y, x));
  }

  lemma XorSwap(x: Word, y: Word, z: Word)
    ensures Xor(x, Xor(y, z)) == Xor(Xor(z, x), y)
  {
    SameBits(Xor(x, Xor(y, z)), Xor(Xor(z, x), y));
  }

  lemma XorAssoc(x: Word, y: Word, z: Word)
    ensures Xor(Xor(x, y), z) == Xor(x, Xor(y, z))
  {
    SameBits(Xor(Xor(x, y), z), Xor(x, Xor(y, z)));
  }

  // ---- Linearity ----

  lemma BitStepLinear(x: Word, y: Word)
    ensures BitStep(Xor(x, y)) == Xor(BitStep(x), BitStep(y))
  {
    var l, r := BitStep(Xor(x, y)), Xor(BitStep(x), BitStep(y));
    forall i | 0 <= i < 32 ensures l.bits[i] == r.bits[i] {
      if i < 31 {
        assert Xor(x, y).bits[1..][i] == Xor(x, y).bits[i + 1] && x.bits[1..][i] == x.bits[i + 1]
               && y.bits[1..][i] == y.bits[i + 1];
      }
    }
    SameBits(l, r);
  }

  lemma {:induction false} Linear(x: Word, y: Word, n: nat)
    ensures BitSteps(Xor(x, y), n) == Xor(BitSteps(x, n), BitSteps(y, n))
    decreases n
  {
    if n > 0 {
      BitStepLinear(x, y);
      Linear(BitStep(x), BitStep(y), n - 1);
    }
  }

  lemma {:induction false} StepsJoin(x: Word, m: nat, n: nat)
    ensures BitSteps(BitSteps(x, m), n) == BitSteps(x, m + n)
    decreases m
  {
    if m > 0 {
      StepsJoin(BitStep(x), m - 1, n);
    }
  }

  /** Zero bits at the bottom are shifted out, and the rest moves down unchanged. */
  lemma {:induction false} ShiftsOut(y: Bits, k: nat)
    requires k <= 32 && |y| == 32 - k
    ensures BitSteps(Register(Zeros(k) + y), k) == Register(y + Zeros(k))
    decreases k
  {
    if k > 0 {
      var x := Register(Zeros(k) + y);
      XorZero(Register(x.bits[1..] + [false]));
      assert x.bits[1..] + [false] == Zeros(k - 1) + (y + [false]);
      ShiftsOut(y + [false], k - 1);
      assert (y + [false]) + Zeros(k - 1) == y + Zeros(k);
    } else {
      assert Zeros(0) + y == y + Zeros(0);
    }
  }

  // ---- The tables ----

  function Pow2(n: nat): nat {
    if n == 0 then 1 else 2 * Pow2(n - 1)
  }

  /** The number the bits stand for, lowest first. */
  function Number(b: Bits): (n: nat)
    ensures n < Pow2(|b|)
  {
    if b == [] then 0 else (if b[0] then 1 else 0) + 2 * Number(b[1..])
  }

  function Index(b: Octet): (n: nat)
    ensures n < 256
  {
    assert Pow2(8) == 256;
    Number(b.bits)
  }

  type Table = t: seq<Word> | |t| == 256 witness seq(256, _ => ZERO)

  function At(t: Table, b: Octet): Word {
    t[Index(b)]
  }

  datatype Tables = Tables(octet: Table, stride0: Table, stride1: Table, stride2: Table, stride3: Table)

  /** The table holds, for each byte, what the byte in that place becomes after `n` bits. */
  ghost predicate Tabulates(t: Table, place: nat, n: nat)
    requires place <= 24
  {
    forall b: Octet :: At(t, b) == BitSteps(Place(b, place), n)
  }

  /** The byte table advances a byte past itself; each stride table advances one byte of a word past 16 bytes. */
  ghost predicate TablesOk(t: Tables) {
    && Tabulates(t.octet, 0, 8)
    && Tabulates(t.stride3, 0, 128) && Tabulates(t.stride2, 8, 128) && Tabulates(t.stride1, 16, 128)
    && Tabulates(t.stride0, 24, 128)
  }

  function BitsOf(n: nat, k: nat): (r: Bits)
    ensures |r| == k
    decreases k
  {
    if k == 0 then [] else [n % 2 == 1] + BitsOf(n / 2, k - 1)
  }

  lemma {:induction false} BitsOfNumber(b: Bits)
    ensures BitsOf(Number(b), |b|) == b
  {
    if b != [] {
      BitsOfNumber(b[1..]);
      assert Number(b) / 2 == Number(b[1..]) && (Number(b) % 2 == 1) == b[0];
    }
  }

  function MakeTable(place: nat, n: nat): Table
    requires place <= 24
  {
    seq(256, i requires 0 <= i < 256 => BitSteps(Place(Register(BitsOf(i, 8)), place), n))
  }

  /** There are such tables. */
  lemma TablesExist()
    ensures TablesOk(Tables(MakeTable(0, 8), MakeTable(24, 128), MakeTable(16, 128), MakeTable(8, 128),
              MakeTable(0, 128)))
  {
    forall b: Octet, place: nat, n: nat | place <= 24
        ensures At(MakeTable(place, n), b) == BitSteps(Place(b, place), n) {
      BitsOfNumber(b.bits);
    }
  }

  // ---- The steps ----

  /** The register moved down one byte and the table entry for the byte that fell out. */
  function ShiftByte(t: Tables, x: Word): Word {
    Xor(At(t.octet, ByteOf(x, 0)), Down(x))
  }

  /** Byte `k` of a word. */
  function ByteOf(x: Word, k: nat): Octet
    requires k < 4
  {
    Register(x.bits[8 * k..8 * k + 8])
  }

  /** A word shifted right by a byte. */
  function Down(x: Word): Word {
    Register(x.bits[8..] + Zeros(8))
  }

  /** The three higher bytes in place. */
  function High(x: Word): Word {
    Register(Zeros(8) + x.bits[8..])
  }

  lemma LowHigh(x: Word)
    ensures Xor(Place(ByteOf(x, 0), 0), High(x)) == x
  {
    SameBits(Xor(Place(ByteOf(x, 0), 0), High(x)), x);
  }

  lemma ShiftByteIs(t: Tables, x: Word)
    requires TablesOk(t)
    ensures ShiftByte(t, x) == BitSteps(x, 8)
  {
    LowHigh(x);
    Linear(Place(ByteOf(x, 0), 0), High(x), 8);
    ShiftsOut(x.bits[8..], 8);
  }

  /** STEP1: one byte of data. */
  function Step1(t: Tables, l: Word, b: Octet): Word {
    Xor(At(t.octet, XorOctet(ByteOf(l, 0), b)), Down(l))
  }

  function XorOctet(a: Octet, b: Octet): Octet {
    Register(seq(8, i requires 0 <= i < 8 => a.bits[i] != b.bits[i]))
  }

  lemma Step1Is(t: Tables, l: Word, b: Octet)
    requires TablesOk(t)
    ensures Step1(t, l, b) == BitSteps(Xor(l, Place(b, 0)), 8)
  {
    var x := Xor(l, Place(b, 0));
    SameBits(ByteOf(x, 0), XorOctet(ByteOf(l, 0), b));
    SameBits(Down(x), Down(l));
    ShiftByteIs(t, x);
  }

  function ReadWord(p: seq<Octet>): Word
    requires |p| >= 4
  {
    Register(p[0].bits + p[1].bits + p[2].bits + p[3].bits)
  }

  /** A word shifted left by a byte. */
  function Up(x: Word): Word {
    Register(Zeros(8) + x.bits[..24])
  }

  /** The bytes from the bottom of a word up, zeros above. */
  function Pack(p: seq<Octet>): Word
    requires |p| <= 4
  {
    if p == [] then ZERO else Xor(Place(p[0], 0), Up(Pack(p[1..])))
  }

  lemma {:induction false} PackedTail(p: seq<Octet>, i: nat)
    requires |p| <= 4 && 8 * |p| <= i < 32
    ensures !Pack(p).bits[i]
    decreases |p|
  {
    if p != [] {
      PackedTail(p[1..], i - 8);
    }
  }

  /** Feeding bytes one at a time is feeding them as one word. */
  lemma {:induction false} PackedFold(l: Word, p: seq<Octet>)
    requires |p| <= 4
    ensures BitSteps(Xor(l, Pack(p)), 8 * |p|) == Fold(l, p)
    decreases |p|
  {
    if p == [] {
      XorZero(l);
    } else {
      var rest, l1 := p[1..], BitSteps(Xor(l, Place(p[0], 0)), 8);
      var n := 8 * |rest|;
      OneByteIn(l, p);
      StepsJoin(Xor(l, Pack(p)), 8, n);
      PackedFold(l1, rest);
      assert 8 + n == 8 * |p|;
      assert BitSteps(Xor(l1, Pack(rest)), n) == Fold(l1, rest);
    }
  }

  lemma OneByteIn(l: Word, p: seq<Octet>)
    requires 0 < |p| <= 4
    ensures BitSteps(Xor(l, Pack(p)), 8) == Xor(BitSteps(Xor(l, Place(p[0], 0)), 8), Pack(p[1..]))
  {
    var rest := Pack(p[1..]);
    XorAssoc(l, Place(p[0], 0), Up(rest));
    Linear(Xor(l, Place(p[0], 0)), Up(rest), 8);
    ShiftsOut(rest.bits[..24], 8);
    forall i | 24 <= i < 32 ensures !rest.bits[i] {
      PackedTail(p[1..], i);
    }
    SameBits(Register(rest.bits[..24] + Zeros(8)), rest);
  }

  lemma ReadIsPack(p: seq<Octet>)
    requires |p| == 4
    ensures ReadWord(p) == Pack(p)
  {
    var a, b, c, d := p[0].bits, p[1].bits, p[2].bits, p[3].bits;
    assert p[1..][1..] == p[2..] && p[2..][1..] == p[3..] && p[3..][1..] == [];
    assert Pack(p[3..][1..]) == ZERO && p[3..][0] == p[3] && p[2..][0] == p[2] && p[1..][0] == p[1];
    SameBits(Pack(p[3..]), Register(d + Zeros(24)));
    SameBits(Pack(p[2..]), Register(c + d + Zeros(16)));
    SameBits(Pack(p[1..]), Register(b + c + d + Zeros(8)));
    SameBits(Pack(p), ReadWord(p));
  }

  lemma WordFold(l: Word, p: seq<Octet>)
    requires |p| == 4
    ensures BitSteps(Xor(l, ReadWord(p)), 32) == Fold(l, p)
  {
    ReadIsPack(p);
    PackedFold(l, p);
  }

  /** STEP4W: a word taken into the register byte by byte. */
  method Step4W(t: Tables, l: Word, w: Word) returns (r: Word)
    requires TablesOk(t)
    ensures r == BitSteps(Xor(l, w), 32)
  {
    r := Xor(w, l);
    XorComm(w, l);
    ghost var x := r;
    for i := 0 to 4
      invariant r == BitSteps(x, 8 * i)
    {
      ShiftByteIs(t, r);
      StepsJoin(x, 8 * i, 8);
      XorComm(Down(r), At(t.octet, ByteOf(r, 0)));
      r := Xor(Down(r), At(t.octet, ByteOf(r, 0)));
    }
  }

  // ---- The four lanes ----

  /** STEP4: a lane moved past 16 bytes, and its next word taken in. */
  function Step4(t: Tables, crc: Word, w: Word): Word {
    Xor(Xor(Xor(Xor(w, At(t.stride3, ByteOf(crc, 0))), At(t.stride2, ByteOf(crc, 1))), At(t.stride1, ByteOf(crc, 2))),
        At(t.stride0, ByteOf(crc, 3)))
  }

  lemma FourBytes(x: Word)
    ensures x == Xor(Xor(Xor(Place(ByteOf(x, 0), 0), Place(ByteOf(x, 1), 8)), Place(ByteOf(x, 2), 16)),
              Place(ByteOf(x, 3), 24))
  {
    SameBits(x, Xor(Xor(Xor(Place(ByteOf(x, 0), 0), Place(ByteOf(x, 1), 8)), Place(ByteOf(x, 2), 16)),
        Place(ByteOf(x, 3), 24)));
  }

  lemma Linear4(a: Word, b: Word, c: Word, d: Word, n: nat)
    ensures BitSteps(Xor(Xor(Xor(a, b), c), d), n) == Xor(Xor(Xor(BitSteps(a, n), BitSteps(b, n)), BitSteps(c, n)),
              BitSteps(d, n))
  {
    Linear(Xor(Xor(a, b), c), d, n);
    Linear(Xor(a, b), c, n);
    Linear(a, b, n);
  }

  lemma XorFive(w: Word, a: Word, b: Word, c: Word, d: Word)
    ensures Xor(Xor(Xor(Xor(w, a), b), c), d) == Xor(w, Xor(Xor(Xor(a, b), c), d))
  {
    XorAssoc(w, a, b);
    XorAssoc(w, Xor(a, b), c);
    XorAssoc(w, Xor(Xor(a, b), c), d);
  }

  lemma Step4Is(t: Tables, crc: Word, w: Word)
    requires TablesOk(t)
    ensures Step4(t, crc, w) == Xor(w, BitSteps(crc, 128))
  {
    FourBytes(crc);
    Linear4(Place(ByteOf(crc, 0), 0), Place(ByteOf(crc, 1), 8), Place(ByteOf(crc, 2), 16), Place(ByteOf(crc, 3), 24),
        128);
    XorFive(w, At(t.stride3, ByteOf(crc, 0)), At(t.stride2, ByteOf(crc, 1)), At(t.stride1, ByteOf(crc, 2)),
        At(t.stride0, ByteOf(crc, 3)));
  }

  /** The register the four lanes stand for. */
  ghost function Combined(c0: Word, c1: Word, c2: Word, c3: Word): Word {
    BitSteps(Xor(BitSteps(Xor(BitSteps(Xor(BitSteps(c0, 32), c1), 32), c2), 32), c3), 32)
  }

  /** The first lane's share comes off. */
  lemma PeelLane(c0: Word, c1: Word, c2: Word, c3: Word)
    ensures Combined(c0, c1, c2, c3) == Xor(BitSteps(c0, 128),
              BitSteps(Xor(BitSteps(Xor(BitSteps(c1, 32), c2), 32), c3), 32))
  {
    Linear(BitSteps(c0, 32), c1, 32);
    StepsJoin(c0, 32, 32);
    var a1, b1 := BitSteps(c0, 64), BitSteps(c1, 32);
    PeelOnce(a1, b1, c2);
    StepsJoin(c0, 64, 32);
    PeelOnce(BitSteps(c0, 96), BitSteps(Xor(b1, c2), 32), c3);
    StepsJoin(c0, 96, 32);
  }

  lemma PeelOnce(a: Word, b: Word, c: Word)
    ensures BitSteps(Xor(Xor(a, b), c), 32) == Xor(BitSteps(a, 32), BitSteps(Xor(b, c), 32))
  {
    XorAssoc(a, b, c);
    Linear(a, Xor(b, c), 32);
  }

  /** One word further: the first lane takes it in and becomes the last. */
  lemma LaneStep(t: Tables, c0: Word, c1: Word, c2: Word, c3: Word, p: seq<Octet>)
    requires TablesOk(t) && |p| == 4
    ensures Combined(c1, c2, c3, Step4(t, c0, ReadWord(p))) == Fold(Combined(c0, c1, c2, c3), p)
  {
    var w, z := ReadWord(p), BitSteps(c0, 128);
    var d := BitSteps(Xor(BitSteps(Xor(BitSteps(c1, 32), c2), 32), c3), 32);
    Step4Is(t, c0, w);
    PeelLane(c0, c1, c2, c3);
    XorSwap(d, w, z);
    WordFold(Xor(z, d), p);
  }

  lemma FoldFour(l: Word, a: seq<Octet>, b: seq<Octet>, c: seq<Octet>, d: seq<Octet>)
    ensures Fold(l, a + b + c + d) == Fold(Fold(Fold(Fold(l, a), b), c), d)
  {
    FoldConcat(l, a, b);
    FoldConcat(l, a + b, c);
    FoldConcat(l, a + b + c, d);
  }

  /** The first 16 bytes, loaded into the lanes. */
  lemma LanesLoad(l: Word, a: seq<Octet>, b: seq<Octet>, c: seq<Octet>, d: seq<Octet>)
    requires |a| == |b| == |c| == |d| == 4
    ensures Combined(Xor(ReadWord(a), l), ReadWord(b), ReadWord(c), ReadWord(d)) == Fold(l, a + b + c + d)
  {
    XorComm(ReadWord(a), l);
    var l1 := Fold(l, a);
    var l2 := Fold(l1, b);
    var l3 := Fold(l2, c);
    WordFold(l, a);
    WordFold(l1, b);
    WordFold(l2, c);
    WordFold(l3, d);
    FoldFour(l, a, b, c, d);
  }

  /** Sixteen bytes further, every lane in its place. */
  lemma SwathStep(t: Tables, c0: Word, c1: Word, c2: Word, c3: Word, a: seq<Octet>, b: seq<Octet>, c: seq<Octet>,
                  d: seq<Octet>)
    requires TablesOk(t) && |a| == |b| == |c| == |d| == 4
    ensures Combined(Step4(t, c0, ReadWord(a)), Step4(t, c1, ReadWord(b)), Step4(t, c2, ReadWord(c)),
              Step4(t, c3, ReadWord(d)))
            == Fold(Combined(c0, c1, c2, c3), a + b + c + d)
  {
    var d0, d1, d2 := Step4(t, c0, ReadWord(a)), Step4(t, c1, ReadWord(b)), Step4(t, c2, ReadWord(c));
    LaneStep(t, c0, c1, c2, c3, a);
    LaneStep(t, c1, c2, c3, d0, b);
    LaneStep(t, c2, c3, d0, d1, c);
    LaneStep(t, c3, d0, d1, d2, d);
    FoldFour(Combined(c0, c1, c2, c3), a, b, c, d);
  }

  // ---- Extend ----

  lemma FoldOn(l: Word, data: seq<Octet>, p: nat, k: nat)
    requires p + k <= |data|
    ensures Fold(l, data[..p + k]) == Fold(Fold(l, data[..p]), data[p..p + k])
  {
    FoldConcat(l, data[..p], data[p..p + k]);
    assert data[..p + k] == data[..p] + data[p..p + k];
  }

  lemma FoldByte(t: Tables, l: Word, data: seq<Octet>, p: nat)
    requires TablesOk(t) && p < |data|
    ensures Step1(t, Fold(l, data[..p]), data[p]) == Fold(l, data[..p + 1])
  {
    Step1Is(t, Fold(l, data[..p]), data[p]);
    FoldOn(l, data, p, 1);
    assert data[p..p + 1] == [data[p]] && [data[p]][1..] == [];
  }

  /** Bytes `p` to `e` one at a time. */
  method ByteLoop(t: Tables, l: Word, data: seq<Octet>, p: nat, e: nat, ghost l0: Word) returns (r: Word)
    requires TablesOk(t) && p <= e <= |data| && l == Fold(l0, data[..p])
    ensures r == Fold(l0, data[..e])
  {
    r := l;
    for i := p to e
      invariant r == Fold(l0, data[..i])
    {
      FoldByte(t, l0, data, i);
      r := Step1(t, r, data[i]);
    }
  }

  datatype Lanes = Lanes(c0: Word, c1: Word, c2: Word, c3: Word)

  ghost function Whole(c: Lanes): Word {
    Combined(c.c0, c.c1, c.c2, c.c3)
  }

  method LoadLanes(l: Word, data: seq<Octet>, p: nat, ghost l0: Word) returns (c: Lanes)
    requires p + 16 <= |data| && l == Fold(l0, data[..p])
    ensures Whole(c) == Fold(l0, data[..p + 16])
  {
    c := Lanes(Xor(ReadWord(data[p..p + 4]), l), ReadWord(data[p + 4..p + 8]), ReadWord(data[p + 8..p + 12]),
        ReadWord(data[p + 12..p + 16]));
    LanesLoad(l, data[p..p + 4], data[p + 4..p + 8], data[p + 8..p + 12], data[p + 12..p + 16]);
    FourSlices(data, p);
    FoldOn(l0, data, p, 16);
  }

  lemma FourSlices(data: seq<Octet>, p: nat)
    requires p + 16 <= |data|
    ensures data[p..p + 4] + data[p + 4..p + 8] + data[p + 8..p + 12] + data[p + 12..p + 16] == data[p..p + 16]
  {
  }

  /** STEP16. */
  method Step16(t: Tables, c: Lanes, data: seq<Octet>, p: nat, ghost l0: Word) returns (r: Lanes)
    requires TablesOk(t) && p + 16 <= |data| && Whole(c) == Fold(l0, data[..p])
    ensures Whole(r) == Fold(l0, data[..p + 16])
  {
    r := Lanes(Step4(t, c.c0, ReadWord(data[p..p + 4])), Step4(t, c.c1, ReadWord(data[p + 4..p + 8])),
               Step4(t, c.c2, ReadWord(data[p + 8..p + 12])), Step4(t, c.c3, ReadWord(data[p + 12..p + 16])));
    SwathStep(t, c.c0, c.c1, c.c2, c.c3, data[p..p + 4], data[p + 4..p + 8], data[p + 8..p + 12], data[p + 12..p + 16]);
    FourSlices(data, p);
    FoldOn(l0, data, p, 16);
  }

  /** One word: the first lane takes it in and becomes the last. */
  method RotateLanes(t: Tables, c: Lanes, data: seq<Octet>, p: nat, ghost l0: Word) returns (r: Lanes)
    requires TablesOk(t) && p + 4 <= |data| && Whole(c) == Fold(l0, data[..p])
    ensures Whole(r) == Fold(l0, data[..p + 4])
  {
    LaneStep(t, c.c0, c.c1, c.c2, c.c3, data[p..p + 4]);
    FoldOn(l0, data, p, 4);
    r := Lanes(c.c1, c.c2, c.c3, Step4(t, c.c0, ReadWord(data[p..p + 4])));
  }

  /** As many whole swaths as there are. */
  method SwathLoop(t: Tables, c0: Lanes, data: seq<Octet>, p0: nat, ghost l0: Word) returns (c: Lanes, p: nat)
    requires TablesOk(t) && p0 <= |data| && Whole(c0) == Fold(l0, data[..p0])
    ensures p0 <= p <= |data| && Whole(c) == Fold(l0, data[..p])
  {
    c, p := c0, p0;
    while |data| - p >= 16
      invariant p0 <= p <= |data| && Whole(c) == Fold(l0, data[..p])
    {
      c := Step16(t, c, data, p, l0);
      p := p + 16;
    }
  }

  /** As many whole words as there are. */
  method WordLoop(t: Tables, c0: Lanes, data: seq<Octet>, p0: nat, ghost l0: Word) returns (c: Lanes, p: nat)
    requires TablesOk(t) && p0 <= |data| && Whole(c0) == Fold(l0, data[..p0])
    ensures p0 <= p <= |data| && Whole(c) == Fold(l0, data[..p])
  {
    c, p := c0, p0;
    while |data| - p >= 4
      invariant p0 <= p <= |data| && Whole(c) == Fold(l0, data[..p])
    {
      c := RotateLanes(t, c, data, p, l0);
      p := p + 4;
    }
  }

  /** The strided part: load, loop, combine. */
  method LaneLoop(t: Tables, l: Word, data: seq<Octet>, p0: nat, ghost l0: Word) returns (r: Word, p: nat)
    requires TablesOk(t) && p0 + 16 <= |data| && l == Fold(l0, data[..p0])
    ensures p0 <= p <= |data| && r == Fold(l0, data[..p])
  {
    var c := LoadLanes(l, data, p0, l0);
    c, p := SwathLoop(t, c, data, p0 + 16, l0);
    c, p := WordLoop(t, c, data, p, l0);
    r := CombineLanes(t, c);
  }

  method CombineLanes(t: Tables, c: Lanes) returns (r: Word)
    requires TablesOk(t)
    ensures r == Whole(c)
  {
    XorZero(c.c0);
    r := Step4W(t, ZERO, c.c0);
    r := Step4W(t, r, c.c1);
    r := Step4W(t, r, c.c2);
    r := Step4W(t, r, c.c3);
  }

  /** Extend, for data at any address. */
  method Extend(t: Tables, crc: Word, data: seq<Octet>, address: nat) returns (r: Word)
    requires TablesOk(t)
    ensures r == Crc(crc, data)
  {
    ghost var l0 := Not(crc);
    var l, p, e := Not(crc), 0, |data|;
    assert data[..0] == [];
    var x := (4 - address % 4) % 4;
    if x <= e {
      l := ByteLoop(t, l, data, 0, x, l0);
      p := x;
    }
    if e - p >= 16 {
      l, p := LaneLoop(t, l, data, p, l0);
    }
    l := ByteLoop(t, l, data, p, e, l0);
    assert data[..e] == data;
    r := Not(l);
  }
}
