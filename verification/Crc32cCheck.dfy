/** Values of CRC-32C known beforehand, against the computed ones: entries of the table written out in util/crc32c.cc
    that the others follow from, and a check of the initial and final inversion. */
module Crc32cCheck {
  import opened Crc32c

  function OneBit(k: nat): Octet {
    Register(seq(8, i => i == k))
  }

  /** The word with the bits `p` holds of. */
  function Bits(p: nat -> bool): Word {
    Register(seq(32, i requires 0 <= i < 32 => p(i)))
  }

  // ---- The entries of kByteExtensionTable for the bytes with one bit ----

  /** 0x82f63b78, for the byte 0x80. */
  predicate Entry7(i: nat) {
    3 <= i <= 6 || i == 8 || i == 9 || 11 <= i <= 13 || i == 17 || i == 18 || 20 <= i <= 23 || i == 25 || i == 31
  }

  /** 0x417b1dbc, for the byte 0x40. */
  predicate Entry6(i: nat) {
    2 <= i <= 5 || i == 7 || i == 8 || 10 <= i <= 12 || i == 16 || i == 17 || 19 <= i <= 22 || i == 24 || i == 30
  }

  /** 0x20bd8ede, for the byte 0x20. */
  predicate Entry5(i: nat) {
    1 <= i <= 4 || i == 6 || i == 7 || 9 <= i <= 11 || i == 15 || i == 16 || 18 <= i <= 21 || i == 23 || i == 29
  }

  /** 0x105ec76f, for the byte 0x10. */
  predicate Entry4(i: nat) {
    0 <= i <= 3 || i == 5 || i == 6 || 8 <= i <= 10 || i == 14 || i == 15 || 17 <= i <= 20 || i == 22 || i == 28
  }

  /** 0x8ad958cf, for the byte 0x08. */
  predicate Entry3(i: nat) {
    || 0 <= i <= 3 || i == 6 || i == 7 || i == 11 || i == 12 || i == 14 || i == 16 || i == 19 || i == 20 || i == 22
    || i == 23 || i == 25 || i == 27 || i == 31
  }

  /** 0xc79a971f, for the byte 0x04. */
  predicate Entry2(i: nat) {
    || 0 <= i <= 4 || 8 <= i <= 10 || i == 12 || i == 15 || i == 17 || i == 19 || i == 20 || 23 <= i <= 26 || i == 30
    || i == 31
  }

  /** 0xe13b70f7, for the byte 0x02. */
  predicate Entry1(i: nat) {
    0 <= i <= 2 || 4 <= i <= 7 || 12 <= i <= 14 || i == 16 || i == 17 || 19 <= i <= 21 || i == 24 || 29 <= i <= 31
  }

  /** 0xf26b8303, for the byte 0x01. */
  predicate Entry0(i: nat) {
    i == 0 || i == 1 || i == 8 || i == 9 || 15 <= i <= 17 || i == 19 || i == 21 || i == 22 || i == 25 || 28 <= i <= 31
  }

  /** `q` is what one step makes of `p`. */
  lemma StepIs(p: nat -> bool, q: nat -> bool)
    requires forall i: nat | i < 32 :: q(i) <==> (i < 31 && p(i + 1)) != (p(0) && Entry7(i))
    ensures BitStep(Bits(p)) == Bits(q)
  {
    PolynomialIs();
    forall i: nat | i < 32 ensures BitStep(Bits(p)).bits[i] == Bits(q).bits[i] {
    }
    SameBits(BitStep(Bits(p)), Bits(q));
  }

  lemma PolynomialIs()
    ensures Polynomial() == Bits(Entry7)
  {
    SameBits(Polynomial(), Bits(Entry7));
  }

  lemma Step6()
    ensures BitStep(Bits(Entry7)) == Bits(Entry6)
  {
    StepIs(Entry7, Entry6);
  }

  lemma Step5()
    ensures BitStep(Bits(Entry6)) == Bits(Entry5)
  {
    StepIs(Entry6, Entry5);
  }

  lemma Step4()
    ensures BitStep(Bits(Entry5)) == Bits(Entry4)
  {
    StepIs(Entry5, Entry4);
  }

  lemma Step3()
    ensures BitStep(Bits(Entry4)) == Bits(Entry3)
  {
    StepIs(Entry4, Entry3);
  }

  lemma Step2()
    ensures BitStep(Bits(Entry3)) == Bits(Entry2)
  {
    StepIs(Entry3, Entry2);
  }

  lemma Step1()
    ensures BitStep(Bits(Entry2)) == Bits(Entry1)
  {
    StepIs(Entry2, Entry1);
  }

  lemma Step0()
    ensures BitStep(Bits(Entry1)) == Bits(Entry0)
  {
    StepIs(Entry1, Entry0);
  }

  /** A single bit moves down and, at the end, leaves the polynomial. */
  lemma {:induction false} BitFalls(k: nat)
    requires k < 8
    ensures BitSteps(Bits(i => i == k), k + 1) == Polynomial()
    decreases k
  {
    if k == 0 {
      SameBits(BitStep(Bits(i => i == 0)), Polynomial());
      assert BitSteps(BitStep(Bits(i => i == 0)), 0) == Polynomial();
    } else {
      SameBits(BitStep(Bits(i => i == k)), Bits(i => i == k - 1));
      BitFalls(k - 1);
    }
  }

  lemma EntryIs(t: Tables, k: nat)
    requires TablesOk(t) && k < 8
    ensures At(t.octet, OneBit(k)) == BitSteps(Polynomial(), 7 - k)
  {
    SameBits(Place(OneBit(k), 0), Bits(i => i == k));
    BitFalls(k);
    StepsJoin(Bits(i => i == k), k + 1, 7 - k);
  }

  lemma OneMore(x: Word, n: nat)
    ensures BitSteps(x, n + 1) == BitStep(BitSteps(x, n))
  {
    StepsJoin(x, n, 1);
    assert BitSteps(BitStep(BitSteps(x, n)), 0) == BitStep(BitSteps(x, n));
  }

  lemma PolynomialSteps()
    ensures BitSteps(Polynomial(), 0) == Bits(Entry7)
    ensures BitSteps(Polynomial(), 1) == Bits(Entry6)
    ensures BitSteps(Polynomial(), 2) == Bits(Entry5)
    ensures BitSteps(Polynomial(), 3) == Bits(Entry4)
    ensures BitSteps(Polynomial(), 4) == Bits(Entry3)
    ensures BitSteps(Polynomial(), 5) == Bits(Entry2)
    ensures BitSteps(Polynomial(), 6) == Bits(Entry1)
    ensures BitSteps(Polynomial(), 7) == Bits(Entry0)
  {
    PolynomialIs();
    Step6();
    OneMore(Polynomial(), 0);
    Step5();
    OneMore(Polynomial(), 1);
    Step4();
    OneMore(Polynomial(), 2);
    Step3();
    OneMore(Polynomial(), 3);
    Step2();
    OneMore(Polynomial(), 4);
    Step1();
    OneMore(Polynomial(), 5);
    Step0();
    OneMore(Polynomial(), 6);
  }

  /** Whatever tables have the stated meaning hold these entries. */
  lemma TableEntries(t: Tables)
    requires TablesOk(t)
    ensures At(t.octet, OneBit(0)) == Bits(Entry0)
    ensures At(t.octet, OneBit(1)) == Bits(Entry1)
    ensures At(t.octet, OneBit(2)) == Bits(Entry2)
    ensures At(t.octet, OneBit(3)) == Bits(Entry3)
    ensures At(t.octet, OneBit(4)) == Bits(Entry4)
    ensures At(t.octet, OneBit(5)) == Bits(Entry5)
    ensures At(t.octet, OneBit(6)) == Bits(Entry6)
    ensures At(t.octet, OneBit(7)) == Bits(Entry7)
  {
    PolynomialSteps();
    forall k: nat | k < 8 ensures At(t.octet, OneBit(k)) == BitSteps(Polynomial(), 7 - k) {
      EntryIs(t, k);
    }
  }

  /** Every other entry is the exclusive or of two of fewer bits. */
  lemma EntriesAdd(t: Tables, a: Octet, b: Octet)
    requires TablesOk(t)
    ensures At(t.octet, XorOctet(a, b)) == Xor(At(t.octet, a), At(t.octet, b))
  {
    SameBits(Place(XorOctet(a, b), 0), Xor(Place(a, 0), Place(b, 0)));
    Linear(Place(a, 0), Place(b, 0), 8);
  }

  /** The word with bits `lo` to `hi - 1` set. */
  function Band(lo: nat, hi: nat): Word {
    Register(seq(32, i => lo <= i < hi))
  }

  lemma {:induction false} BandFalls(lo: nat, hi: nat, n: nat)
    requires n <= lo && n <= hi <= 32
    ensures BitSteps(Band(lo, hi), n) == Band(lo - n, hi - n)
    decreases n
  {
    if n > 0 {
      SameBits(BitStep(Band(lo, hi)), Band(lo - 1, hi - 1));
      BandFalls(lo - 1, hi - 1, n - 1);
    }
  }

  /** The CRC of the byte 0xff is 0xff000000: the register starts as all ones and is inverted at the end. */
  lemma InversionCheck()
    ensures Crc(ZERO, [Register(seq(8, _ => true))]) == Band(24, 32)
  {
    var byte: Octet := Register(seq(8, _ => true));
    var x := Xor(Not(ZERO), Place(byte, 0));
    SameBits(x, Band(8, 32));
    BandFalls(8, 32, 8);
    FoldOne(Not(ZERO), byte);
    SameBits(Not(Band(0, 24)), Band(24, 32));
  }

  lemma FoldOne(l: Word, b: Octet)
    ensures Fold(l, [b]) == BitSteps(Xor(l, Place(b, 0)), 8)
  {
    assert [b][0] == b && [b][1..] == [];
  }
}
