/** Bloom filters (util/bloom.cc).  A filter is an array of bits in bytes, then a byte with its number of probes; the
    hash is any function to 32-bit words. */
module Bloom {
  import opened DbFormat

  const WIDTH: int := 0x1_0000_0000

  type Hash = Bytes -> nat

  // ---- Bits in bytes ----

  predicate BitOf(b: nat, j: nat) {
    if j == 0 then b % 2 == 1 else BitOf(b / 2, j - 1)
  }

  /** Or with 1 << j. */
  function SetBit(b: nat, j: nat): nat {
    if j == 0 then b / 2 * 2 + 1 else SetBit(b / 2, j - 1) * 2 + b % 2
  }

  function Power2(n: nat): (v: nat)
    ensures v > 0
  {
    if n == 0 then 1 else 2 * Power2(n - 1)
  }

  lemma {:induction false} SetBitFits(b: nat, j: nat, n: nat)
    requires j < n && b < Power2(n)
    ensures SetBit(b, j) < Power2(n)
    decreases j
  {
    if j > 0 {
      SetBitFits(b / 2, j - 1, n - 1);
    }
  }

  lemma SetBitParts(b: nat, j: nat)
    ensures SetBit(b, j) / 2 == (if j == 0 then b / 2 else SetBit(b / 2, j - 1))
    ensures SetBit(b, j) % 2 == if j == 0 then 1 else b % 2
  {
    Halves(if j == 0 then b / 2 else SetBit(b / 2, j - 1), if j == 0 then 1 else b % 2);
  }

  lemma Halves(q: nat, r: nat)
    requires r < 2
    ensures (q * 2 + r) / 2 == q && (q * 2 + r) % 2 == r
  {
  }

  lemma {:induction false} SetBitBits(b: nat, j: nat, m: nat)
    ensures BitOf(SetBit(b, j), m) <==> m == j || BitOf(b, m)
    decreases j
  {
    SetBitParts(b, j);
    if j > 0 && m > 0 {
      SetBitBits(b / 2, j - 1, m - 1);
    }
  }

  lemma {:induction false} ZeroBits(m: nat)
    ensures !BitOf(0, m)
    decreases m
  {
    if m > 0 {
      ZeroBits(m - 1);
    }
  }

  predicate Bit(a: Bytes, p: nat)
    requires p < 8 * |a|
  {
    BitOf(a[p / 8], p % 8)
  }

  function Set(a: Bytes, p: nat): (r: Bytes)
    requires p < 8 * |a|
    ensures |r| == |a|
  {
    SetBitFits(a[p / 8], p % 8, 8);
    a[p / 8 := SetBit(a[p / 8], p % 8)]
  }

  lemma SetBits(a: Bytes, p: nat, q: nat)
    requires p < 8 * |a| && q < 8 * |a|
    ensures Bit(Set(a, p), q) <==> q == p || Bit(a, q)
  {
    SetBitBits(a[p / 8], p % 8, q % 8);
  }

  // ---- Filters ----

  /** Rotate right by 17 bits. */
  function Delta(h: nat): nat {
    (h % WIDTH) / 0x2_0000 + (h % 0x2_0000) * 0x8000
  }

  /** Double hashing: the place of probe `j` among `n` bits. */
  function Probe(h: nat, j: nat, n: nat): (p: nat)
    requires n > 0
    ensures p < n
  {
    (h + j * Delta(h)) % WIDTH % n
  }

  ghost predicate AllSet(a: Bytes, h: nat, k: nat) {
    |a| > 0 && forall j: nat | j < k :: IsSet(a, h, j)
  }

  ghost predicate IsSet(a: Bytes, h: nat, j: nat)
    requires |a| > 0
  {
    Bit(a, Probe(h, j, 8 * |a|))
  }

  /** Bits are only ever set. */
  ghost predicate BitsWithin(a: Bytes, b: Bytes) {
    |a| == |b| && forall p: nat | p < 8 * |a| && Bit(a, p) :: Bit(b, p)
  }

  lemma StaysSet(a: Bytes, b: Bytes, h: nat, k: nat)
    requires AllSet(a, h, k) && BitsWithin(a, b)
    ensures AllSet(b, h, k)
  {
    forall j: nat | j < k ensures IsSet(b, h, j) {
      assert IsSet(a, h, j);
    }
  }

  /** The place is one of the first `k` probes. */
  ghost predicate IsProbe(h: nat, k: nat, n: nat, p: nat)
    requires n > 0
  {
    exists j: nat :: j < k && Probe(h, j, n) == p
  }

  ghost predicate NewAreProbes(a: Bytes, b: Bytes, h: nat, k: nat)
    requires |a| == |b| > 0
  {
    forall p: nat | p < 8 * |a| && Bit(b, p) && !Bit(a, p) :: IsProbe(h, k, 8 * |a|, p)
  }

  /** The bits set are probes of the first `m` keys. */
  ghost predicate OnlyProbes(a: Bytes, hash: Hash, keys: seq<Bytes>, m: nat, k: nat)
    requires |a| > 0 && m <= |keys|
  {
    forall p: nat | p < 8 * |a| && Bit(a, p) :: exists i: nat :: i < m && IsProbe(hash(keys[i]), k, 8 * |a|, p)
  }

  lemma OneMoreKey(a: Bytes, b: Bytes, hash: Hash, keys: seq<Bytes>, m: nat, k: nat)
    requires |a| == |b| > 0 && m < |keys| && OnlyProbes(a, hash, keys, m, k) && NewAreProbes(a, b, hash(keys[m]), k)
    ensures OnlyProbes(b, hash, keys, m + 1, k)
  {
    forall p: nat | p < 8 * |a| && Bit(b, p) ensures exists i: nat :: i < m + 1 && IsProbe(hash(keys[i]), k, 8 * |a|, p)
    {
      if Bit(a, p) {
        var i: nat :| i < m && IsProbe(hash(keys[i]), k, 8 * |a|, p);
      }
    }
  }

  lemma OneMoreProbe(a: Bytes, b: Bytes, h: nat, j: nat)
    requires |a| == |b| > 0 && BitsWithin(a, b) && AllSet(b, h, j) && NewAreProbes(a, b, h, j)
    ensures var c := Set(b, Probe(h, j, 8 * |a|));
            BitsWithin(a, c) && AllSet(c, h, j + 1) && NewAreProbes(a, c, h, j + 1)
  {
    var p := Probe(h, j, 8 * |a|);
    var c := Set(b, p);
    forall q: nat | q < 8 * |a| ensures Bit(c, q) <==> q == p || Bit(b, q) {
      SetBits(b, p, q);
    }
    forall q: nat | q < 8 * |a| && Bit(c, q) && !Bit(a, q) ensures IsProbe(h, j + 1, 8 * |a|, q) {
      if Bit(b, q) {
        var m: nat :| m < j && Probe(h, m, 8 * |a|) == q;
      }
    }
    forall m: nat | m < j + 1 ensures IsSet(c, h, m) {
      if m < j {
        assert IsSet(b, h, m);
      }
    }
  }

  /** One key: set its bits. */
  method AddKey(a: Bytes, h: nat, k: nat) returns (r: Bytes)
    requires |a| > 0
    ensures BitsWithin(a, r) && AllSet(r, h, k) && NewAreProbes(a, r, h, k)
  {
    r := a;
    var x: nat := h;
    for j := 0 to k
      invariant BitsWithin(a, r) && AllSet(r, h, j) && NewAreProbes(a, r, h, j)
      invariant x % WIDTH == (h + j * Delta(h)) % WIDTH
    {
      OneMoreProbe(a, r, h, j);
      var p := x % WIDTH % (8 * |a|);
      assert Probe(h, j, 8 * |a|) == p;
      r := Set(r, p);
      AddDelta(x, h, j);
      x := x + Delta(h);
    }
  }

  lemma AddDelta(x: nat, h: nat, j: nat)
    requires x % WIDTH == (h + j * Delta(h)) % WIDTH
    ensures (x + Delta(h)) % WIDTH == (h + (j + 1) * Delta(h)) % WIDTH
  {
    assert (j + 1) * Delta(h) == j * Delta(h) + Delta(h);
    ModAdd(x, h + j * Delta(h), Delta(h));
  }

  lemma ModAdd(a: nat, b: nat, d: nat)
    requires a % WIDTH == b % WIDTH
    ensures (a + d) % WIDTH == (b + d) % WIDTH
  {
    assert (a + d) % WIDTH == ((a % WIDTH) + d) % WIDTH;
    assert (b + d) % WIDTH == ((b % WIDTH) + d) % WIDTH;
  }

  /** The number of probes: 0.69 times the bits for a key, from 1 to 30. */
  function Probes(bitsPerKey: nat): (k: Byte)
    ensures 1 <= k <= 30
  {
    var k := bitsPerKey * 69 / 100;
    if k < 1 then 1 else if k > 30 then 30 else k
  }

  /** The length of the array: at least 64 bits. */
  function FilterBytes(keys: nat, bitsPerKey: nat): (n: nat)
    ensures n >= 8
  {
    var bits := if keys * bitsPerKey < 64 then 64 else keys * bitsPerKey;
    (bits + 7) / 8
  }

  method CreateFilter(hash: Hash, keys: seq<Bytes>, bitsPerKey: nat) returns (f: Bytes)
    ensures |f| == FilterBytes(|keys|, bitsPerKey) + 1 && f[|f| - 1] == Probes(bitsPerKey)
    ensures forall i | 0 <= i < |keys| :: AllSet(f[..|f| - 1], hash(keys[i]), Probes(bitsPerKey))
    ensures OnlyProbes(f[..|f| - 1], hash, keys, |keys|, Probes(bitsPerKey))
  {
    var a: Bytes := seq(FilterBytes(|keys|, bitsPerKey), _ => 0);
    forall p: nat | p < 8 * |a| ensures !Bit(a, p) {
      ZeroBits(p % 8);
    }
    for i := 0 to |keys|
      invariant |a| == FilterBytes(|keys|, bitsPerKey)
      invariant forall j | 0 <= j < i :: AllSet(a, hash(keys[j]), Probes(bitsPerKey))
      invariant OnlyProbes(a, hash, keys, i, Probes(bitsPerKey))
    {
      var more := AddKey(a, hash(keys[i]), Probes(bitsPerKey));
      forall j | 0 <= j < i ensures AllSet(more, hash(keys[j]), Probes(bitsPerKey)) {
        StaysSet(a, more, hash(keys[j]), Probes(bitsPerKey));
      }
      OneMoreKey(a, more, hash, keys, i, Probes(bitsPerKey));
      a := more;
    }
    f := a + [Probes(bitsPerKey)];
    assert f[..|f| - 1] == a;
  }

  /** The filter lets the key through: every probe finds its bit set; more than 30 probes are taken for a match. */
  ghost predicate Passes(hash: Hash, f: Bytes, key: Bytes) {
    |f| >= 2 && var k := f[|f| - 1]; k > 30 || AllSet(f[..|f| - 1], hash(key), k)
  }

  method KeyMayMatch(hash: Hash, key: Bytes, f: Bytes) returns (r: bool)
    ensures r <==> Passes(hash, f, key)
  {
    if |f| < 2 {
      return false;
    }
    var k := f[|f| - 1];
    if k > 30 {
      return true;
    }
    var a := f[..|f| - 1];
    var h := hash(key);
    var x: nat := h;
    for j := 0 to k
      invariant AllSet(a, h, j) && x % WIDTH == (h + j * Delta(h)) % WIDTH
    {
      var p := x % WIDTH % (8 * |a|);
      assert Probe(h, j, 8 * |a|) == p;
      if !Bit(a, p) {
        assert !IsSet(a, h, j);
        return false;
      }
      assert IsSet(a, h, j);
      AddDelta(x, h, j);
      x := x + Delta(h);
    }
    return true;
  }
}
