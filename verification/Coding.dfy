/** Fixed-width and variable-length integers, and length-prefixed strings (util/coding.cc, util/coding.h). */
module Coding {
  import opened DbFormat

  const WIDTH32: int := 0x1_0000_0000
  const WIDTH64: int := 0x1_0000_0000_0000_0000

  // ---- Fixed width ----

  type Word = x: int | 0 <= x < 0x1_0000_0000

  function Fixed32(x: Word): Bytes {
    [x % 256, x / 256 % 256, x / 0x1_0000 % 256, x / 0x100_0000]
  }

  function DecodeFixed32(b: Bytes): Word
    requires |b| == 4
  {
    b[0] as int + 256 * (b[1] as int) + 0x1_0000 * (b[2] as int) + 0x100_0000 * (b[3] as int)
  }

  lemma DecodeEncode32(x: Word)
    ensures DecodeFixed32(Fixed32(x)) == x
  {
    var a, b := x / 256, x / 0x1_0000;
    assert b == a / 256 && x / 0x100_0000 == b / 256;
  }

  /** A number cut to 32 bits, in four bytes. */
  function CutWord(x: nat): (w: Bytes)
    ensures |w| == 4 && (x < WIDTH32 ==> DecodeFixed32(w) == x)
  {
    DecodeEncode32(x % WIDTH32);
    Fixed32(x % WIDTH32)
  }

  function Fixed64(x: nat): Bytes
    requires x < WIDTH64
  {
    Fixed32(x % WIDTH32) + Fixed32(x / WIDTH32)
  }

  function DecodeFixed64(b: Bytes): nat
    requires |b| == 8
  {
    DecodeFixed32(b[..4]) + WIDTH32 * DecodeFixed32(b[4..])
  }

  lemma Fixed64Trip(x: nat)
    requires x < WIDTH64
    ensures |Fixed64(x)| == 8 && DecodeFixed64(Fixed64(x)) == x
  {
    var lo, hi := x % WIDTH32, x / WIDTH32;
    DecodeEncode32(lo);
    DecodeEncode32(hi);
    assert Fixed64(x)[..4] == Fixed32(lo) && Fixed64(x)[4..] == Fixed32(hi);
  }

  // ---- Encoding ----

  /** Seven bits a byte, lowest first, the top bit set on all but the last. */
  function Varint(v: nat): (r: Bytes)
    ensures |r| > 0
  {
    if v < 128 then [v] else [v % 128 + 128] + Varint(v / 128)
  }

  method PutVarint64(dst: Bytes, v: nat) returns (r: Bytes)
    ensures r == dst + Varint(v)
  {
    r := dst;
    var left := v;
    while left >= 128
      invariant r + Varint(left) == dst + Varint(v)
    {
      assert r + ([left % 128 + 128] + Varint(left / 128)) == (r + [left % 128 + 128]) + Varint(left / 128);
      r := r + [left % 128 + 128];
      left := left / 128;
    }
    r := r + [left];
  }

  function Prefixed(s: Bytes): Bytes {
    Varint(|s|) + s
  }

  // ---- Decoding ----

  /** A varint of at most `k` bytes at the front, before it is cut to its width; and what follows. */
  function Scan(input: Bytes, k: nat): Option<(nat, Bytes)>
    decreases k, input
  {
    if k == 0 || input == [] then None
    else if input[0] < 128 then Some((input[0] as nat, input[1..]))
    else
      match Scan(input[1..], k - 1)
      case None => None
      case Some((v, rest)) => Some((input[0] as nat - 128 + 128 * v, rest))
  }

  function Cut(r: Option<(nat, Bytes)>, width: int): Option<(nat, Bytes)>
    requires width > 0
  {
    match r
    case None => None
    case Some((v, rest)) => Some((v % width, rest))
  }

  function GetVarint32(input: Bytes): Option<(nat, Bytes)> {
    Cut(Scan(input, 5), WIDTH32)
  }

  function GetVarint64(input: Bytes): Option<(nat, Bytes)> {
    Cut(Scan(input, 10), WIDTH64)
  }

  function GetPrefixed(input: Bytes): Option<(Bytes, Bytes)> {
    match GetVarint32(input)
    case None => None
    case Some((n, rest)) => if n > |rest| then None else Some((rest[..n], rest[n..]))
  }

  function Power128(k: nat): nat {
    if k == 0 then 1 else 128 * Power128(k - 1)
  }

  /** The bytes a decoder eats are a proper front of its input. */
  lemma {:induction false} ScanEats(input: Bytes, k: nat)
    ensures Scan(input, k).Some? ==> |Scan(input, k).value.1| < |input|
    decreases k
  {
    if k > 0 && input != [] && input[0] >= 128 {
      ScanEats(input[1..], k - 1);
    }
  }

  /** The loop of GetVarint64Ptr and its 32-bit twin, before the result is cut to its width. */
  method ScanLoop(input: Bytes, k: nat) returns (r: Option<(nat, Bytes)>)
    ensures r == Scan(input, k)
  {
    var p, shift, result := 0, 1, 0;
    ghost var goal := Scan(input, k);
    while p < k && p < |input|
      invariant 0 <= p <= k && p <= |input|
      invariant goal == Shifted(Scan(input[p..], k - p), result, shift)
    {
      var b := input[p] as int;
      assert input[p..][0] == input[p] && input[p..][1..] == input[p + 1..];
      if b >= 128 {
        ShiftsOn(Scan(input[p + 1..], k - p - 1), result, shift, b - 128);
        result := result + (b - 128) * shift;
        shift := shift * 128;
        p := p + 1;
      } else {
        return Some((result + b * shift, input[p + 1..]));
      }
    }
    return None;
  }

  ghost function Shifted(r: Option<(nat, Bytes)>, result: int, shift: int): Option<(int, Bytes)> {
    match r
    case None => None
    case Some((v, rest)) => Some((result + v * shift, rest))
  }

  lemma ShiftsOn(r: Option<(nat, Bytes)>, result: int, shift: int, b: nat)
    ensures var next := match r case None => None case Some((v, rest)) => Some((b + 128 * v, rest));
            Shifted(next, result, shift) == Shifted(r, result + b * shift, shift * 128)
  {
    match r
    case None =>
    case Some((v, rest)) =>
      assert (b + 128 * v) * shift == b * shift + v * (shift * 128);
  }

  // ---- What is refused ----

  /** Byte `i` is the first below 128. */
  ghost predicate EndsAt(input: Bytes, i: nat) {
    i < |input| && input[i] < 128 && forall j | 0 <= j < i :: input[j] >= 128
  }

  lemma {:induction false} ScanEnds(input: Bytes, k: nat)
    ensures Scan(input, k).Some? ==> var i := |input| - 1 - |Scan(input, k).value.1|; 0 <= i < k && EndsAt(input, i)
    ensures Scan(input, k).Some? ==> IsSuffix(Scan(input, k).value.1, input)
    ensures Scan(input, k).None? ==> forall i: nat | i < k :: !EndsAt(input, i)
    decreases k
  {
    if k > 0 && input != [] && input[0] >= 128 {
      var more := input[1..];
      ScanEnds(more, k - 1);
      if Scan(more, k - 1).Some? {
        var rest := Scan(more, k - 1).value.1;
        var i := |more| - 1 - |rest|;
        assert forall j | 0 <= j < i :: input[j + 1] == more[j] >= 128;
        assert EndsAt(input, i + 1);
        assert input[|input| - |rest|..] == more[|more| - |rest|..];
      } else {
        forall i: nat | i < k ensures !EndsAt(input, i) {
          if EndsAt(input, i) {
            assert forall j | 0 <= j < i - 1 :: more[j] == input[j + 1] >= 128;
            assert EndsAt(more, i - 1);
          }
        }
      }
    }
  }

  ghost predicate IsSuffix(a: Bytes, b: Bytes) {
    |a| <= |b| && b[|b| - |a|..] == a
  }

  /** A varint is read if and only if it ends within its 5 or 10 bytes, and what follows that byte is left. */
  lemma ReadsExactly(input: Bytes)
    ensures GetVarint32(input).Some? <==> exists i: nat :: i < 5 && EndsAt(input, i)
    ensures GetVarint64(input).Some? <==> exists i: nat :: i < 10 && EndsAt(input, i)
    ensures forall i: nat | i < 5 && EndsAt(input, i) :: GetVarint32(input).value.1 == input[i + 1..]
    ensures forall i: nat | i < 10 && EndsAt(input, i) :: GetVarint64(input).value.1 == input[i + 1..]
  {
    ScanEnds(input, 5);
    ScanEnds(input, 10);
    OneEnd(input);
  }

  lemma OneEnd(input: Bytes)
    ensures forall i: nat, j: nat | EndsAt(input, i) && EndsAt(input, j) :: i == j
  {
  }

  // ---- Round trips ----

  lemma {:induction false} ScanVarint(v: nat, rest: Bytes, k: nat)
    requires 0 < k && v < Power128(k)
    ensures Scan(Varint(v) + rest, k) == Some((v, rest))
    decreases k
  {
    var input := Varint(v) + rest;
    if v < 128 {
      assert input[1..] == rest;
    } else {
      ScanVarint(v / 128, rest, k - 1);
      assert input[1..] == Varint(v / 128) + rest;
    }
  }

  lemma Varint32RoundTrip(v: nat, rest: Bytes)
    requires v < WIDTH32
    ensures GetVarint32(Varint(v) + rest) == Some((v, rest))
  {
    assert v < Power128(5) by {
      Power5();
    }
    ScanVarint(v, rest, 5);
    assert v % WIDTH32 == v;
  }

  lemma Varint64RoundTrip(v: nat, rest: Bytes)
    requires v < WIDTH64
    ensures GetVarint64(Varint(v) + rest) == Some((v, rest))
  {
    assert v < Power128(10) by {
      Power10();
    }
    ScanVarint(v, rest, 10);
    assert v % WIDTH64 == v;
  }

  lemma Power5()
    ensures Power128(5) > WIDTH32
  {
  }

  lemma Power10()
    ensures Power128(10) > WIDTH64
  {
  }

  lemma PrefixedRoundTrip(s: Bytes, rest: Bytes)
    requires |s| < WIDTH32
    ensures GetPrefixed(Prefixed(s) + rest) == Some((s, rest))
  {
    assert Prefixed(s) + rest == Varint(|s|) + (s + rest);
    Varint32RoundTrip(|s|, s + rest);
    assert (s + rest)[..|s|] == s && (s + rest)[|s|..] == rest;
  }
}
