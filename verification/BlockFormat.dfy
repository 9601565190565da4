/** Blocks of sorted, prefix-compressed entries with restart points: what the builder lays out (table/block_builder.cc)
    and how one entry is decoded (table/block.cc). */
module BlockFormat {
  import opened DbFormat
  import opened Coding

  datatype Item = Item(key: Bytes, value: Bytes)

  // ---- One entry ----

  /** How far two keys agree, from place `s` on. */
  function CommonFrom(a: Bytes, b: Bytes, s: nat): (n: nat)
    requires s <= |a| && s <= |b|
    ensures s <= n <= |a| && n <= |b| && a[s..n] == b[s..n]
    decreases |a| - s
  {
    if s < |a| && s < |b| && a[s] == b[s] then
      var n := CommonFrom(a, b, s + 1);
      assert a[s..n] == [a[s]] + a[s + 1..n] && b[s..n] == [b[s]] + b[s + 1..n];
      n
    else s
  }

  function Common(a: Bytes, b: Bytes): (n: nat)
    ensures n <= |a| && n <= |b| && a[..n] == b[..n]
  {
    var n := CommonFrom(a, b, 0);
    assert a[..n] == a[0..n] && b[..n] == b[0..n];
    n
  }

  function ItemBytes(shared: nat, item: Item): (r: Bytes)
    requires shared <= |item.key|
    ensures |r| >= 3 + |item.key| - shared + |item.value|
  {
    Varint(shared) + (Varint(|item.key| - shared) + (Varint(|item.value|) + (item.key[shared..] + item.value)))
  }

  /** An entry's three lengths, and what follows them. */
  datatype Head = Head(shared: nat, nonShared: nat, valueLength: nat, rest: Bytes)

  function SlowHead(p: Bytes): Option<Head> {
    var (shared, a) :- GetVarint32(p);
    var (nonShared, b) :- GetVarint32(a);
    var (valueLength, c) :- GetVarint32(b);
    Some(Head(shared, nonShared, valueLength, c))
  }

  /** DecodeEntry: the lengths, if they are there and leave room for the key delta and the value. */
  function DecodeEntry(p: Bytes): Option<Head> {
    if |p| < 3 then None
    else
      var h :- if p[0] < 128 && p[1] < 128 && p[2] < 128 then Some(Head(p[0], p[1], p[2], p[3..])) else SlowHead(p);
      if |h.rest| % WIDTH32 < (h.nonShared + h.valueLength) % WIDTH32 then None else Some(h)
  }

  /** The fast path reads what the slow one would. */
  lemma FastIsSlow(p: Bytes)
    requires |p| >= 3 && p[0] < 128 && p[1] < 128 && p[2] < 128
    ensures SlowHead(p) == Some(Head(p[0], p[1], p[2], p[3..]))
  {
    assert p[1..][0] == p[1] && p[1..][1..] == p[2..] && p[2..][0] == p[2] && p[2..][1..] == p[3..];
    assert GetVarint32(p) == Some((p[0] as nat, p[1..]));
    assert GetVarint32(p[1..]) == Some((p[1] as nat, p[2..]));
    assert GetVarint32(p[2..]) == Some((p[2] as nat, p[3..]));
  }

  lemma Reassociate(a: Bytes, b: Bytes, c: Bytes, d: Bytes, e: Bytes)
    ensures (a + (b + (c + d))) + e == a + (b + (c + (d + e)))
  {
  }

  /** An entry's lengths are read back, when what follows it is not absurdly long. */
  lemma HeadRoundTrip(shared: nat, item: Item, tail: Bytes)
    requires shared <= |item.key| < WIDTH32 && |item.key| - shared + |item.value| + |tail| < WIDTH32
    ensures DecodeEntry(ItemBytes(shared, item) + tail) ==
            Some(Head(shared, |item.key| - shared, |item.value|, item.key[shared..] + item.value + tail))
  {
    var n, v, d := |item.key| - shared, |item.value|, item.key[shared..] + item.value;
    Reassociate(Varint(shared), Varint(n), Varint(v), d, tail);
    SlowRoundTrip(shared, n, v, d + tail);
    Decodes(ItemBytes(shared, item) + tail, Head(shared, n, v, d + tail));
  }

  lemma SlowRoundTrip(shared: nat, n: nat, v: nat, rest: Bytes)
    requires shared < WIDTH32 && n < WIDTH32 && v < WIDTH32
    ensures var p := Varint(shared) + (Varint(n) + (Varint(v) + rest));
            |p| >= 3 + |rest| && SlowHead(p) == Some(Head(shared, n, v, rest))
  {
    Varint32RoundTrip(shared, Varint(n) + (Varint(v) + rest));
    Varint32RoundTrip(n, Varint(v) + rest);
    Varint32RoundTrip(v, rest);
  }

  lemma Decodes(p: Bytes, h: Head)
    requires |p| >= 3 && SlowHead(p) == Some(h) && h.nonShared + h.valueLength <= |h.rest| < WIDTH32
    ensures DecodeEntry(p) == Some(h)
  {
    if p[0] < 128 && p[1] < 128 && p[2] < 128 {
      FastIsSlow(p);
    }
    assert |h.rest| % WIDTH32 == |h.rest| && (h.nonShared + h.valueLength) % WIDTH32 == h.nonShared + h.valueLength;
  }

  // ---- A block ----

  /** The entries, and which of them are restart points. */
  datatype Layout = Layout(items: seq<Item>, starts: seq<nat>)

  function SharedAt(l: Layout, i: nat): (n: nat)
    requires i < |l.items|
    ensures n <= |l.items[i].key|
  {
    if i == 0 || i in l.starts then 0 else Common(l.items[i - 1].key, l.items[i].key)
  }

  function EntryAt(l: Layout, i: nat): Bytes
    requires i < |l.items|
  {
    ItemBytes(SharedAt(l, i), l.items[i])
  }

  /** The bytes of the first `n` entries. */
  function Data(l: Layout, n: nat): Bytes
    requires n <= |l.items|
  {
    if n == 0 then [] else Data(l, n - 1) + EntryAt(l, n - 1)
  }

  function Offset(l: Layout, n: nat): nat
    requires n <= |l.items|
  {
    |Data(l, n)|
  }

  ghost predicate Rises(starts: seq<nat>, j: nat)
    requires j + 1 < |starts|
  {
    starts[j] < starts[j + 1]
  }

  /** The restart points begin with the first entry and rise, each at an entry. */
  ghost predicate StartsOk(l: Layout) {
    && |l.starts| > 0 && l.starts[0] == 0 && (forall j: nat | j + 1 < |l.starts| :: Rises(l.starts, j))
    && (|l.starts| > 1 ==> l.starts[|l.starts| - 1] < |l.items|)
  }

  lemma {:induction false} StartsOrder(starts: seq<nat>, i: nat, j: nat)
    requires i <= j < |starts| && forall j: nat | j + 1 < |starts| :: Rises(starts, j)
    ensures starts[i] + (j - i) <= starts[j]
    decreases j
  {
    if i < j {
      StartsOrder(starts, i, j - 1);
      assert Rises(starts, j - 1);
    }
  }

  lemma StartIsEntry(l: Layout, j: nat)
    requires StartsOk(l) && j < |l.starts|
    ensures l.starts[j] <= |l.items| && (j > 0 ==> l.starts[j] < |l.items|)
            && (l.items != [] ==> l.starts[j] < |l.items|)
  {
    StartsOrder(l.starts, j, |l.starts| - 1);
  }

  lemma NotAfterLast(l: Layout, i: nat)
    requires StartsOk(l) && i > l.starts[|l.starts| - 1]
    ensures i !in l.starts
  {
    forall j | 0 <= j < |l.starts| ensures l.starts[j] < i {
      StartsOrder(l.starts, j, |l.starts| - 1);
    }
  }

  lemma {:induction false} OffsetsRise(l: Layout, i: nat, j: nat)
    requires i <= j <= |l.items|
    ensures Data(l, i) <= Data(l, j) && Offset(l, i) + (j - i) <= Offset(l, j)
    decreases j
  {
    if i < j {
      OffsetsRise(l, i, j - 1);
    }
  }

  /** The entry is where its offset says. */
  lemma EntryLies(l: Layout, i: nat)
    requires i < |l.items|
    ensures Offset(l, i) + |EntryAt(l, i)| == Offset(l, i + 1) <= Offset(l, |l.items|)
    ensures Data(l, |l.items|)[Offset(l, i)..Offset(l, i + 1)] == EntryAt(l, i)
  {
    OffsetsRise(l, i + 1, |l.items|);
    var d := Data(l, |l.items|);
    assert d[..Offset(l, i + 1)] == Data(l, i + 1);
    assert d[Offset(l, i)..Offset(l, i + 1)] == d[..Offset(l, i + 1)][Offset(l, i)..];
  }

  /** The restart array's first `r` offsets. */
  function Points(l: Layout, r: nat): (b: Bytes)
    requires StartsOk(l) && r <= |l.starts|
    ensures |b| == 4 * r
  {
    if r == 0 then []
    else
      StartIsEntry(l, r - 1);
      Points(l, r - 1) + CutWord(Offset(l, l.starts[r - 1]))
  }

  /** The entries are short enough for 32-bit offsets. */
  ghost predicate SizeOk(l: Layout) {
    Offset(l, |l.items|) < WIDTH32
  }

  lemma StartFits(l: Layout, j: nat)
    requires SizeOk(l) && StartsOk(l) && j < |l.starts|
    ensures l.starts[j] <= |l.items| && Offset(l, l.starts[j]) < WIDTH32 && |l.starts| < WIDTH32
  {
    StartIsEntry(l, j);
    OffsetsRise(l, l.starts[j], |l.items|);
    StartsOrder(l.starts, 0, |l.starts| - 1);
    OffsetsRise(l, 0, |l.items|);
  }

  /** A key is no longer than the entries up to it. */
  lemma {:induction false} KeyWithin(l: Layout, i: nat)
    requires i < |l.items|
    ensures |l.items[i].key| <= Offset(l, i + 1)
    decreases i
  {
    if i > 0 {
      KeyWithin(l, i - 1);
    }
  }

  lemma KeyFits(l: Layout, i: nat)
    requires SizeOk(l) && i < |l.items|
    ensures |l.items[i].key| < WIDTH32
  {
    KeyWithin(l, i);
    OffsetsRise(l, i + 1, |l.items|);
  }

  /** The key before an entry has the bytes it shares; a restart point shares none. */
  lemma KeySharing(l: Layout, n: nat, key: Bytes)
    requires n < |l.items| && (n == 0 || n in l.starts || key == l.items[n - 1].key)
    ensures SharedAt(l, n) <= |key| && key[..SharedAt(l, n)] == l.items[n].key[..SharedAt(l, n)]
  {
  }

  lemma EntrySplits(l: Layout, n: nat)
    requires n < |l.items|
    ensures Offset(l, n) + |EntryAt(l, n)| == Offset(l, n + 1) <= Offset(l, |l.items|)
    ensures var d := Data(l, |l.items|); d[Offset(l, n)..] == EntryAt(l, n) + d[Offset(l, n + 1)..]
  {
    EntryLies(l, n);
    SplitAt(Data(l, |l.items|), Offset(l, n), Offset(l, n + 1));
  }

  lemma SplitAt(d: Bytes, a: nat, b: nat)
    requires a <= b <= |d|
    ensures d[a..] == d[a..b] + d[b..]
  {
  }

  /** A finished block. */
  function Block(l: Layout): Bytes
    requires StartsOk(l)
  {
    Data(l, |l.items|) + Points(l, |l.starts|) + CutWord(|l.starts|)
  }

  function PointAt(block: Bytes, restarts: nat, r: nat): Word
    requires restarts + 4 * r + 4 <= |block|
  {
    DecodeFixed32(block[restarts + 4 * r..restarts + 4 * r + 4])
  }

  lemma {:induction false} PointLies(l: Layout, r: nat, j: nat)
    requires StartsOk(l) && j < r <= |l.starts|
    ensures l.starts[j] <= |l.items| && Points(l, r)[4 * j..4 * j + 4] == CutWord(Offset(l, l.starts[j]))
    decreases r
  {
    StartIsEntry(l, j);
    StartIsEntry(l, r - 1);
    WordSlice(Points(l, r - 1), CutWord(Offset(l, l.starts[r - 1])), r - 1, j);
    if j < r - 1 {
      PointLies(l, r - 1, j);
    }
  }

  /** A word of a sequence of `n` words and one more. */
  lemma WordSlice(b: Bytes, w: Bytes, n: nat, j: nat)
    requires |b| == 4 * n && |w| == 4 && j <= n
    ensures (b + w)[4 * j..4 * j + 4] == if j < n then b[4 * j..4 * j + 4] else w
  {
  }

  lemma PointReads(l: Layout, j: nat)
    requires StartsOk(l) && SizeOk(l) && j < |l.starts|
    ensures var d := Offset(l, |l.items|);
            l.starts[j] <= |l.items| && d + 4 * j + 4 <= |Block(l)| && PointAt(Block(l), d, j) == Offset(l, l.starts[j])
  {
    StartFits(l, j);
    PointLies(l, |l.starts|, j);
    PointIn(Data(l, |l.items|), Points(l, |l.starts|), CutWord(|l.starts|), j);
  }

  lemma PointIn(d: Bytes, ps: Bytes, w: Bytes, j: nat)
    requires 4 * j + 4 <= |ps|
    ensures var b := d + ps + w;
            |d| + 4 * j + 4 <= |b| && PointAt(b, |d|, j) == DecodeFixed32(ps[4 * j..4 * j + 4])
  {
    var b := d + ps + w;
    assert b[|d| + 4 * j..|d| + 4 * j + 4] == ps[4 * j..4 * j + 4];
  }

  lemma CountReads(l: Layout)
    requires StartsOk(l) && SizeOk(l)
    ensures var b := Block(l); |b| >= 4 && DecodeFixed32(b[|b| - 4..]) == |l.starts|
                               && |b| == Offset(l, |l.items|) + 4 * |l.starts| + 4
  {
    var b := Block(l);
    StartFits(l, 0);
    assert b[|b| - 4..] == CutWord(|l.starts|);
  }
}
