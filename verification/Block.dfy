/** The block builder and the block iterator as they run (table/block_builder.cc, table/block.cc). */
module Block {
  import opened DbFormat
  import opened Coding
  import opened BlockFormat

  // ---- Building ----

  /** Adding an entry leaves the bytes of those before it. */
  lemma {:induction false} DataStays(l: Layout, l': Layout, n: nat)
    requires n <= |l.items| && l.items <= l'.items && l.starts <= l'.starts
    requires forall j | |l.starts| <= j < |l'.starts| :: n <= l'.starts[j]
    ensures Data(l', n) == Data(l, n)
  {
    if n > 0 {
      DataStays(l, l', n - 1);
      SharedStays(l, l', n - 1);
    }
  }

  lemma SharedStays(l: Layout, l': Layout, i: nat)
    requires i < |l.items| && l.items <= l'.items && l.starts <= l'.starts
    requires forall j | |l.starts| <= j < |l'.starts| :: i < l'.starts[j]
    ensures SharedAt(l', i) == SharedAt(l, i)
  {
    assert i in l.starts ==> i in l'.starts;
  }

  /** Restart points `interval` entries apart. */
  ghost predicate Spaced(starts: seq<nat>, interval: nat) {
    forall j: nat | j + 1 < |starts| :: Gap(starts, j, interval)
  }

  ghost predicate Gap(starts: seq<nat>, j: nat, interval: nat)
    requires j + 1 < |starts|
  {
    starts[j + 1] == starts[j] + interval
  }

  /** The builder's offsets are those of the restart points. */
  ghost predicate Marks(restarts: seq<nat>, l: Layout) {
    |restarts| == |l.starts| && forall j | 0 <= j < |restarts| :: l.starts[j] <= |l.items|
                                                                  && restarts[j] == Offset(l, l.starts[j])
  }

  ghost function Extended(l: Layout, item: Item, restart: bool): Layout {
    Layout(l.items + [item], if restart then l.starts + [|l.items|] else l.starts)
  }

  lemma ExtendedData(l: Layout, item: Item, restart: bool)
    requires StartsOk(l)
    ensures var l', n := Extended(l, item, restart), |l.items|;
            && Data(l', n) == Data(l, n) && Data(l', n + 1) == Data(l, n) + ItemBytes(SharedAt(l', n), item)
            && (SharedAt(l', n) == if n == 0 || restart then 0 else Common(l.items[n - 1].key, item.key))
  {
    var l', n := Extended(l, item, restart), |l.items|;
    DataStays(l, l', n);
    if restart {
      assert l'.starts[|l.starts|] == n;
    } else if n > 0 {
      NotAfterLast(l, n);
    }
  }

  lemma ExtendedMarks(l: Layout, item: Item, restart: bool, restarts: seq<nat>)
    requires Marks(restarts, l)
    ensures Marks(if restart then restarts + [Offset(l, |l.items|)] else restarts, Extended(l, item, restart))
  {
    var l' := Extended(l, item, restart);
    forall j | 0 <= j < |l.starts| ensures Offset(l', l.starts[j]) == Offset(l, l.starts[j]) {
      DataStays(l, l', l.starts[j]);
    }
    DataStays(l, l', |l.items|);
  }

  lemma ExtendedStarts(l: Layout, item: Item, restart: bool, interval: nat)
    requires StartsOk(l) && Spaced(l.starts, interval) && interval > 0
             && (restart ==> l.starts[|l.starts| - 1] + interval == |l.items|)
    ensures StartsOk(Extended(l, item, restart)) && Spaced(Extended(l, item, restart).starts, interval)
  {
    var s, s' := l.starts, Extended(l, item, restart).starts;
    forall j: nat | j + 1 < |s'| ensures Rises(s', j) && Gap(s', j, interval) {
      if j + 1 < |s| {
        assert Rises(s, j) && Gap(s, j, interval);
      }
    }
  }

  /** The restart points are an interval apart, and the counter says how far the last one is back. */
  ghost predicate PlacesOk(interval: nat, restarts: seq<nat>, counter: nat, l: Layout) {
    && interval > 0 && StartsOk(l) && Spaced(l.starts, interval) && Marks(restarts, l)
    && counter <= interval && l.starts[|l.starts| - 1] + counter == |l.items|
  }

  ghost predicate BytesOk(buffer: Bytes, lastKey: Bytes, l: Layout) {
    buffer == Data(l, |l.items|) && lastKey == (if l.items == [] then [] else l.items[|l.items| - 1].key)
  }

  lemma AddPlaces(interval: nat, restarts: seq<nat>, counter: nat, l: Layout, item: Item, restart: bool)
    requires PlacesOk(interval, restarts, counter, l) && restart == (counter == interval)
    ensures var restarts' := if restart then restarts + [Offset(l, |l.items|)] else restarts;
            PlacesOk(interval, restarts', if restart then 1 else counter + 1, Extended(l, item, restart))
  {
    ExtendedStarts(l, item, restart, interval);
    ExtendedMarks(l, item, restart, restarts);
  }

  lemma AddBytes(buffer: Bytes, lastKey: Bytes, l: Layout, item: Item, restart: bool)
    requires BytesOk(buffer, lastKey, l) && StartsOk(l)
    ensures BytesOk(buffer + ItemBytes(if restart then 0 else Common(lastKey, item.key), item), item.key,
              Extended(l, item, restart))
  {
    ExtendedData(l, item, restart);
    assert Common([], item.key) == 0;
  }

  class BlockBuilder {
    const interval: nat
    var buffer: Bytes
    var restarts: seq<nat>
    var counter: nat
    var lastKey: Bytes
    ghost var l: Layout

    /** Quantified, so that it unfolds only where a proof asks for `Lays`. */
    ghost predicate Valid()
      reads this
    {
      interval > 0 && StartsOk(l) && forall x: Layout | x == l :: Lays(x)
    }

    ghost predicate Lays(x: Layout)
      reads this
    {
      PlacesOk(interval, restarts, counter, x) && BytesOk(buffer, lastKey, x)
    }

    constructor (interval: nat)
      requires interval > 0
      ensures Valid() && this.interval == interval && l.items == []
    {
      this.interval := interval;
      buffer, restarts, counter, lastKey := [], [0], 0, [];
      l := Layout([], [0]);
    }

    /** How much of the key the last key already has. */
    method SharedPrefix(key: Bytes) returns (shared: nat)
      ensures shared == Common(lastKey, key)
    {
      shared := 0;
      while shared < |lastKey| && shared < |key| && lastKey[shared] == key[shared]
        invariant shared <= |lastKey| && shared <= |key| && CommonFrom(lastKey, key, shared) == Common(lastKey, key)
      {
        shared := shared + 1;
      }
    }

    method Add(key: Bytes, value: Bytes)
      requires Valid()
      modifies this
      ensures Valid() && l.items == old(l.items) + [Item(key, value)]
    {
      assert Lays(l);
      ghost var item, restart := Item(key, value), counter == interval;
      ghost var l' := Extended(l, item, restart);
      ghost var restarts', counter' := if restart then restarts + [|buffer|] else restarts,
                                       if restart then 1 else counter + 1;
      assert PlacesOk(interval, restarts', counter', l') by {
        AddPlaces(interval, restarts, counter, l, item, restart);
      }
      assert BytesOk(buffer + ItemBytes(if restart then 0 else Common(lastKey, key), item), key, l') by {
        AddBytes(buffer, lastKey, l, item, restart);
      }
      var shared := Share(key);
      Append(shared, key, value);
      l := l';
    }

    /** How many bytes to share, or a restart point when it is time for one. */
    method Share(key: Bytes) returns (shared: nat)
      requires counter <= interval
      modifies this`restarts, this`counter
      ensures old(counter) < interval ==> shared == Common(lastKey, key) && restarts == old(restarts)
                                          && counter == old(counter) + 1
      ensures old(counter) == interval ==> shared == 0 && restarts == old(restarts) + [|buffer|] && counter == 1
    {
      shared := 0;
      if counter < interval {
        shared := SharedPrefix(key);
      } else {
        restarts := restarts + [|buffer|];
        counter := 0;
      }
      counter := counter + 1;
    }

    method Append(shared: nat, key: Bytes, value: Bytes)
      requires shared <= |key| && shared <= |lastKey| && lastKey[..shared] == key[..shared]
      modifies this`buffer, this`lastKey
      ensures buffer == old(buffer) + ItemBytes(shared, Item(key, value)) && lastKey == key
    {
      buffer := buffer + (Varint(shared) + (Varint(|key| - shared) + (Varint(|value|) + (key[shared..] + value))));
      Rebuilt(lastKey, key, shared);
      lastKey := lastKey[..shared] + key[shared..];
    }

    predicate IsEmpty()
      reads this
    {
      buffer == []
    }

    lemma EmptyHasNone()
      requires Valid()
      ensures IsEmpty() <==> l.items == []
    {
      assert Lays(l);
      OffsetsRise(l, 0, |l.items|);
    }

    /** The size when finished. */
    function SizeEstimate(): nat
      reads this
    {
      |buffer| + 4 * |restarts| + 4
    }

    /** It is the length of what Finish would give. */
    lemma EstimateIs()
      requires Valid()
      ensures SizeEstimate() == |BlockFormat.Block(l)|
    {
      assert Lays(l);
    }

    /** Back to an empty block. */
    method Reset()
      requires interval > 0
      modifies this
      ensures Valid() && l.items == []
    {
      buffer, restarts, counter, lastKey := [], [0], 0, [];
      l := Layout([], [0]);
    }

    method Finish() returns (block: Bytes)
      requires Valid()
      ensures StartsOk(l) && block == BlockFormat.Block(l)
    {
      assert Lays(l);
      block := AppendPoints(buffer, restarts, l);
    }
  }

  /** Append the restart array and its length. */
  method AppendPoints(buffer: Bytes, restarts: seq<nat>, ghost l: Layout) returns (block: Bytes)
    requires StartsOk(l) && Marks(restarts, l) && buffer == Data(l, |l.items|)
    ensures block == BlockFormat.Block(l)
  {
    block := buffer;
    for i := 0 to |restarts|
      invariant block == buffer + Points(l, i)
    {
      OneMorePoint(buffer, l, i);
      block := block + CutWord(restarts[i]);
    }
    block := block + CutWord(|restarts|);
  }

  lemma OneMorePoint(buffer: Bytes, l: Layout, i: nat)
    requires StartsOk(l) && i < |l.starts|
    ensures l.starts[i] <= |l.items|
            && (buffer + Points(l, i)) + CutWord(Offset(l, l.starts[i])) == buffer + Points(l, i + 1)
  {
    StartIsEntry(l, i);
  }

  lemma Rebuilt(a: Bytes, b: Bytes, n: nat)
    requires n <= |a| && n <= |b| && a[..n] == b[..n]
    ensures a[..n] + b[n..] == b
  {
  }

  // ---- Reading ----

  /** Keys in the order of a comparator. */
  ghost predicate KeysRise(items: seq<Item>, less: (Bytes, Bytes) -> bool) {
    forall i, j | 0 <= i < j < |items| :: less(items[i].key, items[j].key)
  }

  ghost predicate Transitive(less: (Bytes, Bytes) -> bool) {
    forall a, b, c :: less(a, b) && less(b, c) ==> less(a, c)
  }

  /** The offsets of the entries, and of the end of the last. */
  ghost predicate Offsets(off: seq<nat>, l: Layout) {
    && |off| == |l.items| + 1
    && (forall i: nat | i < |off| :: OffsetIs(off, l, i))
    && (forall i: nat | i + 1 < |off| :: Rises(off, i))
  }

  ghost predicate OffsetIs(off: seq<nat>, l: Layout, i: nat)
    requires i < |off| == |l.items| + 1
  {
    off[i] == Offset(l, i)
  }

  lemma {:induction false} OffsetsExist(l: Layout, n: nat) returns (off: seq<nat>)
    requires n <= |l.items|
    ensures |off| == n + 1 && (forall i: nat | i < |off| :: off[i] == Offset(l, i))
            && (forall i: nat | i + 1 < |off| :: Rises(off, i))
    decreases n
  {
    if n == 0 {
      off := [0];
    } else {
      var before := OffsetsExist(l, n - 1);
      off := before + [Offset(l, n)];
      OffsetsRise(l, n - 1, n);
      forall i: nat | i + 1 < |off| ensures Rises(off, i) {
        if i + 1 < n {
          assert Rises(before, i);
        }
      }
    }
  }

  lemma OffOrder(off: seq<nat>, i: nat, j: nat)
    requires i < |off| && j < |off| && forall i: nat | i + 1 < |off| :: Rises(off, i)
    ensures off[i] < off[j] <==> i < j
  {
    if i < j {
      StartsOrder(off, i, j);
    } else {
      StartsOrder(off, j, i);
    }
  }

  /** The restart array names the offsets of the restart points. */
  ghost predicate PointsAt(points: seq<nat>, off: seq<nat>, starts: seq<nat>) {
    |points| == |starts| && forall j: nat | j < |points| :: PointIs(points, off, starts, j)
  }

  ghost predicate PointIs(points: seq<nat>, off: seq<nat>, starts: seq<nat>, j: nat)
    requires j < |points| && j < |starts|
  {
    starts[j] < |off| && points[j] == off[starts[j]]
  }

  /** The iterator is on entry `i`. */
  ghost predicate OnItem(l: Layout, off: seq<nat>, current: nat, restartIndex: nat, key: Bytes, end: nat, i: nat) {
    && i < |l.items| && i + 1 < |off| && current == off[i] && key == l.items[i].key && end == off[i + 1]
    && restartIndex < |l.starts| && l.starts[restartIndex] <= i
    && (restartIndex + 1 < |l.starts| ==> i <= l.starts[restartIndex + 1])
  }

  /** The next entry parsed will be entry `n`. */
  ghost predicate Pending(l: Layout, off: seq<nat>, restartIndex: nat, key: Bytes, end: nat, n: nat) {
    && n < |off| && n <= |l.items| && end == off[n] && restartIndex < |l.starts| && l.starts[restartIndex] <= n
    && (n == 0 || n in l.starts || n == |l.items| || key == l.items[n - 1].key)
  }

  lemma ItemSplits(a: Bytes, b: Bytes, c: Bytes, k: Bytes, v: Bytes)
    ensures a + (b + (c + (k + v))) == (a + b + c + k) + v
  {
  }

  lemma EndsWith(d: Bytes, o: nat, e: nat, front: Bytes, v: Bytes)
    requires o <= e <= |d| && d[o..e] == front + v
    ensures |v| <= e && d[e - |v|..e] == v
  {
    assert d[e - |v|..e] == d[o..e][|front|..];
  }

  lemma DeltaCompletes(item: Item, shared: nat, key: Bytes, tail: Bytes)
    requires shared <= |key| && shared <= |item.key| && key[..shared] == item.key[..shared]
    ensures key[..shared] + (item.key[shared..] + item.value + tail)[..|item.key| - shared] == item.key
  {
    assert (item.key[shared..] + item.value + tail)[..|item.key| - shared] == item.key[shared..];
  }

  /** Parsing entry `n` from the bytes at its offset; the check for damage never fires. */
  method ParseEntry(data: Bytes, current: nat, key: Bytes, ghost l: Layout, ghost off: seq<nat>, ghost n: nat)
    returns (ok: bool, key': Bytes, start: nat, end: nat)
    requires SizeOk(l) && n < |l.items| && data == Data(l, |l.items|) && Offsets(off, l) && current == off[n]
    requires n == 0 || n in l.starts || key == l.items[n - 1].key
    ensures ok && key' == l.items[n].key && end == off[n + 1] && HasValue(data, start, end, l.items[n].value)
  {
    assert OffsetIs(off, l, n) && OffsetIs(off, l, n + 1);
    ParseFacts(l, n, key);
    var h := DecodeEntry(data[current..]);
    ok, key', start, end := false, [], 0, 0;
    if h.None? || |key| < h.value.shared {
      return;
    }
    ok := true;
    key' := key[..h.value.shared] + h.value.rest[..h.value.nonShared];
    start := |data| - |h.value.rest| + h.value.nonShared;
    end := start + h.value.valueLength;
  }

  /** What decoding yields for the entry in bytes `o` to `e`. */
  ghost predicate Parsed(data: Bytes, o: nat, e: nat, item: Item, key: Bytes) {
    && o <= e <= |data|
    && var h := DecodeEntry(data[o..]);
       && h.Some? && h.value.shared <= |key| && h.value.nonShared <= |h.value.rest| <= |data|
       && key[..h.value.shared] + h.value.rest[..h.value.nonShared] == item.key
       && var start := |data| - |h.value.rest| + h.value.nonShared;
          start + h.value.valueLength == e && HasValue(data, start, e, item.value)
  }

  lemma ParsedBytes(data: Bytes, o: nat, e: nat, item: Item, shared: nat, key: Bytes)
    requires o <= e <= |data| && shared <= |item.key| && |item.key| - shared + |item.value| <= e
    requires DecodeEntry(data[o..]) ==
             Some(Head(shared, |item.key| - shared, |item.value|, item.key[shared..] + item.value + data[e..]))
    requires shared <= |key| && key[..shared] == item.key[..shared] && HasValue(data, e - |item.value|, e, item.value)
    ensures Parsed(data, o, e, item, key)
  {
    DeltaCompletes(item, shared, key, data[e..]);
  }

  /** An entry lying in the data is parsed. */
  lemma EntryParses(data: Bytes, o: nat, e: nat, item: Item, shared: nat, key: Bytes)
    requires shared <= |item.key| < WIDTH32 && |data| < WIDTH32 && o + |ItemBytes(shared, item)| == e <= |data|
    requires data[o..] == ItemBytes(shared, item) + data[e..] && shared <= |key| && key[..shared] == item.key[..shared]
    ensures Parsed(data, o, e, item, key)
  {
    HeadRoundTrip(shared, item, data[e..]);
    ValueLies(data, o, e, item, shared);
    ParsedBytes(data, o, e, item, shared, key);
  }

  /** The value lies at the end of its entry. */
  lemma ValueLies(data: Bytes, o: nat, e: nat, item: Item, shared: nat)
    requires shared <= |item.key| && o + |ItemBytes(shared, item)| == e <= |data|
             && data[o..] == ItemBytes(shared, item) + data[e..]
    ensures |item.value| <= e && HasValue(data, e - |item.value|, e, item.value)
  {
    var a, b, c, k := Varint(shared), Varint(|item.key| - shared), Varint(|item.value|), item.key[shared..];
    ItemSplits(a, b, c, k, item.value);
    FrontOf(data, o, e, ItemBytes(shared, item));
    EndsWith(data, o, e, a + b + c + k, item.value);
  }

  lemma FrontOf(data: Bytes, o: nat, e: nat, entry: Bytes)
    requires o + |entry| == e <= |data| && data[o..] == entry + data[e..]
    ensures data[o..e] == entry
  {
    assert data[o..e] == data[o..][..e - o];
  }

  lemma ParseFacts(l: Layout, n: nat, key: Bytes)
    requires SizeOk(l) && n < |l.items| && (n == 0 || n in l.starts || key == l.items[n - 1].key)
    ensures Parsed(Data(l, |l.items|), Offset(l, n), Offset(l, n + 1), l.items[n], key)
  {
    EntrySplits(l, n);
    KeyFits(l, n);
    KeySharing(l, n, key);
    EntryParses(Data(l, |l.items|), Offset(l, n), Offset(l, n + 1), l.items[n], SharedAt(l, n), key);
  }

  class BlockIter {
    const data: Bytes           // the entries
    const points: seq<nat>      // the restart array, decoded
    const less: (Bytes, Bytes) -> bool
    var current: nat
    var restartIndex: nat
    var key: Bytes
    var valueStart: nat
    var valueEnd: nat

    ghost const l: Layout
    ghost const off: seq<nat>
    ghost var at: nat           // the entry it is on; |l.items| when it is on none

    ghost predicate Fine()
    {
      SizeOk(l) && StartsOk(l) && Offsets(off, l) && PointsAt(points, off, l.starts) && data == Data(l, |l.items|)
        && |data| == off[|l.items|]
    }

    ghost predicate Valid()
      reads this
    {
      && Fine() && at <= |l.items|
      && (if at < |l.items| then OnItem(l, off, current, restartIndex, key, valueEnd, at)
                                 && HasValue(data, valueStart, valueEnd, l.items[at].value)
          else current == |data|)
    }

    /** On a block whose bytes are as the builder makes them. */
    constructor (block: Bytes, less: (Bytes, Bytes) -> bool, ghost l: Layout)
      requires SizeOk(l) && StartsOk(l) && block == BlockFormat.Block(l)
      ensures Valid() && at == |l.items| && this.l == l && this.less == less
    {
      CountReads(l);
      var num: nat := DecodeFixed32(block[|block| - 4..]);
      var restarts := |block| - 4 * num - 4;
      ghost var off := OffsetsExist(l, |l.items|);
      var ps := ReadPoints(block, restarts, num, l, off);
      this.less := less;
      data := block[..restarts];
      points := ps;
      current, restartIndex, key, valueStart, valueEnd := restarts, num, [], 0, 0;
      this.l := l;
      this.off := off;
      at := |l.items|;
      new;
      assert block[..restarts] == Data(l, |l.items|);
    }

    predicate HasItem()
      reads this
    {
      current < |data|
    }

    /** Be about to parse the entry at a restart point. */
    method SeekToRestartPoint(index: nat)
      requires Fine() && index < |points|
      modifies this
      ensures Pending(l, off, restartIndex, key, valueEnd, l.starts[index]) && restartIndex == index
    {
      StartIsEntry(l, index);
      assert PointIs(points, off, l.starts, index);
      key := [];
      restartIndex := index;
      valueStart, valueEnd := points[index], points[index];
      assert l.starts[index] in l.starts;
    }

    /** On to the next entry, if there is one. */
    method ParseNextKey(ghost n: nat) returns (ok: bool)
      requires Fine() && Pending(l, off, restartIndex, key, valueEnd, n)
      modifies this
      ensures Valid() && at == n && ok == (n < |l.items|)
    {
      OffOrder(off, n, |l.items|);
      at := n;
      current := valueEnd;
      if current >= |data| {
        current, restartIndex := |data|, |points|;
        return false;
      }
      var key', start, end;
      ok, key', start, end := ParseEntry(data, current, key, l, off, n);
      key, valueStart, valueEnd := key', start, end;
      restartIndex := AdvanceRestart(points, restartIndex, current, l, off, n);
    }

    method Next()
      requires Valid() && HasItem()
      modifies this
      ensures Valid() && old(at) < |l.items| && at == old(at) + 1
    {
      ghost var n := at + 1;
      OnePending(l, off, current, restartIndex, key, valueEnd, at);
      var _ := ParseNextKey(n);
    }

    method SeekToFirst()
      requires Valid()
      modifies this
      ensures Valid() && at == 0
    {
      SeekToRestartPoint(0);
      var _ := ParseNextKey(0);
    }

    /** Parse on until the entry that ends at `limit`, the offset of entry `m + 1`. */
    method ParseUpTo(limit: nat, ghost n: nat, ghost m: nat)
      requires Fine() && Pending(l, off, restartIndex, key, valueEnd, n) && n <= m < |l.items| && limit == off[m + 1]
      modifies this
      ensures Valid() && at == m
    {
      var more := ParseNextKey(n);
      OffOrder(off, at + 1, m + 1);
      while more && valueEnd < limit
        invariant Valid() && n <= at <= m && more && (valueEnd < limit <==> at < m)
        decreases m - at
      {
        ghost var next := at + 1;
        OnePending(l, off, current, restartIndex, key, valueEnd, at);
        more := ParseNextKey(next);
        OffOrder(off, at + 1, m + 1);
      }
    }

    method SeekToLast()
      requires Valid()
      modifies this
      ensures Valid() && at == if l.items == [] then 0 else |l.items| - 1
    {
      StartIsEntry(l, |points| - 1);
      SeekToRestartPoint(|points| - 1);
      ghost var n := l.starts[|points| - 1];
      if valueEnd >= |data| {
        OffOrder(off, n, |l.items|);
        var _ := ParseNextKey(n);
      } else {
        OffOrder(off, n, |l.items|);
        ParseUpTo(|data|, n, |l.items| - 1);
      }
    }

    /** To the first entry not before the target, as a search from the first entry on would find. */
    method Seek(target: Bytes)
      requires Valid() && KeysRise(l.items, less) && Transitive(less)
      modifies this
      ensures Valid() && FirstNotBefore(l.items, less, target, at)
    {
      var left := FindRestart(target);
      ghost var n := l.starts[left];
      SeekToRestartPoint(left);
      ScanTo(target, n);
    }

    /** Parse on until a key is not before the target. */
    method ScanTo(target: Bytes, ghost n: nat)
      requires Fine() && Pending(l, off, restartIndex, key, valueEnd, n) && AllBefore(l.items, less, target, n)
      modifies this
      ensures Valid() && FirstNotBefore(l.items, less, target, at)
    {
      var more := ParseNextKey(n);
      while more && less(key, target)
        invariant Valid() && more == (at < |l.items|) && AllBefore(l.items, less, target, at)
        decreases |l.items| - at
      {
        ghost var next := at + 1;
        OnePending(l, off, current, restartIndex, key, valueEnd, at);
        more := ParseNextKey(next);
      }
    }

    /** The last restart point whose key is before the target, or the first one. */
    method FindRestart(target: Bytes) returns (left: nat)
      requires Fine() && KeysRise(l.items, less) && Transitive(less)
      ensures left < |points| && AllBefore(l.items, less, target, l.starts[left])
    {
      left := 0;
      var right := |points| - 1;
      while left < right
        invariant left <= right < |points| && (left > 0 ==> l.starts[left] < |l.items|
                                                            && less(l.items[l.starts[left]].key, target))
      {
        var mid := (left + right + 1) / 2;
        StartIsEntry(l, mid);
        assert PointIs(points, off, l.starts, mid);
        var ok, midKey := RestartKey(data, points[mid], l, off, l.starts[mid]);
        if !ok {
          return;
        }
        if less(midKey, target) {
          left := mid;
        } else {
          right := mid - 1;
        }
      }
      EarlierBefore(l.items, less, target, l.starts[left], left > 0);
    }

    /** One entry back; off the block from the first entry. */
    method Prev()
      requires Valid() && HasItem()
      modifies this
      ensures Valid() && at == if old(at) == 0 then |l.items| else old(at) - 1
    {
      var original := current;
      ghost var i := at;
      var found := BackToRestart(i);
      if !found {
        current, restartIndex := |data|, |points|;
        at := |l.items|;
        return;
      }
      SeekToRestartPoint(restartIndex);
      ParseUpTo(original, l.starts[restartIndex], i - 1);
    }

    /** Back to the last restart point before entry `i`; false when there is none. */
    method BackToRestart(ghost i: nat) returns (found: bool)
      requires Fine() && OnItem(l, off, current, restartIndex, key, valueEnd, i)
      modifies this`restartIndex
      ensures found == (i > 0) && (found ==> restartIndex < |points| && l.starts[restartIndex] < i)
    {
      while points[restartIndex] >= current
        invariant restartIndex < |points|
        decreases restartIndex
      {
        PointOrder(points, restartIndex, current, l, off, i);
        if restartIndex == 0 {
          return false;
        }
        restartIndex := restartIndex - 1;
      }
      PointOrder(points, restartIndex, current, l, off, i);
      return true;
    }
  }

  /** Every entry of a block, first to last. */
  method ReadItems(block: Bytes, less: (Bytes, Bytes) -> bool, ghost l: Layout) returns (items: seq<Item>)
    requires SizeOk(l) && StartsOk(l) && block == BlockFormat.Block(l)
    ensures items == l.items
  {
    var iter := new BlockIter(block, less, l);
    iter.SeekToFirst();
    items := [];
    OffOrder(iter.off, iter.at, |l.items|);
    while iter.HasItem()
      invariant iter.Valid() && iter.l == l && fresh(iter) && items == l.items[..iter.at]
                && (iter.HasItem() <==> iter.at < |l.items|)
      decreases |l.items| - iter.at
    {
      items := items + [Item(iter.key, iter.data[iter.valueStart..iter.valueEnd])];
      iter.Next();
      OffOrder(iter.off, iter.at, |l.items|);
    }
  }

  lemma PointOrder(points: seq<nat>, r: nat, current: nat, l: Layout, off: seq<nat>, n: nat)
    requires PointsAt(points, off, l.starts) && r < |points| && n < |off| && current == off[n]
             && forall i: nat | i + 1 < |off| :: Rises(off, i)
    ensures points[r] < current <==> l.starts[r] < n
  {
    assert PointIs(points, off, l.starts, r);
    OffOrder(off, l.starts[r], n);
  }

  /** Being on an entry, the next one is parsed next. */
  lemma OnePending(l: Layout, off: seq<nat>, current: nat, restartIndex: nat, key: Bytes, end: nat, i: nat)
    requires OnItem(l, off, current, restartIndex, key, end, i)
    ensures Pending(l, off, restartIndex, key, end, i + 1)
  {
  }

  method AdvanceRestart(points: seq<nat>, index: nat, current: nat, ghost l: Layout, ghost off: seq<nat>, ghost n: nat)
    returns (r: nat)
    requires PointsAt(points, off, l.starts) && n < |off| && current == off[n]
             && (forall i: nat | i + 1 < |off| :: Rises(off, i))
    requires index < |points| && l.starts[index] <= n
    ensures r < |points| && l.starts[r] <= n && (r + 1 < |points| ==> n <= l.starts[r + 1])
  {
    r := index;
    while r + 1 < |points| && points[r + 1] < current
      invariant r < |points| && l.starts[r] <= n
    {
      PointOrder(points, r + 1, current, l, off, n);
      r := r + 1;
    }
    if r + 1 < |points| {
      PointOrder(points, r + 1, current, l, off, n);
    }
  }

  /** The key of a restart point, read without the key before it; the check for damage never fires. */
  method RestartKey(data: Bytes, offset: nat, ghost l: Layout, ghost off: seq<nat>, ghost n: nat)
    returns (ok: bool, key: Bytes)
    requires SizeOk(l) && n < |l.items| && n in l.starts && data == Data(l, |l.items|) && Offsets(off, l)
             && offset == off[n]
    ensures ok && key == l.items[n].key
  {
    assert OffsetIs(off, l, n) && OffsetIs(off, l, n + 1);
    EntrySplits(l, n);
    KeyFits(l, n);
    HeadRoundTrip(0, l.items[n], data[Offset(l, n + 1)..]);
    DeltaCompletes(l.items[n], 0, [], data[Offset(l, n + 1)..]);
    var h := DecodeEntry(data[offset..]);
    ok, key := false, [];
    if h.None? || h.value.shared != 0 {
      return;
    }
    ok := true;
    key := [] + h.value.rest[..h.value.nonShared];
  }

  /** The entries before `n` have keys before the target. */
  ghost predicate AllBefore(items: seq<Item>, less: (Bytes, Bytes) -> bool, target: Bytes, n: nat) {
    n <= |items| && forall j | 0 <= j < n :: less(items[j].key, target)
  }

  ghost predicate FirstNotBefore(items: seq<Item>, less: (Bytes, Bytes) -> bool, target: Bytes, n: nat) {
    AllBefore(items, less, target, n) && (n < |items| ==> !less(items[n].key, target))
  }

  lemma EarlierBefore(items: seq<Item>, less: (Bytes, Bytes) -> bool, target: Bytes, n: nat, known: bool)
    requires KeysRise(items, less) && Transitive(less) && n <= |items|
             && (if known then n < |items| && less(items[n].key, target) else n == 0)
    ensures AllBefore(items, less, target, n)
  {
  }

  predicate HasValue(data: Bytes, start: nat, end: nat, value: Bytes) {
    start <= end <= |data| && data[start..end] == value
  }

  /** The restart array, decoded: GetRestartPoint for every index. */
  method ReadPoints(block: Bytes, restarts: nat, num: nat, ghost l: Layout, ghost off: seq<nat>) returns (ps: seq<nat>)
    requires StartsOk(l) && SizeOk(l) && block == BlockFormat.Block(l)
             && restarts == Offset(l, |l.items|) && num == |l.starts|
    requires |off| == |l.items| + 1 && forall i: nat | i < |off| :: off[i] == Offset(l, i)
    ensures PointsAt(ps, off, l.starts)
  {
    ps := [];
    for i := 0 to num
      invariant |ps| == i && forall j: nat | j < i :: PointIs(ps, off, l.starts, j)
    {
      PointReads(l, i);
      ghost var before := ps;
      ps := ps + [PointAt(block, restarts, i)];
      forall j: nat | j < i + 1 ensures PointIs(ps, off, l.starts, j) {
        if j < i {
          assert PointIs(before, off, l.starts, j);
        }
      }
    }
  }
}
