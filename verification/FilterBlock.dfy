/** The filter block of a table: a filter for each stretch of the file, and the array of their offsets
    (table/filter_block.cc). */
module FilterBlock {
  import opened DbFormat
  import opened Coding
  import opened Bloom

  const FILTER_BASE_LG: Byte := 11

  /** The stretch of 2048 bytes of the file an offset lies in. */
  function Stretch(offset: nat): nat {
    offset / 2048
  }

  // ---- Layout ----

  function Concat(fs: seq<Bytes>): Bytes {
    if fs == [] then [] else Concat(fs[..|fs| - 1]) + fs[|fs| - 1]
  }

  /** Where filter `i` starts. */
  function FilterOffset(fs: seq<Bytes>, i: nat): nat
    requires i <= |fs|
  {
    |Concat(fs[..i])|
  }

  /** The first `n` offsets, each cut to 32 bits. */
  function Offsets(fs: seq<Bytes>, n: nat): (r: Bytes)
    requires n <= |fs|
    ensures |r| == 4 * n
  {
    if n == 0 then [] else Offsets(fs, n - 1) + CutWord(FilterOffset(fs, n - 1))
  }

  function Contents(fs: seq<Bytes>): Bytes {
    Concat(fs) + Offsets(fs, |fs|) + CutWord(|Concat(fs)|) + [FILTER_BASE_LG]
  }

  lemma {:induction false} FilterLies(fs: seq<Bytes>, i: nat)
    requires i < |fs|
    ensures FilterOffset(fs, i) + |fs[i]| == FilterOffset(fs, i + 1) <= |Concat(fs)|
    ensures Concat(fs)[FilterOffset(fs, i)..FilterOffset(fs, i + 1)] == fs[i]
    decreases |fs|
  {
    var front := fs[..|fs| - 1];
    assert fs[..i + 1][..i] == fs[..i];
    if i < |front| {
      FilterLies(front, i);
      assert front[..i] == fs[..i] && front[..i + 1] == fs[..i + 1];
    } else {
      assert fs[..|fs|] == fs;
    }
  }

  lemma {:induction false} OffsetLies(fs: seq<Bytes>, n: nat, i: nat)
    requires i < n <= |fs|
    ensures Offsets(fs, n)[4 * i..4 * i + 4] == CutWord(FilterOffset(fs, i))
    decreases n
  {
    if i < n - 1 {
      OffsetLies(fs, n - 1, i);
      assert Offsets(fs, n)[4 * i..4 * i + 4] == Offsets(fs, n - 1)[4 * i..4 * i + 4];
    }
  }

  lemma {:induction false} OffsetsGrow(fs: seq<Bytes>, f: Bytes, n: nat)
    requires n <= |fs|
    ensures Offsets(fs + [f], n) == Offsets(fs, n)
    decreases n
  {
    if n > 0 {
      OffsetsGrow(fs, f, n - 1);
      assert (fs + [f])[..n - 1] == fs[..n - 1];
    }
  }

  // ---- Building ----

  /** A filter for each stretch of data. */
  class FilterBlockBuilder {
    const hash: Hash
    const bitsPerKey: nat
    var keys: seq<Bytes>
    var result: Bytes
    var offsets: seq<Word>
    ghost var filters: seq<Bytes>
    ghost var added: set<(nat, Bytes)>      // each key with the stretch it was added for

    /** Quantified, so that it unfolds only where a proof asks for `Filters`. */
    ghost predicate Valid()
      reads this
    {
      forall fs: seq<Bytes> | fs == filters :: Filters(fs)
    }

    ghost predicate Filters(fs: seq<Bytes>)
      reads this
    {
      && result == Concat(fs) && OffsetsOk(offsets, fs)
      && forall x | x in added :: if x.0 < |fs| then Passes(hash, fs[x.0], x.1) else x.0 == |fs| && x.1 in keys
    }

    constructor (hash: Hash, bitsPerKey: nat)
      ensures Valid() && filters == [] && added == {} && this.hash == hash
    {
      this.hash, this.bitsPerKey := hash, bitsPerKey;
      keys, result, offsets, filters, added := [], [], [], [], {};
    }

    method AddKeyTo(key: Bytes)
      requires Valid()
      modifies this`keys, this`added
      ensures Valid() && added == old(added) + {(|filters|, key)} && keys == old(keys) + [key]
    {
      assert Filters(filters);
      keys := keys + [key];
      added := added + {(|filters|, key)};
    }

    /** Close the current stretch; one without keys has an empty filter, which lets nothing through. */
    method GenerateFilter()
      requires Valid()
      modifies this`keys, this`result, this`offsets, this`filters
      ensures Valid() && keys == [] && |offsets| == |filters|
      ensures exists f :: filters == old(filters) + [f] && (old(keys) == [] ==> f == [])
    {
      assert Filters(filters);
      ghost var before := keys;
      var f: Bytes := [];
      if keys != [] {
        f := CreateFilter(hash, keys, bitsPerKey);
      }
      assert forall key | key in before :: Passes(hash, f, key);
      OffsetAdded(offsets, filters, f);
      offsets := offsets + [|result| % WIDTH32];
      result := result + f;
      keys := [];
      filters := filters + [f];
    }

    /** Data from `offset` on belongs to its stretch. */
    method StartBlock(offset: nat)
      requires Valid() && Stretch(offset) >= |filters|
      modifies this`keys, this`result, this`offsets, this`filters
      ensures Valid() && |filters| == Stretch(offset)
    {
      assert Filters(filters);
      while Stretch(offset) > |offsets|
        invariant Valid() && |offsets| == |filters| && Stretch(offset) >= |filters|
        decreases Stretch(offset) - |filters|
      {
        GenerateFilter();
      }
    }

    method Finish() returns (r: Bytes)
      requires Valid()
      modifies this`keys, this`result, this`offsets, this`filters
      ensures r == Contents(filters) && forall x | x in added :: x.0 < |filters| && Passes(hash, filters[x.0], x.1)
    {
      if keys != [] {
        GenerateFilter();
      }
      assert Filters(filters);
      r := AppendOffsets(result, offsets, filters);
      r := r + CutWord(|result|) + [FILTER_BASE_LG];
    }
  }

  method AppendOffsets(result: Bytes, offsets: seq<Word>, ghost filters: seq<Bytes>) returns (block: Bytes)
    requires OffsetsOk(offsets, filters)
    ensures block == result + Offsets(filters, |filters|)
  {
    block := result;
    for i := 0 to |offsets|
      invariant block == result + Offsets(filters, i)
    {
      assert OffsetIs(offsets, filters, i);
      OneMoreOffset(result, filters, i);
      block := block + Fixed32(offsets[i]);
    }
  }

  lemma OneMoreOffset(b: Bytes, fs: seq<Bytes>, i: nat)
    requires i < |fs|
    ensures (b + Offsets(fs, i)) + CutWord(FilterOffset(fs, i)) == b + Offsets(fs, i + 1)
  {
  }

  ghost predicate OffsetsOk(offsets: seq<Word>, fs: seq<Bytes>) {
    |offsets| == |fs| && forall i: nat | i < |fs| :: OffsetIs(offsets, fs, i)
  }

  ghost predicate OffsetIs(offsets: seq<Word>, fs: seq<Bytes>, i: nat)
    requires i < |offsets| == |fs|
  {
    offsets[i] == FilterOffset(fs, i) % WIDTH32
  }

  lemma OffsetAdded(offsets: seq<Word>, fs: seq<Bytes>, f: Bytes)
    requires OffsetsOk(offsets, fs)
    ensures OffsetsOk(offsets + [|Concat(fs)| % WIDTH32], fs + [f]) && Concat(fs + [f]) == Concat(fs) + f
  {
    var fs' := fs + [f];
    assert fs'[..|fs|] == fs;
    forall i: nat | i < |fs'| ensures OffsetIs(offsets + [|Concat(fs)| % WIDTH32], fs', i) {
      if i < |fs| {
        assert OffsetIs(offsets, fs, i) && fs'[..i] == fs[..i];
      }
    }
  }

  // ---- Reading ----

  lemma ShiftIsDivision(x: nat)
    ensures ShiftRight(x, FILTER_BASE_LG) == Stretch(x)
  {
    assert ShiftRight(x, 2) == ShiftRight(x, 1) / 2 == x / 4;
    assert ShiftRight(x, 4) == ShiftRight(x, 3) / 2 == x / 16;
    assert ShiftRight(x, 6) == ShiftRight(x, 5) / 2 == x / 64;
    assert ShiftRight(x, 8) == ShiftRight(x, 7) / 2 == x / 256;
    assert ShiftRight(x, 10) == ShiftRight(x, 9) / 2 == x / 1024;
  }

  /** FilterBlockReader: the contents, where the array of offsets starts, how many there are, and the stretch length. */
  datatype Reader = Reader(contents: Bytes, offsets: nat, num: nat, baseLg: nat)

  /** A block too short, or with its array past the end, has no filters. */
  function Open(contents: Bytes): (r: Reader)
    ensures r.num > 0 ==> r.offsets + 4 * r.num + 5 <= |contents| && r.contents == contents
  {
    var n := |contents|;
    if n < 5 then Reader([], 0, 0, 0)
    else
      var offsets := DecodeFixed32(contents[n - 5..n - 1]);
      if offsets > n - 5 then Reader([], 0, 0, contents[n - 1])
      else Reader(contents, offsets, (n - 5 - offsets) / 4, contents[n - 1])
  }

  function WordAt(r: Reader, i: nat): Word
    requires r.offsets + 4 * i + 4 <= |r.contents|
  {
    DecodeFixed32(r.contents[r.offsets + 4 * i..r.offsets + 4 * i + 4])
  }

  function ShiftRight(x: nat, n: nat): nat {
    if n == 0 then x else ShiftRight(x, n - 1) / 2
  }

  /** Whether filter `index` lets a key through; anything damaged does. */
  ghost predicate Admits(hash: Hash, r: Reader, index: nat, key: Bytes)
    requires r.num > 0 ==> r.offsets + 4 * r.num + 5 <= |r.contents|
  {
    index < r.num ==>
      var start, limit := WordAt(r, index), WordAt(r, index + 1);
      if start <= limit <= r.offsets then Passes(hash, r.contents[start..limit], key) else start != limit
  }

  method BlockMayMatch(hash: Hash, r: Reader, offset: nat, key: Bytes) returns (may: bool)
    requires r.num > 0 ==> r.offsets + 4 * r.num + 5 <= |r.contents|
    ensures may <==> Admits(hash, r, ShiftRight(offset, r.baseLg), key)
  {
    var index := ShiftRight(offset, r.baseLg);
    if index < r.num {
      var start, limit := WordAt(r, index), WordAt(r, index + 1);
      if start <= limit <= r.offsets {
        may := KeyMayMatch(hash, key, r.contents[start..limit]);
        return;
      } else if start == limit {
        return false;
      }
    }
    return true;
  }

  lemma LastWord(d: Bytes, o: Bytes, w: Bytes, lg: Byte)
    requires |w| == 4
    ensures var c := d + o + w + [lg];
            |c| == |d| + |o| + 5 && c[|c| - 1] == lg && c[|c| - 5..|c| - 1] == w
  {
    var c := d + o + w + [lg];
    assert c[|c| - 5..|c| - 1] == w;
  }

  lemma WordIn(d: Bytes, o: Bytes, w: Bytes, n: nat, i: nat)
    requires |w| == 4 && |o| == 4 * n && i <= n
    ensures |d| + 4 * i + 4 <= |d + o + w + [FILTER_BASE_LG]|
    ensures WordAt(Reader(d + o + w + [FILTER_BASE_LG], |d|, n, FILTER_BASE_LG), i) ==
            DecodeFixed32(if i < n then o[4 * i..4 * i + 4] else w)
  {
    var c := d + o + w + [FILTER_BASE_LG];
    if i < n {
      assert c[|d| + 4 * i..|d| + 4 * i + 4] == o[4 * i..4 * i + 4];
    } else {
      assert c[|d| + 4 * i..|d| + 4 * i + 4] == w;
    }
  }

  lemma OpenIs(d: Bytes, o: Bytes, w: Bytes, n: nat)
    requires |w| == 4 && DecodeFixed32(w) == |d| && |o| == 4 * n
    ensures var c := d + o + w + [FILTER_BASE_LG]; Open(c) == Reader(c, |d|, n, FILTER_BASE_LG)
  {
    LastWord(d, o, w, FILTER_BASE_LG);
    assert 4 * n / 4 == n;
  }

  lemma OpensContents(fs: seq<Bytes>)
    requires |Concat(fs)| < WIDTH32
    ensures Open(Contents(fs)) == Reader(Contents(fs), |Concat(fs)|, |fs|, FILTER_BASE_LG)
  {
    OpenIs(Concat(fs), Offsets(fs, |fs|), CutWord(|Concat(fs)|), |fs|);
  }

  lemma OffsetReads(fs: seq<Bytes>, i: nat)
    requires i < |fs| && FilterOffset(fs, i) < WIDTH32
    ensures DecodeFixed32(Offsets(fs, |fs|)[4 * i..4 * i + 4]) == FilterOffset(fs, i)
  {
    OffsetLies(fs, |fs|, i);
  }

  /** The words of the array are the offsets; the word after them is where the filters end. */
  lemma WordsAre(fs: seq<Bytes>, i: nat)
    requires |Concat(fs)| < WIDTH32 && i <= |fs|
    ensures FilterOffset(fs, i) <= |Concat(fs)|
    ensures WordAt(Reader(Contents(fs), |Concat(fs)|, |fs|, FILTER_BASE_LG), i) == FilterOffset(fs, i)
  {
    WordIn(Concat(fs), Offsets(fs, |fs|), CutWord(|Concat(fs)|), |fs|, i);
    if i < |fs| {
      FilterLies(fs, i);
      OffsetReads(fs, i);
    } else {
      assert fs[..|fs|] == fs;
    }
  }

  /** Reading a block that was built consults the filter of the stretch; past the last one anything may match. */
  lemma AdmitsExactly(hash: Hash, fs: seq<Bytes>, offset: nat, key: Bytes)
    requires |Concat(fs)| < WIDTH32
    ensures Admits(hash, Open(Contents(fs)), ShiftRight(offset, FILTER_BASE_LG), key) <==>
            (Stretch(offset) < |fs| ==> Passes(hash, fs[Stretch(offset)], key))
  {
    OpensContents(fs);
    var index := Stretch(offset);
    ShiftIsDivision(offset);
    if index < |fs| {
      WordsAre(fs, index);
      WordsAre(fs, index + 1);
      FilterLies(fs, index);
      var start, limit := FilterOffset(fs, index), FilterOffset(fs, index + 1);
      assert Contents(fs)[start..limit] == Concat(fs)[start..limit];
    }
  }
}
