/** The bytes of a table: blocks with their trailers, the metaindex and index blocks and the footer, and a lookup in
    them (table/format.cc, table/table.cc).  Why the search of the rows finds the right one is in Table. */
module TableFile {
  import opened DbFormat
  import opened Coding
  import opened LogFormat
  import opened Separators
  import opened BlockFormat
  import opened Block
  import opened Bloom
  import FilterBlock
  import opened Table

  // ---- Keys and handles as bytes ----

  function KeyBytes(k: TableKey): Bytes
    requires k.tag < WIDTH64
  {
    k.user + Fixed64(k.tag)
  }

  function KeyOf(b: Bytes): TableKey {
    if |b| < 8 then TableKey(b, 0) else TableKey(b[..|b| - 8], DecodeFixed64(b[|b| - 8..]))
  }

  lemma KeyRoundTrip(k: TableKey)
    requires k.tag < WIDTH64
    ensures KeyOf(KeyBytes(k)) == k
  {
    Fixed64Trip(k.tag);
    var b := KeyBytes(k);
    assert b[..|b| - 8] == k.user && b[|b| - 8..] == Fixed64(k.tag);
  }

  /** InternalKeyComparator on encoded keys. */
  predicate BytesLess(a: Bytes, b: Bytes) {
    KeyLess(KeyOf(a), KeyOf(b))
  }

  lemma BytesLessIsTransitive()
    ensures Transitive(BytesLess)
  {
    forall a, b, c | BytesLess(a, b) && BytesLess(b, c) ensures BytesLess(a, c) {
      KeyTransitive(KeyOf(a), KeyOf(b), KeyOf(c));
    }
  }

  /** Where a block lies in the file. */
  datatype Handle = Handle(offset: nat, size: nat)

  function HandleBytes(h: Handle): Bytes {
    Varint(h.offset) + Varint(h.size)
  }

  /** BlockHandle::DecodeFrom, and what follows. */
  function DecodeHandle(b: Bytes): Option<(Handle, Bytes)> {
    var (offset, rest) :- GetVarint64(b);
    var (size, tail) :- GetVarint64(rest);
    Some((Handle(offset, size), tail))
  }

  lemma HandleRoundTrip(h: Handle, tail: Bytes)
    requires h.offset < WIDTH64 && h.size < WIDTH64
    ensures DecodeHandle(HandleBytes(h) + tail) == Some((h, tail))
  {
    Varint64RoundTrip(h.offset, Varint(h.size) + tail);
    Varint64RoundTrip(h.size, tail);
    assert HandleBytes(h) + tail == Varint(h.offset) + (Varint(h.size) + tail);
  }

  lemma HandleRead(h: Handle)
    requires h.offset < WIDTH64 && h.size < WIDTH64
    ensures DecodeHandle(HandleBytes(h)) == Some((h, []))
  {
    HandleRoundTrip(h, []);
    assert HandleBytes(h) + [] == HandleBytes(h);
  }

  // ---- Blocks in the file ----

  /** The checksum, and the compressor when there is one. */
  datatype Codec = Codec(crc: Checksum, compress: Bytes -> Option<Bytes>, uncompress: Bytes -> Option<Bytes>)

  ghost predicate Lossless(c: Codec) {
    forall b: Bytes :: c.compress(b).Some? ==> c.uncompress(c.compress(b).value) == Some(b)
  }

  const NO_COMPRESSION: Byte := 0
  const SNAPPY: Byte := 1
  const TRAILER: nat := 5

  /** What is stored for a block: it is compressed when that saves an eighth. */
  function Pack(c: Codec, raw: Bytes): (Bytes, Byte) {
    match c.compress(raw)
    case None => (raw, NO_COMPRESSION)
    case Some(packed) => if |packed| < |raw| - |raw| / 8 then (packed, SNAPPY) else (raw, NO_COMPRESSION)
  }

  function Unpack(c: Codec, contents: Bytes, kind: Byte): Option<Bytes> {
    if kind == NO_COMPRESSION then Some(contents)
    else if kind == SNAPPY then c.uncompress(contents)
    else None
  }

  /** What is stored is the block itself, or its compressed form when there is one and it saves more than an eighth. */
  lemma PackSaves(c: Codec, raw: Bytes)
    ensures var (stored, kind) := Pack(c, raw);
            if c.compress(raw).Some? && |c.compress(raw).value| + |raw| / 8 < |raw|
            then stored == c.compress(raw).value && kind == 1
            else stored == raw && kind == 0
  {
  }

  lemma UnpackPack(c: Codec, raw: Bytes)
    requires Lossless(c)
    ensures Unpack(c, Pack(c, raw).0, Pack(c, raw).1) == Some(raw)
  {
  }

  /** The kind of the contents, and the checksum of contents and kind. */
  function Trailer(c: Codec, contents: Bytes, kind: Byte): (r: Bytes)
    ensures |r| == TRAILER
  {
    [kind] + Fixed32(Mask(c.crc(contents + [kind])))
  }

  /** ReadBlock: none when the file is too short, the checksum wrong or the kind unknown. */
  function ReadBlock(c: Codec, file: Bytes, h: Handle, verify: bool): Option<Bytes> {
    if h.offset + h.size + TRAILER > |file| then None
    else ReadStored(c, file[h.offset..h.offset + h.size + TRAILER], h.size, verify)
  }

  function ReadStored(c: Codec, data: Bytes, n: nat, verify: bool): Option<Bytes>
    requires |data| == n + TRAILER
  {
    if verify && c.crc(data[..n + 1]) != Unmask(DecodeFixed32(data[n + 1..])) then None
    else Unpack(c, data[..n], data[n])
  }

  lemma StoredIsRead(c: Codec, contents: Bytes, kind: Byte, verify: bool)
    ensures ReadStored(c, contents + Trailer(c, contents, kind), |contents|, verify) == Unpack(c, contents, kind)
  {
    var crc := c.crc(contents + [kind]);
    var data := contents + Trailer(c, contents, kind);
    assert data[..|contents| + 1] == contents + [kind] && data[|contents| + 1..] == Fixed32(Mask(crc));
    assert data[..|contents|] == contents;
    UnmaskMask(crc);
    DecodeEncode32(Mask(crc));
  }

  /** The block is in the file, whether the reader checks checksums or not. */
  ghost predicate HasBlock(c: Codec, file: Bytes, h: Handle, b: Bytes) {
    h.offset + h.size + TRAILER <= |file| && forall verify :: ReadBlock(c, file, h, verify) == Some(b)
  }

  /** If the reader gets a block at all, it is this one. */
  ghost predicate MayHave(c: Codec, file: Bytes, h: Handle, b: Bytes, verify: bool) {
    var r := ReadBlock(c, file, h, verify);
    r.None? || r == Some(b)
  }

  lemma BlockWritten(c: Codec, file: Bytes, contents: Bytes, kind: Byte, b: Bytes)
    requires Unpack(c, contents, kind) == Some(b)
    ensures HasBlock(c, file + contents + Trailer(c, contents, kind), Handle(|file|, |contents|), b)
  {
    var stored := contents + Trailer(c, contents, kind);
    var file' := file + contents + Trailer(c, contents, kind);
    assert file'[|file|..|file| + |contents| + TRAILER] == stored;
    forall verify ensures ReadBlock(c, file', Handle(|file|, |contents|), verify) == Some(b) {
      StoredIsRead(c, contents, kind, verify);
    }
  }

  lemma BlockStays(c: Codec, file: Bytes, tail: Bytes, h: Handle, b: Bytes)
    requires HasBlock(c, file, h, b)
    ensures HasBlock(c, file + tail, h, b)
  {
    assert (file + tail)[h.offset..h.offset + h.size + TRAILER] == file[h.offset..h.offset + h.size + TRAILER];
    forall verify ensures ReadBlock(c, file + tail, h, verify) == ReadBlock(c, file, h, verify) {
    }
  }

  // ---- The footer ----

  const HANDLES: nat := 40
  const FOOTER: nat := 48
  const MAGIC_LOW: Word := 0x8b80_fb57
  const MAGIC_HIGH: Word := 0xdb47_7524

  function Zeros(n: nat): (r: Bytes)
    ensures |r| == n
  {
    seq(n, _ => 0)
  }

  /** Cut or filled up with zeros. */
  function Resized(b: Bytes, n: nat): (r: Bytes)
    ensures |r| == n
  {
    if |b| >= n then b[..n] else b + Zeros(n - |b|)
  }

  function Magic(): (r: Bytes)
    ensures |r| == 8
  {
    Fixed32(MAGIC_LOW) + Fixed32(MAGIC_HIGH)
  }

  function FooterBytes(meta: Handle, index: Handle): (r: Bytes)
    ensures |r| == FOOTER
  {
    Resized(HandleBytes(meta) + HandleBytes(index), HANDLES) + Magic()
  }

  predicate HasMagic(b: Bytes)
    requires |b| == FOOTER
  {
    DecodeFixed32(b[40..44]) == MAGIC_LOW && DecodeFixed32(b[44..48]) == MAGIC_HIGH
  }

  /** Footer::DecodeFrom. */
  function FooterOf(b: Bytes): Option<(Handle, Handle)>
    requires |b| == FOOTER
  {
    if !HasMagic(b) then None
    else
      var (meta, rest) :- DecodeHandle(b);
      var (index, _) :- DecodeHandle(rest);
      Some((meta, index))
  }

  lemma {:induction false} VarintLength(v: nat, k: nat)
    requires 0 < k && v < Power128(k)
    ensures |Varint(v)| <= k
    decreases k
  {
    if v >= 128 {
      VarintLength(v / 128, k - 1);
    }
  }

  lemma HandleLength(h: Handle)
    requires h.offset < WIDTH64 && h.size < WIDTH64
    ensures |HandleBytes(h)| <= 20
  {
    Power10();
    VarintLength(h.offset, 10);
    VarintLength(h.size, 10);
  }

  lemma FooterRoundTrip(meta: Handle, index: Handle)
    requires meta.offset < WIDTH64 && meta.size < WIDTH64 && index.offset < WIDTH64 && index.size < WIDTH64
    ensures FooterOf(FooterBytes(meta, index)) == Some((meta, index))
  {
    HandleLength(meta);
    HandleLength(index);
    var m, i := HandleBytes(meta), HandleBytes(index);
    var tail := Padding(m, i, Magic());
    HandleRoundTrip(meta, i + tail);
    HandleRoundTrip(index, tail);
    MagicIs(Resized(m + i, HANDLES));
  }

  lemma Padding(m: Bytes, i: Bytes, magic: Bytes) returns (tail: Bytes)
    requires |m| + |i| <= HANDLES
    ensures Resized(m + i, HANDLES) + magic == m + (i + tail)
  {
    tail := Zeros(HANDLES - |m + i|) + magic;
    assert Resized(m + i, HANDLES) == m + i + Zeros(HANDLES - |m + i|);
  }

  lemma MagicIs(front: Bytes)
    requires |front| == HANDLES
    ensures HasMagic(front + Magic())
  {
    var b := front + Magic();
    DecodeEncode32(MAGIC_LOW);
    DecodeEncode32(MAGIC_HIGH);
    assert b[40..44] == Fixed32(MAGIC_LOW) && b[44..48] == Fixed32(MAGIC_HIGH);
  }

  // ---- Searching one block ----

  ghost predicate ItemIs(items: seq<Item>, rows: seq<Row>, i: nat)
    requires i < |items| && i < |rows|
  {
    rows[i].key.tag < WIDTH64 && items[i] == Item(KeyBytes(rows[i].key), rows[i].value)
  }

  ghost predicate ItemsAre(items: seq<Item>, rows: seq<Row>) {
    |items| == |rows| && forall i: nat | i < |rows| :: ItemIs(items, rows, i)
  }

  /** The block's bytes are what the block builder makes of the rows. */
  ghost predicate IsBlock(b: Bytes, l: Layout, rows: seq<Row>) {
    SizeOk(l) && StartsOk(l) && b == BlockFormat.Block(l) && ItemsAre(l.items, rows)
  }

  lemma RowsRise(l: Layout, rows: seq<Row>)
    requires RowsSorted(rows) && ItemsAre(l.items, rows)
    ensures KeysRise(l.items, BytesLess)
  {
    forall i, j | 0 <= i < j < |l.items| ensures BytesLess(l.items[i].key, l.items[j].key) {
      assert RowLess(rows, i, j);
      assert ItemIs(l.items, rows, i) && ItemIs(l.items, rows, j);
      KeyRoundTrip(rows[i].key);
      KeyRoundTrip(rows[j].key);
    }
  }

  /** The place a block's Seek stops at is the first row from the key on. */
  lemma StopIsFirst(l: Layout, rows: seq<Row>, k: TableKey, j: nat)
    requires k.tag < WIDTH64 && ItemsAre(l.items, rows) && FirstNotBefore(l.items, BytesLess, KeyBytes(k), j)
    ensures FirstFrom(rows, k, j)
  {
    KeyRoundTrip(k);
    forall i: nat | i < |rows| ensures BytesLess(l.items[i].key, KeyBytes(k)) <==> KeyLess(rows[i].key, k) {
      assert ItemIs(l.items, rows, i);
      KeyRoundTrip(rows[i].key);
    }
  }

  method SeekBlock(b: Bytes, k: TableKey, ghost l: Layout, ghost rows: seq<Row>) returns (r: Option<Row>, ghost j: nat)
    requires IsBlock(b, l, rows) && RowsSorted(rows) && k.tag < WIDTH64
    ensures FirstFrom(rows, k, j) && r == if j < |rows| then Some(rows[j]) else None
    ensures exists i: nat :: FirstFrom(rows, k, i) && r == if i < |rows| then Some(rows[i]) else None
  {
    RowsRise(l, rows);
    BytesLessIsTransitive();
    var iter := new BlockIter(b, BytesLess, l);
    iter.Seek(KeyBytes(k));
    j := iter.at;
    StopIsFirst(l, rows, k, j);
    OffOrder(iter.off, iter.at, |l.items|);
    r := None;
    if iter.HasItem() {
      assert ItemIs(l.items, rows, j);
      KeyRoundTrip(rows[j].key);
      r := Some(Row(KeyOf(iter.key), iter.data[iter.valueStart..iter.valueEnd]));
    }
  }

  // ---- What a table file holds ----

  /** A filter policy: its name says what its hash is. */
  datatype Policy = Policy(name: Bytes, hash: Hash, bitsPerKey: nat)

  /** The text "filter." and the name. */
  function FilterKey(name: Bytes): Bytes {
    [102, 105, 108, 116, 101, 114, 46] + name
  }

  /** The entry of the metaindex block, when there are filters. */
  function MetaItems(policy: Option<Policy>, filter: Handle): seq<Item> {
    if policy.None? then [] else [Item(FilterKey(policy.value.name), HandleBytes(filter))]
  }

  /** The parts of a table file. */
  datatype Stored = Stored(t: Rows, cuts: seq<nat>, handles: seq<Handle>, layouts: seq<Layout>,
                           indexRows: seq<Row>, indexLayout: Layout, index: Handle,
                           meta: Layout, metaindex: Handle, filters: seq<Bytes>, filter: Handle)

  /** A row of the index block: an index key with where its block is. */
  ghost predicate IndexRow(rows: seq<Row>, index: seq<TableKey>, handles: seq<Handle>, i: nat)
    requires i < |rows| && i < |index| && i < |handles|
  {
    rows[i] == Row(index[i], HandleBytes(handles[i]))
  }

  ghost predicate DataIn(c: Codec, file: Bytes, handles: seq<Handle>, layouts: seq<Layout>, blocks: seq<DataBlock>,
                         i: nat)
    requires i < |handles| && i < |layouts| && i < |blocks|
  {
    var h, l, block := handles[i], layouts[i], blocks[i];
    && h.offset == block.offset && StartsOk(l) && HasBlock(c, file, h, BlockFormat.Block(l))
    && ItemsAre(l.items, block.rows)
  }

  ghost predicate DataHeld(c: Codec, file: Bytes, handles: seq<Handle>, layouts: seq<Layout>, blocks: seq<DataBlock>) {
    && |handles| == |layouts| == |blocks|
    && forall i: nat | i < |blocks| :: DataIn(c, file, handles, layouts, blocks, i)
  }

  ghost predicate IndexHeld(index: seq<TableKey>, handles: seq<Handle>, rows: seq<Row>, l: Layout) {
    && |rows| == |index| <= |handles| && (forall i: nat | i < |index| :: IndexRow(rows, index, handles, i))
    && StartsOk(l) && ItemsAre(l.items, rows)
  }

  ghost predicate FiltersHeld(c: Codec, policy: Option<Policy>, file: Bytes, s: Stored) {
    policy.Some? ==>
      && HasBlock(c, file, s.filter, FilterBlock.Contents(s.filters))
      && forall i: nat | i < |s.t.blocks| :: FilterOk(policy.value.hash, s.filters, s.t.blocks, i)
  }

  /** The file is a table of the rows. */
  ghost predicate Holds(c: Codec, policy: Option<Policy>, file: Bytes, rows: seq<Row>, s: Stored) {
    && TableOk(rows, s.cuts, s.t)
    && DataHeld(c, file, s.handles, s.layouts, s.t.blocks)
    && IndexHeld(s.t.index, s.handles, s.indexRows, s.indexLayout)
    && HasBlock(c, file, s.index, BlockFormat.Block(s.indexLayout))
    && StartsOk(s.meta) && s.meta.items == MetaItems(policy, s.filter)
    && HasBlock(c, file, s.metaindex, BlockFormat.Block(s.meta))
    && FiltersHeld(c, policy, file, s)
    && |file| >= FOOTER && file[|file| - FOOTER..] == FooterBytes(s.metaindex, s.index)
  }

  /** The same of a file whose blocks may have been damaged, as long as the damage shows: a reader that is `paranoid`
      about the index and the filters, and that verifies data blocks or not, gets each block as it was or not at all. */
  ghost predicate MayHold(c: Codec, policy: Option<Policy>, file: Bytes, rows: seq<Row>, s: Stored, paranoid: bool,
                          verify: bool) {
    && TableOk(rows, s.cuts, s.t)
    && DataMayHold(c, file, s, verify)
    && IndexHeld(s.t.index, s.handles, s.indexRows, s.indexLayout)
    && MayHave(c, file, s.index, BlockFormat.Block(s.indexLayout), paranoid)
    && StartsOk(s.meta) && s.meta.items == MetaItems(policy, s.filter)
    && MayHave(c, file, s.metaindex, BlockFormat.Block(s.meta), paranoid)
    && FiltersMayHold(c, policy, file, s, paranoid)
    && |file| >= FOOTER && file[|file| - FOOTER..] == FooterBytes(s.metaindex, s.index)
    && s.index.offset + s.index.size <= |file| && s.metaindex.offset + s.metaindex.size <= |file|
  }

  ghost predicate DataMayHold(c: Codec, file: Bytes, s: Stored, verify: bool) {
    && |s.handles| == |s.layouts| == |s.t.blocks|
    && forall i: nat | i < |s.t.blocks| :: DataMayBe(c, file, s, verify, i)
  }

  ghost predicate DataMayBe(c: Codec, file: Bytes, s: Stored, verify: bool, i: nat)
    requires i < |s.handles| && i < |s.layouts| && i < |s.t.blocks|
  {
    var h, l, block := s.handles[i], s.layouts[i], s.t.blocks[i];
    && h.offset == block.offset && h.offset + h.size <= |file| && StartsOk(l) && ItemsAre(l.items, block.rows)
    && MayHave(c, file, h, BlockFormat.Block(l), verify)
  }

  ghost predicate FiltersMayHold(c: Codec, policy: Option<Policy>, file: Bytes, s: Stored, paranoid: bool) {
    policy.Some? ==>
      && s.filter.offset + s.filter.size <= |file|
      && MayHave(c, file, s.filter, FilterBlock.Contents(s.filters), paranoid)
      && forall i: nat | i < |s.t.blocks| :: FilterOk(policy.value.hash, s.filters, s.t.blocks, i)
  }

  /** A file as it was built is one of them. */
  lemma HoldsMayHold(c: Codec, policy: Option<Policy>, file: Bytes, rows: seq<Row>, s: Stored, paranoid: bool,
                     verify: bool)
    requires Holds(c, policy, file, rows, s)
    ensures MayHold(c, policy, file, rows, s, paranoid, verify)
  {
    forall i: nat | i < |s.t.blocks| ensures DataMayBe(c, file, s, verify, i) {
      assert DataIn(c, file, s.handles, s.layouts, s.t.blocks, i);
    }
  }

  /** No block has 2^32 bytes of entries, nor the filters, and the file fewer than 2^64. */
  ghost predicate Fits(file: Bytes, s: Stored) {
    && |file| < WIDTH64 && SizeOk(s.indexLayout) && SizeOk(s.meta) && |FilterBlock.Concat(s.filters)| < WIDTH32
    && forall i | 0 <= i < |s.layouts| :: SizeOk(s.layouts[i])
  }

  // ---- Opening ----

  /** An open table: the index block, and the filters if their policy is the reader's. */
  datatype Opened = Opened(index: Bytes, filter: Option<FilterBlock.Reader>)

  ghost predicate Shares(reader: Option<Policy>, writer: Option<Policy>) {
    reader.Some? && writer.Some? && reader.value.name == writer.value.name
  }

  /** Policies of one name are one policy. */
  ghost predicate SameIfNamed(reader: Option<Policy>, writer: Option<Policy>) {
    Shares(reader, writer) ==> reader.value.hash == writer.value.hash
  }

  /** The filters a reader gets: those of its own policy, if their blocks can be read. */
  ghost function FiltersFor(c: Codec, reader: Option<Policy>, writer: Option<Policy>, paranoid: bool, file: Bytes,
                            s: Stored): Option<FilterBlock.Reader> {
    if Shares(reader, writer) && ReadBlock(c, file, s.metaindex, paranoid).Some?
       && ReadBlock(c, file, s.filter, paranoid).Some?
    then Some(FilterBlock.Open(FilterBlock.Contents(s.filters)))
    else None
  }

  /** Table::Open: fails exactly when the index cannot be read. */
  method Open(c: Codec, policy: Option<Policy>, paranoid: bool, file: Bytes,
              ghost writer: Option<Policy>, ghost rows: seq<Row>, ghost s: Stored, ghost verify: bool)
    returns (r: Option<Opened>)
    requires MayHold(c, writer, file, rows, s, paranoid, verify) && Fits(file, s)
    ensures r.None? <==> ReadBlock(c, file, s.index, paranoid).None?
    ensures r.Some? ==> r.value.index == BlockFormat.Block(s.indexLayout)
                        && r.value.filter == FiltersFor(c, policy, writer, paranoid, file, s)
  {
    FooterRoundTrip(s.metaindex, s.index);
    r := None;
    if |file| < FOOTER {
      return;
    }
    var footer := FooterOf(file[|file| - FOOTER..]);
    if footer.None? {
      return;
    }
    var (metaindex, index) := footer.value;
    var contents := ReadBlock(c, file, index, paranoid);
    if contents.None? {
      return;
    }
    var filter := ReadMeta(c, policy, paranoid, file, metaindex, writer, s);
    r := Some(Opened(contents.value, filter));
  }

  /** Without the metaindex or the filter block the table is used without filters. */
  method ReadMeta(c: Codec, policy: Option<Policy>, paranoid: bool, file: Bytes, metaindex: Handle,
                  ghost writer: Option<Policy>, ghost s: Stored) returns (r: Option<FilterBlock.Reader>)
    requires FiltersMayHold(c, writer, file, s, paranoid) && Fits(file, s) && metaindex == s.metaindex
    requires StartsOk(s.meta) && s.meta.items == MetaItems(writer, s.filter)
             && MayHave(c, file, s.metaindex, BlockFormat.Block(s.meta), paranoid)
    ensures r == FiltersFor(c, policy, writer, paranoid, file, s)
  {
    r := None;
    if policy.None? {
      return;
    }
    var contents := ReadBlock(c, file, metaindex, paranoid);
    if contents.None? {
      return;
    }
    MetaEntry(policy.value, writer, s.filter);
    var value := FindMeta(contents.value, FilterKey(policy.value.name), s.meta);
    if value.Some? {
      HandleRead(s.filter);
      r := ReadFilter(c, paranoid, file, value.value);
    }
  }

  /** The metaindex block has an entry for the policy if it is the writer's. */
  lemma MetaEntry(policy: Policy, writer: Option<Policy>, filter: Handle)
    ensures var items := MetaItems(writer, filter);
            && |items| <= 1
            && (items != [] && items[0].key == FilterKey(policy.name) <==> Shares(Some(policy), writer))
            && (items != [] ==> items[0].value == HandleBytes(filter))
  {
    if writer.Some? && FilterKey(policy.name) == FilterKey(writer.value.name) {
      assert FilterKey(policy.name)[7..] == FilterKey(writer.value.name)[7..];
    }
  }

  /** The value of a key in the metaindex block. */
  method FindMeta(block: Bytes, key: Bytes, ghost l: Layout) returns (r: Option<Bytes>)
    requires SizeOk(l) && StartsOk(l) && |l.items| <= 1 && block == BlockFormat.Block(l)
    ensures r == if l.items != [] && l.items[0].key == key then Some(l.items[0].value) else None
  {
    UserLessIsTransitive();
    var iter := new BlockIter(block, UserLess, l);
    iter.Seek(key);
    OffOrder(iter.off, iter.at, |l.items|);
    UserTotal(key, key);
    r := None;
    if iter.HasItem() && iter.key == key {
      r := Some(iter.data[iter.valueStart..iter.valueEnd]);
    }
  }

  lemma UserLessIsTransitive()
    ensures Transitive(UserLess)
  {
    forall a, b, c | UserLess(a, b) && UserLess(b, c) ensures UserLess(a, c) {
      UserTransitive(a, b, c);
    }
  }

  method ReadFilter(c: Codec, paranoid: bool, file: Bytes, value: Bytes) returns (r: Option<FilterBlock.Reader>)
    ensures r == match DecodeHandle(value)
                 case None => None
                 case Some((h, _)) =>
                   var block := ReadBlock(c, file, h, paranoid);
                   if block.None? then None else Some(FilterBlock.Open(block.value))
  {
    r := None;
    var h := DecodeHandle(value);
    if h.None? {
      return;
    }
    var block := ReadBlock(c, file, h.value.0, paranoid);
    if block.Some? {
      r := Some(FilterBlock.Open(block.value));
    }
  }

  // ---- Searching the table ----

  /** The index keys rise. */
  lemma IndexRises(rows: seq<Row>, cuts: seq<nat>, index: seq<TableKey>, i: nat, j: nat)
    requires RowsSorted(rows) && i < j < |index| && |cuts| == |index| + 1
             && (forall m: nat | m + 1 < |cuts| :: Rises(cuts, m))
    requires IndexOk(rows, cuts, index, i) && IndexOk(rows, cuts, index, j)
    ensures KeyLess(index[i], index[j])
  {
    StartsOrder(cuts, i + 1, j);
    assert Rises(cuts, j);
    var next, last := rows[cuts[i + 1]].key, rows[cuts[j + 1] - 1].key;
    assert RowLess(rows, cuts[i + 1] - 1, cuts[i + 1]);
    SeparatorBetween(rows[cuts[i + 1] - 1].key, next, index[i]);
    if cuts[i + 1] < cuts[j + 1] - 1 {
      assert RowLess(rows, cuts[i + 1], cuts[j + 1] - 1);
      KeyTransitive(index[i], next, last);
    }
    if last != index[j] {
      KeyTransitive(index[i], last, index[j]);
    }
  }

  lemma IndexSorted(rows: seq<Row>, cuts: seq<nat>, t: Rows, handles: seq<Handle>, indexRows: seq<Row>)
    requires TableOk(rows, cuts, t) && |indexRows| == |t.index| <= |handles|
    requires forall i: nat | i < |t.index| :: IndexRow(indexRows, t.index, handles, i)
    ensures RowsSorted(indexRows)
  {
    forall i: nat, j: nat | i < j < |indexRows| ensures RowLess(indexRows, i, j) {
      assert IndexRow(indexRows, t.index, handles, i) && IndexRow(indexRows, t.index, handles, j);
      IndexRises(rows, cuts, t.index, i, j);
    }
  }

  lemma PieceSorted(rows: seq<Row>, a: nat, b: nat)
    requires RowsSorted(rows) && a <= b <= |rows|
    ensures RowsSorted(rows[a..b])
  {
    forall i: nat, j: nat | i < j < b - a ensures RowLess(rows[a..b], i, j) {
      assert RowLess(rows, a + i, a + j);
    }
  }

  /** Seeking the index block is seeking the index. */
  lemma IndexSeek(indexRows: seq<Row>, index: seq<TableKey>, handles: seq<Handle>, k: TableKey, i: nat)
    requires |indexRows| == |index| <= |handles| && FirstFrom(indexRows, k, i)
    requires forall i: nat | i < |index| :: IndexRow(indexRows, index, handles, i)
    ensures (forall j | 0 <= j < i :: KeyLess(index[j], k)) && (i < |index| ==> !KeyLess(index[i], k))
  {
    forall j: nat | j < |index| ensures indexRows[j].key == index[j] {
      assert IndexRow(indexRows, index, handles, j);
    }
  }

  /** Seek the index block: what it finds says where the block is that may hold the key. */
  method SeekIndex(index: Bytes, k: TableKey, ghost rows: seq<Row>, ghost s: Stored)
    returns (r: Option<Bytes>, ghost i: nat)
    requires TableOk(rows, s.cuts, s.t) && IndexHeld(s.t.index, s.handles, s.indexRows, s.indexLayout)
    requires SizeOk(s.indexLayout) && index == BlockFormat.Block(s.indexLayout) && k.tag < WIDTH64
    ensures i <= |s.t.index| && r == if i < |s.t.index| then Some(HandleBytes(s.handles[i])) else None
    ensures s.cuts[i] <= |rows| && forall j | 0 <= j < s.cuts[i] :: KeyLess(rows[j].key, k)
    ensures i < |s.t.index| ==> !KeyLess(s.t.index[i], k)
  {
    IndexSorted(rows, s.cuts, s.t, s.handles, s.indexRows);
    var entry;
    entry, i := SeekBlock(index, k, s.indexLayout, s.indexRows);
    IndexSeek(s.indexRows, s.t.index, s.handles, k, i);
    BeforeBlock(rows, s.cuts, s.t.index, k, i);
    r := None;
    if entry.Some? {
      assert IndexRow(s.indexRows, s.t.index, s.handles, i);
      r := Some(entry.value.value);
    }
  }

  lemma {:induction false} FirstExists(rows: seq<Row>, k: TableKey, n: nat) returns (j: nat)
    requires n <= |rows| && forall i | 0 <= i < n :: KeyLess(rows[i].key, k)
    ensures FirstFrom(rows, k, j)
    decreases |rows| - n
  {
    j := n;
    if n < |rows| && KeyLess(rows[n].key, k) {
      j := FirstExists(rows, k, n + 1);
    }
  }

  /** What the search of block `i` stops at is what the scan finds, if it is of the user key. */
  lemma BlockAnswers(rows: seq<Row>, s: Stored, k: TableKey, i: nat, j: nat)
    requires TableOk(rows, s.cuts, s.t) && i < |s.t.index| && !KeyLess(s.t.index[i], k)
    requires s.cuts[i] <= |rows| && forall m | 0 <= m < s.cuts[i] :: KeyLess(rows[m].key, k)
    requires FirstFrom(s.t.blocks[i].rows, k, j)
    ensures var block := s.t.blocks[i].rows;
            ScanFinds(rows, k, if j < |block| && block[j].key.user == k.user then Some(block[j]) else None)
  {
    assert Piece(rows, s.cuts, s.t.blocks, i);
    BlockSeek(rows, s.cuts, s.t.index, s.t.blocks[i].rows, k, i, j);
  }

  /** A filter that rejects the key answers for its block. */
  lemma FilterAnswers(hash: Hash, rows: seq<Row>, s: Stored, k: TableKey, i: nat)
    requires TableOk(rows, s.cuts, s.t) && i < |s.t.index| && !KeyLess(s.t.index[i], k)
    requires s.cuts[i] <= |rows| && forall m | 0 <= m < s.cuts[i] :: KeyLess(rows[m].key, k)
    requires FilterOk(hash, s.filters, s.t.blocks, i)
             && !Passes(hash, s.filters[FilterBlock.Stretch(s.t.blocks[i].offset)], k.user)
    ensures ScanFinds(rows, k, None)
  {
    var block := s.t.blocks[i].rows;
    var j := FirstExists(block, k, 0);
    BlockAnswers(rows, s, k, i, j);
    if j < |block| {
      assert block[j] in block;
    }
  }

  /** What a lookup comes to: a row or none, or a block that could not be read. */
  datatype Got = Searched(row: Option<Row>) | Corrupt

  /** A data block that the reader cannot get. */
  ghost predicate SomeUnreadable(c: Codec, file: Bytes, s: Stored, verify: bool) {
    exists i: nat :: i < |s.handles| && ReadBlock(c, file, s.handles[i], verify).None?
  }

  /** Table::InternalGet, and the check of the user key by its caller. */
  method InternalGet(c: Codec, policy: Option<Policy>, verify: bool, file: Bytes, table: Opened, k: TableKey,
                     ghost writer: Option<Policy>, ghost rows: seq<Row>, ghost s: Stored, ghost paranoid: bool)
    returns (r: Got)
    requires MayHold(c, writer, file, rows, s, paranoid, verify) && Fits(file, s) && SameIfNamed(policy, writer)
             && k.tag < WIDTH64
    requires table.index == BlockFormat.Block(s.indexLayout)
             && table.filter == FiltersFor(c, policy, writer, paranoid, file, s)
    ensures if r.Searched? then ScanFinds(rows, k, r.row) else SomeUnreadable(c, file, s, verify)
  {
    var entry, i := SeekIndex(table.index, k, rows, s);
    if entry.None? {
      assert FirstFrom(rows, k, |rows|);
      return Searched(None);
    }
    HandleHeld(c, file, s, verify, i);
    var handle := DecodeHandle(entry.value);
    if table.filter.Some? && handle.Some? {
      var may := Consult(c, policy.value.hash, table.filter.value, file, handle.value.0.offset, k, writer, rows, s,
                         paranoid, i);
      if !may {
        return Searched(None);
      }
    }
    r := SearchBlock(c, verify, file, handle, k, rows, s, i);
  }

  lemma HandleHeld(c: Codec, file: Bytes, s: Stored, verify: bool, i: nat)
    requires DataMayHold(c, file, s, verify) && Fits(file, s) && i < |s.t.blocks|
    ensures DecodeHandle(HandleBytes(s.handles[i])) == Some((s.handles[i], []))
    ensures s.handles[i].offset == s.t.blocks[i].offset
  {
    assert DataMayBe(c, file, s, verify, i);
    HandleRead(s.handles[i]);
  }

  /** Ask the filter of the block; when it says no, so does the scan. */
  method Consult(c: Codec, hash: Hash, filter: FilterBlock.Reader, file: Bytes, offset: nat, k: TableKey,
                 ghost writer: Option<Policy>, ghost rows: seq<Row>, ghost s: Stored, ghost paranoid: bool,
                 ghost i: nat) returns (may: bool)
    requires writer.Some? && writer.value.hash == hash && FiltersMayHold(c, writer, file, s, paranoid)
             && |FilterBlock.Concat(s.filters)| < WIDTH32 && filter == FilterBlock.Open(FilterBlock.Contents(s.filters))
    requires TableOk(rows, s.cuts, s.t) && i < |s.t.index| && !KeyLess(s.t.index[i], k)
             && offset == s.t.blocks[i].offset
    requires s.cuts[i] <= |rows| && forall m | 0 <= m < s.cuts[i] :: KeyLess(rows[m].key, k)
    ensures !may ==> ScanFinds(rows, k, None)
  {
    may := FilterBlock.BlockMayMatch(hash, filter, offset, k.user);
    FilterBlock.OpensContents(s.filters);
    FilterBlock.AdmitsExactly(hash, s.filters, offset, k.user);
    assert FilterOk(hash, s.filters, s.t.blocks, i);
    if !may {
      FilterAnswers(hash, rows, s, k, i);
    }
  }

  /** Read and search the block of a handle. */
  method SearchBlock(c: Codec, verify: bool, file: Bytes, handle: Option<(Handle, Bytes)>, k: TableKey,
                     ghost rows: seq<Row>, ghost s: Stored, ghost i: nat) returns (r: Got)
    requires TableOk(rows, s.cuts, s.t) && DataMayHold(c, file, s, verify) && k.tag < WIDTH64
    requires i < |s.t.index| && handle == Some((s.handles[i], [])) && SizeOk(s.layouts[i])
    requires s.cuts[i] <= |rows| && (forall m | 0 <= m < s.cuts[i] :: KeyLess(rows[m].key, k))
             && !KeyLess(s.t.index[i], k)
    ensures if r.Searched? then ScanFinds(rows, k, r.row) else ReadBlock(c, file, s.handles[i], verify).None?
  {
    assert DataMayBe(c, file, s, verify, i) && Piece(rows, s.cuts, s.t.blocks, i);
    if handle.None? {
      return Corrupt;
    }
    var block := ReadBlock(c, file, handle.value.0, verify);
    PieceSorted(rows, s.cuts[i], s.cuts[i + 1]);
    if block.None? {
      return Corrupt;
    }
    var row, j := SeekBlock(block.value, k, s.layouts[i], s.t.blocks[i].rows);
    BlockAnswers(rows, s, k, i, j);
    r := Searched(if row.Some? && row.value.key.user == k.user then row else None);
  }

  /** TableCache::Get: open the table and look in it. */
  method Get(c: Codec, policy: Option<Policy>, paranoid: bool, verify: bool, file: Bytes, k: TableKey,
             ghost writer: Option<Policy>, ghost rows: seq<Row>, ghost s: Stored) returns (r: Got)
    requires MayHold(c, writer, file, rows, s, paranoid, verify) && Fits(file, s) && SameIfNamed(policy, writer)
             && k.tag < WIDTH64
    ensures if r.Searched? then ScanFinds(rows, k, r.row)
            else ReadBlock(c, file, s.index, paranoid).None? || SomeUnreadable(c, file, s, verify)
    ensures Holds(c, writer, file, rows, s) ==> r.Searched?
  {
    var table := Open(c, policy, paranoid, file, writer, rows, s, verify);
    if table.None? {
      return Corrupt;
    }
    r := InternalGet(c, policy, verify, file, table.value, k, writer, rows, s, paranoid);
    if Holds(c, writer, file, rows, s) && SomeUnreadable(c, file, s, verify) {
      AllReadable(c, writer, file, rows, s, verify);
    }
  }

  lemma AllReadable(c: Codec, writer: Option<Policy>, file: Bytes, rows: seq<Row>, s: Stored, verify: bool)
    requires Holds(c, writer, file, rows, s)
    ensures !SomeUnreadable(c, file, s, verify)
  {
    forall i: nat | i < |s.handles| ensures ReadBlock(c, file, s.handles[i], verify).Some? {
      assert DataIn(c, file, s.handles, s.layouts, s.t.blocks, i);
    }
  }
}
