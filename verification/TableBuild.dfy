/** The table builder: rows in, the bytes of a table file out (table/table_builder.cc, db/builder.cc). */
module TableBuild {
  import opened DbFormat
  import opened Coding
  import opened Separators
  import opened BlockFormat
  import opened Block
  import opened Bloom
  import opened FilterBlock
  import opened Table
  import opened TableFile

  // ---- What stays as the file grows ----

  lemma DataStaysHeld(c: Codec, file: Bytes, tail: Bytes, handles: seq<Handle>, layouts: seq<Layout>,
                      blocks: seq<DataBlock>)
    requires DataHeld(c, file, handles, layouts, blocks)
    ensures DataHeld(c, file + tail, handles, layouts, blocks)
  {
    forall i: nat | i < |blocks| ensures DataIn(c, file + tail, handles, layouts, blocks, i) {
      assert DataIn(c, file, handles, layouts, blocks, i);
      BlockStays(c, file, tail, handles[i], BlockFormat.Block(layouts[i]));
    }
  }

  lemma DataGrows(c: Codec, file: Bytes, handles: seq<Handle>, layouts: seq<Layout>, blocks: seq<DataBlock>,
                  h: Handle, l: Layout, rows: seq<Row>)
    requires DataHeld(c, file, handles, layouts, blocks)
    requires StartsOk(l) && ItemsAre(l.items, rows) && HasBlock(c, file, h, BlockFormat.Block(l))
    ensures DataHeld(c, file, handles + [h], layouts + [l], blocks + [DataBlock(h.offset, rows)])
  {
    var handles', layouts', blocks' := handles + [h], layouts + [l], blocks + [DataBlock(h.offset, rows)];
    forall i: nat | i < |blocks'| ensures DataIn(c, file, handles', layouts', blocks', i) {
      if i < |blocks| {
        assert DataIn(c, file, handles, layouts, blocks, i);
      }
    }
  }

  lemma ItemAdded(items: seq<Item>, rows: seq<Row>, row: Row)
    requires ItemsAre(items, rows) && row.key.tag < WIDTH64
    ensures ItemsAre(items + [Item(KeyBytes(row.key), row.value)], rows + [row])
  {
    var items', rows' := items + [Item(KeyBytes(row.key), row.value)], rows + [row];
    forall i: nat | i < |rows'| ensures ItemIs(items', rows', i) {
      if i < |rows| {
        assert ItemIs(items, rows, i);
      }
    }
  }

  /** The index key of the block that waits for it. */
  lemma IndexGrows(index: seq<TableKey>, handles: seq<Handle>, rows: seq<Row>, l: Layout, l': Layout, sep: TableKey)
    requires IndexHeld(index, handles, rows, l) && |index| + 1 == |handles| && sep.tag < WIDTH64
    requires var h := handles[|index|];
             StartsOk(l') && l'.items == l.items + [Item(KeyBytes(sep), HandleBytes(h))]
    ensures IndexHeld(index + [sep], handles, rows + [Row(sep, HandleBytes(handles[|index|]))], l')
  {
    var row := Row(sep, HandleBytes(handles[|index|]));
    ItemAdded(l.items, rows, row);
    forall i: nat | i < |index| + 1 ensures IndexRow(rows + [row], index + [sep], handles, i) {
      if i < |index| {
        assert IndexRow(rows, index, handles, i);
      }
    }
  }

  lemma IndexStaysHeld(index: seq<TableKey>, handles: seq<Handle>, rows: seq<Row>, l: Layout, h: Handle)
    requires IndexHeld(index, handles, rows, l)
    ensures IndexHeld(index, handles + [h], rows, l)
  {
    forall i: nat | i < |index| ensures IndexRow(rows, index, handles + [h], i) {
      assert IndexRow(rows, index, handles, i);
    }
  }

  /** The user keys of the blocks, and of the rows not yet written, were added for the stretches they lie in. */
  ghost predicate AllAdded(added: set<(nat, Bytes)>, blocks: seq<DataBlock>, offset: nat, unwritten: seq<Row>) {
    && KeysAdded(added, offset, unwritten)
    && forall i: nat | i < |blocks| :: BlockKeysAdded(added, blocks, i)
  }

  lemma KeyAdded(added: set<(nat, Bytes)>, blocks: seq<DataBlock>, offset: nat, unwritten: seq<Row>, row: Row)
    requires AllAdded(added, blocks, offset, unwritten)
    ensures AllAdded(added + {(Stretch(offset), row.key.user)}, blocks, offset, unwritten + [row])
  {
    var added' := added + {(Stretch(offset), row.key.user)};
    forall i: nat | i < |blocks| ensures BlockKeysAdded(added', blocks, i) {
      assert BlockKeysAdded(added, blocks, i);
    }
  }

  lemma BlockKeysStay(added: set<(nat, Bytes)>, blocks: seq<DataBlock>, offset: nat, unwritten: seq<Row>, end: nat)
    requires AllAdded(added, blocks, offset, unwritten)
    ensures AllAdded(added, blocks + [DataBlock(offset, unwritten)], end, [])
  {
    var blocks' := blocks + [DataBlock(offset, unwritten)];
    forall i: nat | i < |blocks'| ensures BlockKeysAdded(added, blocks', i) {
      if i < |blocks| {
        assert BlockKeysAdded(added, blocks, i);
      }
    }
  }

  // ---- What a builder has so far ----

  /** The rows added, those of them not yet written, the blocks that hold the others, and the entries of the data block
      and the index block; `pending` is the handle of the last block until it has an index entry. */
  datatype Parts = Parts(codec: Codec, file: Bytes, rows: seq<Row>, unwritten: seq<Row>, cuts: seq<nat>,
                         blocks: seq<DataBlock>, handles: seq<Handle>, layouts: seq<Layout>, items: seq<Item>,
                         index: seq<TableKey>, indexRows: seq<Row>, indexLayout: Layout,
                         lastKey: Option<TableKey>, pending: Option<Handle>, added: set<(nat, Bytes)>)

  /** Quantified, so that it unfolds only where a proof asks for `Sound`. */
  type Progress = g: Parts | forall p: Parts | p == g :: Sound(p)
    ghost witness Empty(NoCodec())

  ghost predicate Sound(g: Parts) {
    RowPart(g) && DataPart(g) && IndexPart(g) && FilterPart(g)
  }

  ghost function NoCodec(): Codec {
    Codec(_ => 0, _ => None, _ => None)
  }

  ghost function Empty(c: Codec): Parts {
    Parts(c, [], [], [], [0], [], [], [], [], [], [], Layout([], [0]), None, None, {})
  }

  ghost predicate RowPart(g: Parts) {
    && RowsOk(g.rows, g.cuts, g.blocks, g.unwritten)
    && g.lastKey == (if g.rows == [] then None else Some(g.rows[|g.rows| - 1].key))
    && (g.lastKey.Some? ==> g.lastKey.value.tag < WIDTH64)
  }

  ghost predicate DataPart(g: Parts) {
    ItemsAre(g.items, g.unwritten) && DataHeld(g.codec, g.file, g.handles, g.layouts, g.blocks)
  }

  ghost predicate IndexPart(g: Parts) {
    && IndexesOk(g.rows, g.cuts, g.index, |g.blocks|, g.pending.Some?) && |g.handles| == |g.blocks|
    && IndexHeld(g.index, g.handles, g.indexRows, g.indexLayout)
    && (g.pending.Some? ==> g.handles != [] && g.pending.value == g.handles[|g.handles| - 1])
  }

  ghost predicate FilterPart(g: Parts) {
    AllAdded(g.added, g.blocks, |g.file|, g.unwritten)
  }

  ghost function WithRow(g: Parts, row: Row): Parts
    requires row.key.tag < WIDTH64
  {
    g.(rows := g.rows + [row], unwritten := g.unwritten + [row], lastKey := Some(row.key),
    items := g.items + [Item(KeyBytes(row.key), row.value)],
    added := g.added + {(Stretch(|g.file|), row.key.user)})
  }

  ghost function WithBlock(g: Parts, tail: Bytes, h: Handle, l: Layout): Parts {
    g.(file := g.file + tail, unwritten := [], items := [], cuts := g.cuts + [|g.rows|],
    blocks := g.blocks + [DataBlock(h.offset, g.unwritten)], handles := g.handles + [h], layouts := g.layouts + [l],
    pending := Some(h))
  }

  ghost function WithIndex(g: Parts, sep: TableKey, l: Layout): Parts
    requires g.pending.Some?
  {
    g.(index := g.index + [sep], indexRows := g.indexRows + [Row(sep, HandleBytes(g.pending.value))], indexLayout := l,
    pending := None)
  }

  ghost predicate Took(g: Parts, g': Parts, row: Row)
    requires row.key.tag < WIDTH64
  {
    && g'.codec == g.codec && g'.file == g.file && g'.rows == g.rows + [row] && g'.lastKey == Some(row.key)
    && g'.items == g.items + [Item(KeyBytes(row.key), row.value)] && g'.pending == None
    && g'.added == g.added + {(Stretch(|g.file|), row.key.user)}
  }

  lemma RowTaken(g: Progress, row: Row)
    requires row.key.tag < WIDTH64 && (g.lastKey.Some? ==> KeyLess(g.lastKey.value, row.key))
    ensures RowPart(WithRow(g, row)) && DataPart(WithRow(g, row)) && FilterPart(WithRow(g, row))
  {
    assert Sound(g);
    RowAdded(g.rows, g.cuts, g.blocks, g.unwritten, row);
    ItemAdded(g.items, g.unwritten, row);
    KeyAdded(g.added, g.blocks, |g.file|, g.unwritten, row);
  }

  /** A row inside a block. */
  lemma RowInside(g: Progress, row: Row) returns (g': Progress)
    requires row.key.tag < WIDTH64 && (g.lastKey.Some? ==> KeyLess(g.lastKey.value, row.key)) && g.pending == None
    ensures Took(g, g', row) && g'.indexLayout == g.indexLayout
  {
    assert Sound(g);
    RowTaken(g, row);
    IndexesStay(g.rows, g.cuts, g.index, |g.blocks|, row);
    g' := WithRow(g, row);
  }

  /** The first row of a block: now the index key of the one before it is known. */
  lemma RowAfterBlock(g: Progress, row: Row, sep: TableKey, l: Layout) returns (g': Progress)
    requires row.key.tag < WIDTH64 && (g.lastKey.Some? ==> KeyLess(g.lastKey.value, row.key)) && g.pending.Some?
    requires sep.tag < WIDTH64 && (g.lastKey.Some? ==> Separates(g.lastKey.value, row.key, sep))
    requires StartsOk(l) && l.items == g.indexLayout.items + [Item(KeyBytes(sep), HandleBytes(g.pending.value))]
    ensures Took(g, g', row) && g'.indexLayout == l
  {
    assert Sound(g);
    RowTaken(g, row);
    IndexAdded(g.rows, g.cuts, g.index, |g.blocks|, row, sep);
    IndexGrows(g.index, g.handles, g.indexRows, g.indexLayout, l, sep);
    g' := WithRow(WithIndex(g, sep, l), row);
  }

  lemma PendingHasKey(g: Progress)
    ensures g.pending.Some? ==> g.lastKey.Some?
    ensures g.lastKey.Some? ==> g.lastKey.value.tag < WIDTH64
  {
    assert Sound(g);
  }

  /** The rows of the data block become a block of the file. */
  lemma BlockTaken(g: Progress, tail: Bytes, h: Handle, l: Layout) returns (g': Progress)
    requires l.items == g.items != [] && StartsOk(l) && h.offset == |g.file|
             && HasBlock(g.codec, g.file + tail, h, BlockFormat.Block(l))
    ensures g'.codec == g.codec && g'.file == g.file + tail && g'.rows == g.rows && g'.lastKey == g.lastKey
    ensures g'.unwritten == [] && g'.items == [] && g'.indexLayout == g.indexLayout
    ensures g'.pending == Some(h) && g'.added == g.added && g'.blocks == g.blocks + [DataBlock(h.offset, g.unwritten)]
  {
    assert Sound(g);
    assert g.unwritten != [] && g.pending == None;
    BlockAdded(g.rows, g.cuts, g.blocks, g.unwritten, h.offset);
    DataStaysHeld(g.codec, g.file, tail, g.handles, g.layouts, g.blocks);
    DataGrows(g.codec, g.file + tail, g.handles, g.layouts, g.blocks, h, l, g.unwritten);
    IndexPends(g.rows, g.cuts, g.index, |g.blocks|);
    IndexStaysHeld(g.index, g.handles, g.indexRows, g.indexLayout, h);
    BlockKeysStay(g.added, g.blocks, |g.file|, g.unwritten, |g.file + tail|);
    g' := WithBlock(g, tail, h, l);
  }

  /** The index when all rows are written; the last block's key, if it waits, need only succeed its rows. */
  lemma IndexDone(g: Progress, sep: TableKey, l: Layout) returns (index: seq<TableKey>, rows: seq<Row>)
    requires g.unwritten == [] && StartsOk(l)
    requires g.pending == None ==> l == g.indexLayout
    requires g.pending.Some? ==>
               && sep.tag < WIDTH64 && g.lastKey.Some? && Succeeds(g.lastKey.value, sep)
               && l.items == g.indexLayout.items + [Item(KeyBytes(sep), HandleBytes(g.pending.value))]
    ensures TableOk(g.rows, g.cuts, Rows(g.blocks, index)) && IndexHeld(index, g.handles, rows, l)
  {
    assert Sound(g);
    index, rows := g.index, g.indexRows;
    if g.pending.Some? {
      index, rows := g.index + [sep], g.indexRows + [Row(sep, HandleBytes(g.pending.value))];
      IndexGrows(g.index, g.handles, g.indexRows, g.indexLayout, l, sep);
    }
    FinishedIndex(g.rows, g.cuts, g.index, |g.blocks|, g.pending.Some?, index);
  }

  /** The filters are in the file and let the keys added through. */
  ghost predicate FiltersPass(c: Codec, policy: Option<Policy>, file: Bytes, added: set<(nat, Bytes)>, h: Handle,
                              filters: seq<Bytes>) {
    policy.Some? ==>
      && HasBlock(c, file, h, Contents(filters))
      && forall x | x in added :: x.0 < |filters| && Passes(policy.value.hash, filters[x.0], x.1)
  }

  lemma FiltersDone(g: Progress, hash: Hash, filters: seq<Bytes>)
    requires forall x | x in g.added :: x.0 < |filters| && Passes(hash, filters[x.0], x.1)
    ensures forall i: nat | i < |g.blocks| :: FilterOk(hash, filters, g.blocks, i)
  {
    assert Sound(g);
    forall i: nat | i < |g.blocks| ensures FilterOk(hash, filters, g.blocks, i) {
      assert BlockKeysAdded(g.added, g.blocks, i) && Piece(g.rows, g.cuts, g.blocks, i);
      assert g.blocks[i].rows[0] in g.blocks[i].rows;
    }
  }

  /** The parts, written one after the other, make a table. */
  lemma Assembled(c: Codec, policy: Option<Policy>, g: Progress, s: Stored, file: Bytes, a: Bytes, b: Bytes, d: Bytes)
    requires g.codec == c && g.file == file && s.t.blocks == g.blocks && s.cuts == g.cuts
             && s.handles == g.handles && s.layouts == g.layouts
    requires TableOk(g.rows, s.cuts, s.t) && IndexHeld(s.t.index, s.handles, s.indexRows, s.indexLayout)
    requires FiltersPass(c, policy, file + a, g.added, s.filter, s.filters)
    requires StartsOk(s.meta) && s.meta.items == MetaItems(policy, s.filter)
             && HasBlock(c, file + a + b, s.metaindex, BlockFormat.Block(s.meta))
    requires HasBlock(c, file + a + b + d, s.index, BlockFormat.Block(s.indexLayout))
    ensures Holds(c, policy, file + a + b + d + FooterBytes(s.metaindex, s.index), g.rows, s)
  {
    var f := FooterBytes(s.metaindex, s.index);
    Regroup(file, a, b, d, f);
    DataDone(g, a + b + d + f);
    FiltersWritten(policy, g, s, a, b + d + f);
    BlockStays(c, file + a + b, d + f, s.metaindex, BlockFormat.Block(s.meta));
    BlockStays(c, file + a + b + d, f, s.index, BlockFormat.Block(s.indexLayout));
  }

  lemma Regroup(file: Bytes, a: Bytes, b: Bytes, d: Bytes, f: Bytes)
    ensures var whole := file + a + b + d + f;
            && whole == file + (a + b + d + f) && whole == file + a + (b + d + f) && whole == file + a + b + (d + f)
            && |whole| >= |f| && whole[|whole| - |f|..] == f
  {
  }

  lemma DataDone(g: Progress, tail: Bytes)
    ensures DataHeld(g.codec, g.file + tail, g.handles, g.layouts, g.blocks)
  {
    assert Sound(g);
    DataStaysHeld(g.codec, g.file, tail, g.handles, g.layouts, g.blocks);
  }

  lemma FiltersWritten(policy: Option<Policy>, g: Progress, s: Stored, a: Bytes, tail: Bytes)
    requires FiltersPass(g.codec, policy, g.file + a, g.added, s.filter, s.filters) && s.t.blocks == g.blocks
    ensures FiltersHeld(g.codec, policy, g.file + a + tail, s)
  {
    if policy.Some? {
      BlockStays(g.codec, g.file + a, tail, s.filter, Contents(s.filters));
      FiltersDone(g, policy.value.hash, s.filters);
    }
  }

  lemma StretchGrows(a: nat, b: nat)
    requires a <= b
    ensures Stretch(a) <= Stretch(b)
  {
  }

  class TableBuilder {
    const codec: Codec
    const policy: Option<Policy>
    const blockSize: nat
    const filter: FilterBlockBuilder?
    const dataBlock: BlockBuilder
    const indexBlock: BlockBuilder
    var file: Bytes
    var lastKey: Option<TableKey>
    var pending: Option<Handle>
    ghost var g: Progress

    ghost predicate Valid()
      reads this, filter, dataBlock, indexBlock
    {
      && dataBlock.Valid() && indexBlock.Valid() && dataBlock != indexBlock && Lossless(codec)
      && g.codec == codec && g.file == file && g.lastKey == lastKey && g.pending == pending
      && g.items == dataBlock.l.items && g.indexLayout == indexBlock.l && FiltersReady(g.added, |file|)
    }

    /** The keys are with the filter block builder, when there is one, and its next stretch is that of `offset`. */
    ghost predicate FiltersReady(added: set<(nat, Bytes)>, offset: nat)
      reads filter
    {
      match policy
      case None =>
        filter == null
      case Some(p) =>
        && filter != null && filter.Valid() && filter.hash == p.hash && filter.added == added
        && |filter.filters| == Stretch(offset)
    }

    constructor (codec: Codec, policy: Option<Policy>, interval: nat, blockSize: nat)
      requires Lossless(codec) && interval > 0
      ensures Valid() && g.rows == [] && file == [] && this.codec == codec && this.policy == policy
      ensures fresh(dataBlock) && fresh(indexBlock) && (filter != null ==> fresh(filter))
    {
      this.codec, this.policy, this.blockSize := codec, policy, blockSize;
      if policy.Some? {
        var f := new FilterBlockBuilder(policy.value.hash, policy.value.bitsPerKey);
        filter := f;
      } else {
        filter := null;
      }
      dataBlock := new BlockBuilder(interval);
      indexBlock := new BlockBuilder(1);
      file, lastKey, pending, g := [], None, None, Empty(codec);
      new;
      StartStretch(0, {}, 0);
    }

    lemma NoKeyYet()
      requires Valid() && g.rows == []
      ensures lastKey == None
    {
      assert Sound(g);
    }

    /** Append a block and its trailer. */
    method WriteRawBlock(contents: Bytes, kind: Byte) returns (h: Handle)
      modifies this`file
      ensures h == Handle(|old(file)|, |contents|)
      ensures file == old(file) + contents + Trailer(codec, contents, kind)
    {
      h := Handle(|file|, |contents|);
      file := file + contents + Trailer(codec, contents, kind);
    }

    /** Finish the block, write it and start it anew. */
    method WriteBlock(block: BlockBuilder) returns (h: Handle, ghost tail: Bytes)
      requires block.Valid() && Lossless(codec)
      modifies this`file, block
      ensures block.Valid() && block.l.items == [] && h.offset == |old(file)| && file == old(file) + tail
      ensures StartsOk(old(block.l)) && HasBlock(codec, file, h, BlockFormat.Block(old(block.l)))
    {
      var raw := block.Finish();
      var (contents, kind) := Pack(codec, raw);
      UnpackPack(codec, raw);
      BlockWritten(codec, file, contents, kind, raw);
      tail := contents + Trailer(codec, contents, kind);
      assert file + contents + Trailer(codec, contents, kind) == file + tail;
      h := WriteRawBlock(contents, kind);
      block.Reset();
    }

    /** Keys come in order. */
    method Add(key: TableKey, value: Bytes)
      requires Valid() && key.tag < WIDTH64 && (lastKey.Some? ==> KeyLess(lastKey.value, key))
      modifies this, filter, dataBlock, indexBlock
      ensures Valid() && g.rows == old(g.rows) + [Row(key, value)] && lastKey == Some(key)
      ensures g.unwritten == [] || (file == old(file) && dataBlock.SizeEstimate() < blockSize)
    {
      TakeRow(key, value);
      if dataBlock.SizeEstimate() >= blockSize {
        Flush();
      }
    }

    method TakeRow(key: TableKey, value: Bytes)
      requires Valid() && key.tag < WIDTH64 && (lastKey.Some? ==> KeyLess(lastKey.value, key))
      modifies this, filter, dataBlock, indexBlock
      ensures Valid() && g.rows == old(g.rows) + [Row(key, value)] && lastKey == Some(key) && file == old(file)
    {
      ghost var g' := CloseIndex(key, Row(key, value));
      AddToBlock(key, value, g.added, |g.file|);
      lastKey, g := Some(key), g';
    }

    method AddToBlock(key: TableKey, value: Bytes, ghost added: set<(nat, Bytes)>, ghost offset: nat)
      requires dataBlock.Valid() && FiltersReady(added, offset) && key.tag < WIDTH64
      modifies filter, dataBlock
      ensures dataBlock.Valid() && dataBlock.l.items == old(dataBlock.l.items) + [Item(KeyBytes(key), value)]
      ensures FiltersReady(added + {(Stretch(offset), key.user)}, offset)
    {
      if filter != null {
        filter.AddKeyTo(key.user);
      }
      dataBlock.Add(KeyBytes(key), value);
    }

    /** The last block gets its index entry, now that the key after it is known. */
    method CloseIndex(key: TableKey, ghost row: Row) returns (ghost g': Progress)
      requires indexBlock.Valid() && g.indexLayout == indexBlock.l && g.lastKey == lastKey && g.pending == pending
      requires row.key == key && key.tag < WIDTH64
               && (lastKey.Some? ==> KeyLess(lastKey.value, key))
      modifies this`pending, indexBlock
      ensures indexBlock.Valid() && pending == None && Took(g, g', row) && g'.indexLayout == indexBlock.l
    {
      PendingHasKey(g);
      if pending.Some? {
        var sep := InternalSeparator(lastKey.value, key);
        indexBlock.Add(KeyBytes(sep), HandleBytes(pending.value));
        pending := None;
        g' := RowAfterBlock(g, row, sep, indexBlock.l);
      } else {
        g' := RowInside(g, row);
      }
    }

    /** Write the rows collected as one block. */
    method Flush()
      requires Valid()
      modifies this, filter, dataBlock
      ensures Valid() && g.rows == old(g.rows) && lastKey == old(lastKey) && g.unwritten == []
      ensures g.blocks == old(g.blocks) + (if old(g.unwritten) == [] then []
                                           else [DataBlock(|old(file)|, old(g.unwritten))])
    {
      dataBlock.EmptyHasNone();
      if dataBlock.IsEmpty() {
        return;
      }
      ghost var l := dataBlock.l;
      var h, tail := WriteBlock(dataBlock);
      ghost var g' := BlockTaken(g, tail, h, l);
      StartStretch(|file|, g.added, |g.file|);
      pending, g := Some(h), g';
    }

    method StartStretch(offset: nat, ghost added: set<(nat, Bytes)>, ghost before: nat)
      requires FiltersReady(added, before) && before <= offset
      modifies filter
      ensures FiltersReady(added, offset)
    {
      StretchGrows(before, offset);
      if filter != null {
        filter.StartBlock(offset);
      }
    }

    /** Write what is left, the filters, the metaindex, the index and the footer. */
    method Finish() returns (ghost s: Stored)
      requires Valid()
      modifies this, filter, dataBlock, indexBlock
      ensures Holds(codec, policy, file, old(g.rows), s)
    {
      Flush();
      ghost var start := file;
      var filter, filters, a := WriteFilters();
      var metaindex, meta, b := WriteMeta(filter);
      var index, keys, rows, l, d := WriteIndex();
      s := Stored(Rows(g.blocks, keys), g.cuts, g.handles, g.layouts, rows, l, index, meta, metaindex, filters, filter);
      Assembled(codec, policy, g, s, start, a, b, d);
      file := file + FooterBytes(metaindex, index);
    }

    method WriteFilters() returns (h: Handle, ghost filters: seq<Bytes>, ghost tail: Bytes)
      requires FiltersReady(g.added, |file|)
      modifies this`file, filter
      ensures file == old(file) + tail && FiltersPass(codec, policy, file, g.added, h, filters)
    {
      h, filters, tail := Handle(0, 0), [], [];
      if filter != null {
        var contents := filter.Finish();
        filters := filter.filters;
        BlockWritten(codec, file, contents, NO_COMPRESSION, contents);
        tail := contents + Trailer(codec, contents, NO_COMPRESSION);
        assert file + contents + Trailer(codec, contents, NO_COMPRESSION) == file + tail;
        h := WriteRawBlock(contents, NO_COMPRESSION);
      } else {
        assert file + [] == file;
      }
    }

    /** The metaindex block names the filters, when there are any. */
    method WriteMeta(filter: Handle) returns (h: Handle, ghost l: Layout, ghost tail: Bytes)
      requires dataBlock.Valid() && Lossless(codec)
      modifies this`file
      ensures file == old(file) + tail && StartsOk(l) && l.items == MetaItems(policy, filter)
      ensures HasBlock(codec, file, h, BlockFormat.Block(l))
    {
      var meta := new BlockBuilder(dataBlock.interval);
      if policy.Some? {
        meta.Add(FilterKey(policy.value.name), HandleBytes(filter));
      }
      l := meta.l;
      h, tail := WriteBlock(meta);
    }

    /** The index block, with the entry of the last block. */
    method WriteIndex() returns (h: Handle, ghost keys: seq<TableKey>, ghost rows: seq<Row>, ghost l: Layout,
                                 ghost tail: Bytes)
      requires indexBlock.Valid() && Lossless(codec) && g.unwritten == []
      requires g.indexLayout == indexBlock.l && g.lastKey == lastKey && g.pending == pending
      modifies this`file, this`pending, indexBlock
      ensures file == old(file) + tail && StartsOk(l) && HasBlock(codec, file, h, BlockFormat.Block(l))
      ensures TableOk(g.rows, g.cuts, Rows(g.blocks, keys)) && IndexHeld(keys, g.handles, rows, l)
    {
      PendingHasKey(g);
      ghost var sep := TableKey([], 0);
      if pending.Some? {
        var key := InternalSuccessor(lastKey.value);
        sep := key;
        indexBlock.Add(KeyBytes(key), HandleBytes(pending.value));
        pending := None;
      }
      l := indexBlock.l;
      keys, rows := IndexDone(g, sep, l);
      h, tail := WriteBlock(indexBlock);
    }
  }

  /** BuildTable: a file of the rows, in order, with their first and last key; none when there are none. */
  method BuildTable(codec: Codec, policy: Option<Policy>, interval: nat, blockSize: nat, rows: seq<Row>)
    returns (r: Option<(Bytes, TableKey, TableKey)>, ghost s: Stored)
    requires Lossless(codec) && interval > 0 && RowsSorted(rows)
             && forall i | 0 <= i < |rows| :: rows[i].key.tag < WIDTH64
    ensures r.None? <==> rows == []
    ensures r.Some? ==> Holds(codec, policy, r.value.0, rows, s)
                        && r.value.1 == rows[0].key && r.value.2 == rows[|rows| - 1].key
  {
    r := None;
    if rows == [] {
      s := *;
      return;
    }
    var builder := new TableBuilder(codec, policy, interval, blockSize);
    AddRows(builder, rows);
    s := builder.Finish();
    r := Some((builder.file, rows[0].key, rows[|rows| - 1].key));
  }

  method AddRows(builder: TableBuilder, rows: seq<Row>)
    requires builder.Valid() && builder.g.rows == [] && RowsSorted(rows)
             && forall i | 0 <= i < |rows| :: rows[i].key.tag < WIDTH64
    modifies builder, builder.filter, builder.dataBlock, builder.indexBlock
    ensures builder.Valid() && builder.g.rows == rows
  {
    builder.NoKeyYet();
    for i := 0 to |rows|
      invariant builder.Valid() && builder.g.rows == rows[..i]
                && builder.lastKey == if i == 0 then None else Some(rows[i - 1].key)
    {
      if i > 0 {
        assert RowLess(rows, i - 1, i);
      }
      builder.Add(rows[i].key, rows[i].value);
      assert rows[..i + 1] == rows[..i] + [rows[i]];
    }
    assert rows[..|rows|] == rows;
  }
}
