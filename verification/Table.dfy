/** The rows of a table in their blocks, and what a search of its index and blocks amounts to (table/table_builder.cc,
    table/table.cc).  The bytes are in TableFile, the builder in TableBuild. */
module Table {
  import opened DbFormat
  import opened Separators
  import opened BlockFormat
  import opened Bloom
  import opened FilterBlock

  datatype Row = Row(key: TableKey, value: Bytes)

  /** A data block: where it lies in the file, and its rows. */
  datatype DataBlock = DataBlock(offset: nat, rows: seq<Row>)

  datatype Rows = Rows(blocks: seq<DataBlock>, index: seq<TableKey>)

  ghost predicate RowsSorted(rows: seq<Row>) {
    forall i: nat, j: nat | i < j < |rows| :: RowLess(rows, i, j)
  }

  ghost predicate RowLess(rows: seq<Row>, i: nat, j: nat)
    requires i < |rows| && j < |rows|
  {
    KeyLess(rows[i].key, rows[j].key)
  }

  /** The blocks are the rows cut into pieces, none empty. */
  ghost predicate Cut(rows: seq<Row>, cuts: seq<nat>, blocks: seq<DataBlock>) {
    && |cuts| == |blocks| + 1 && cuts[0] == 0 && cuts[|blocks|] <= |rows|
    && (forall i: nat | i + 1 < |cuts| :: Rises(cuts, i))
    && (forall i: nat | i < |blocks| :: Piece(rows, cuts, blocks, i))
  }

  ghost predicate Piece(rows: seq<Row>, cuts: seq<nat>, blocks: seq<DataBlock>, i: nat)
    requires i < |blocks| && |cuts| == |blocks| + 1
  {
    cuts[i] < cuts[i + 1] <= |rows| && blocks[i].rows == rows[cuts[i]..cuts[i + 1]]
  }

  /** The index key of block `i` parts its last row from the row after it, if there is one. */
  ghost predicate IndexOk(rows: seq<Row>, cuts: seq<nat>, index: seq<TableKey>, i: nat)
    requires i < |index| && i + 1 < |cuts|
  {
    && 0 < cuts[i + 1] <= |rows|
    && var last := rows[cuts[i + 1] - 1].key;
       if cuts[i + 1] < |rows| then Separates(last, rows[cuts[i + 1]].key, index[i]) else Succeeds(last, index[i])
  }

  /** The filter of a block lets the user keys of its rows through. */
  ghost predicate FilterOk(hash: Hash, filters: seq<Bytes>, blocks: seq<DataBlock>, i: nat)
    requires i < |blocks|
  {
    var block := blocks[i];
    && Stretch(block.offset) < |filters|
    && forall row | row in block.rows :: Passes(hash, filters[Stretch(block.offset)], row.key.user)
  }

  ghost predicate TableOk(rows: seq<Row>, cuts: seq<nat>, t: Rows) {
    && RowsSorted(rows) && Cut(rows, cuts, t.blocks) && |t.index| == |t.blocks| && cuts[|t.blocks|] == |rows|
    && (forall i: nat | i < |t.index| :: IndexOk(rows, cuts, t.index, i))
  }

  /** The first of the keys not before `k`. */
  ghost predicate FirstFrom(rows: seq<Row>, k: TableKey, j: nat) {
    && j <= |rows| && (forall i | 0 <= i < j :: KeyLess(rows[i].key, k)) && (j < |rows| ==> !KeyLess(rows[j].key, k))
  }

  /** What a scan of all the rows finds for a user key: the first row from `k` on, if it is of that user key. */
  ghost predicate ScanFinds(rows: seq<Row>, k: TableKey, r: Option<Row>) {
    exists j: nat :: FirstFrom(rows, k, j) && r == if j < |rows|
                     && rows[j].key.user == k.user then Some(rows[j]) else None
  }

  /** Rows before the block the index leads to are before the key. */
  lemma BeforeBlock(rows: seq<Row>, cuts: seq<nat>, index: seq<TableKey>, k: TableKey, i: nat)
    requires RowsSorted(rows) && |cuts| == |index| + 1 && cuts[0] == 0
             && (forall j: nat | j < |index| :: IndexOk(rows, cuts, index, j))
    requires i <= |index| && forall j | 0 <= j < i :: KeyLess(index[j], k)
    ensures cuts[i] <= |rows| && forall j | 0 <= j < cuts[i] :: KeyLess(rows[j].key, k)
  {
    if i > 0 {
      assert IndexOk(rows, cuts, index, i - 1);
      var last := cuts[i] - 1;
      assert KeyLeq(rows[last].key, index[i - 1]);
      forall j | 0 <= j < cuts[i] ensures KeyLess(rows[j].key, k) {
        if rows[last].key != index[i - 1] {
          KeyTransitive(rows[last].key, index[i - 1], k);
        }
        if j < last {
          assert RowLess(rows, j, last);
          KeyTransitive(rows[j].key, rows[last].key, k);
        }
      }
    }
  }

  /** The search of the block finds what the scan finds, except a row of another user key. */
  lemma BlockSeek(rows: seq<Row>, cuts: seq<nat>, index: seq<TableKey>, block: seq<Row>, k: TableKey, i: nat, j: nat)
    requires RowsSorted(rows) && i < |index| && i + 1 < |cuts| && IndexOk(rows, cuts, index, i) && !KeyLess(index[i], k)
    requires cuts[i] < cuts[i + 1] <= |rows| && block == rows[cuts[i]..cuts[i + 1]] && FirstFrom(block, k, j)
    requires forall m | 0 <= m < cuts[i] :: KeyLess(rows[m].key, k)
    ensures j < |block| ==> FirstFrom(rows, k, cuts[i] + j) && rows[cuts[i] + j] == block[j]
    ensures j == |block| ==> FirstFrom(rows, k, cuts[i + 1])
                             && (cuts[i + 1] < |rows| ==> rows[cuts[i + 1]].key.user != k.user)
  {
    forall m | 0 <= m < cuts[i] + j ensures KeyLess(rows[m].key, k) {
      if cuts[i] <= m {
        assert block[m - cuts[i]] == rows[m];
      }
    }
    if j == |block| && cuts[i + 1] < |rows| {
      var last, next := rows[cuts[i + 1] - 1].key, rows[cuts[i + 1]].key;
      assert KeyLess(last, k);
      KeyTotal(last, k);
      KeyTotal(index[i], k);
      assert UserLess(last.user, index[i].user) && UserLess(index[i].user, next.user);
      UserTotal(k.user, index[i].user);
      UserTotal(k.user, next.user);
      if UserLess(k.user, index[i].user) {
        UserTransitive(k.user, index[i].user, next.user);
      }
    }
  }

  // ---- Building ----

  /** The user keys of the block were added for the stretch its offset lies in. */
  ghost predicate KeysAdded(added: set<(nat, Bytes)>, offset: nat, rows: seq<Row>) {
    forall row | row in rows :: (Stretch(offset), row.key.user) in added
  }

  ghost predicate BlockKeysAdded(added: set<(nat, Bytes)>, blocks: seq<DataBlock>, i: nat)
    requires i < |blocks|
  {
    KeysAdded(added, blocks[i].offset, blocks[i].rows)
  }

  /** An index key in place before a later row. */
  ghost predicate IndexSet(rows: seq<Row>, cuts: seq<nat>, index: seq<TableKey>, i: nat)
    requires i < |index| && i + 1 < |cuts|
  {
    0 < cuts[i + 1] < |rows| && Separates(rows[cuts[i + 1] - 1].key, rows[cuts[i + 1]].key, index[i])
  }

  /** The blocks written and the rows not yet written. */
  ghost predicate RowsOk(rows: seq<Row>, cuts: seq<nat>, blocks: seq<DataBlock>, unwritten: seq<Row>) {
    RowsSorted(rows) && Cut(rows, cuts, blocks) && unwritten == rows[cuts[|blocks|]..]
  }

  /** An index key for each block, but for the last one while the row after it is not known. */
  ghost predicate IndexesOk(rows: seq<Row>, cuts: seq<nat>, index: seq<TableKey>, blocks: nat, pending: bool) {
    && |cuts| == blocks + 1 && |index| + (if pending then 1 else 0) == blocks
    && (pending ==> cuts[blocks] == |rows| > 0)
    && forall i: nat | i < |index| :: IndexSet(rows, cuts, index, i)
  }

  lemma RowAdded(rows: seq<Row>, cuts: seq<nat>, blocks: seq<DataBlock>, unwritten: seq<Row>, row: Row)
    requires RowsOk(rows, cuts, blocks, unwritten) && (rows != [] ==> KeyLess(rows[|rows| - 1].key, row.key))
    ensures RowsOk(rows + [row], cuts, blocks, unwritten + [row])
  {
    var rows' := rows + [row];
    forall i: nat, j: nat | i < j < |rows'| ensures RowLess(rows', i, j) {
      if j < |rows| {
        assert RowLess(rows, i, j);
      } else if i < |rows| - 1 {
        assert RowLess(rows, i, |rows| - 1);
        KeyTransitive(rows[i].key, rows[|rows| - 1].key, row.key);
      }
    }
    forall i: nat | i < |blocks| ensures Piece(rows', cuts, blocks, i) {
      assert Piece(rows, cuts, blocks, i);
      assert rows'[cuts[i]..cuts[i + 1]] == rows[cuts[i]..cuts[i + 1]];
    }
  }

  lemma BlockAdded(rows: seq<Row>, cuts: seq<nat>, blocks: seq<DataBlock>, unwritten: seq<Row>, offset: nat)
    requires RowsOk(rows, cuts, blocks, unwritten) && unwritten != []
    ensures RowsOk(rows, cuts + [|rows|], blocks + [DataBlock(offset, unwritten)], [])
  {
    var cuts', blocks' := cuts + [|rows|], blocks + [DataBlock(offset, unwritten)];
    forall i: nat | i + 1 < |cuts'| ensures Rises(cuts', i) {
      if i + 1 < |cuts| {
        assert Rises(cuts, i);
      }
    }
    forall i: nat | i < |blocks'| ensures Piece(rows, cuts', blocks', i) {
      if i < |blocks| {
        assert Piece(rows, cuts, blocks, i);
      }
    }
  }

  lemma IndexesStay(rows: seq<Row>, cuts: seq<nat>, index: seq<TableKey>, blocks: nat, row: Row)
    requires IndexesOk(rows, cuts, index, blocks, false)
    ensures IndexesOk(rows + [row], cuts, index, blocks, false)
  {
    forall i: nat | i < |index| ensures IndexSet(rows + [row], cuts, index, i) {
      assert IndexSet(rows, cuts, index, i);
    }
  }

  /** The row after a block is known: its index key can be chosen. */
  lemma IndexAdded(rows: seq<Row>, cuts: seq<nat>, index: seq<TableKey>, blocks: nat, row: Row, sep: TableKey)
    requires IndexesOk(rows, cuts, index, blocks, true) && Separates(rows[|rows| - 1].key, row.key, sep)
    ensures IndexesOk(rows + [row], cuts, index + [sep], blocks, false)
  {
    var index' := index + [sep];
    forall i: nat | i < |index'| ensures IndexSet(rows + [row], cuts, index', i) {
      if i < |index| {
        assert IndexSet(rows, cuts, index, i);
      }
    }
  }

  lemma IndexPends(rows: seq<Row>, cuts: seq<nat>, index: seq<TableKey>, blocks: nat)
    requires IndexesOk(rows, cuts, index, blocks, false) && rows != []
    ensures IndexesOk(rows, cuts + [|rows|], index, blocks + 1, true)
  {
    forall i: nat | i < |index| ensures IndexSet(rows, cuts + [|rows|], index, i) {
      assert IndexSet(rows, cuts, index, i);
    }
  }

  lemma FinishedIndex(rows: seq<Row>, cuts: seq<nat>, index: seq<TableKey>, blocks: nat, pending: bool,
                      keys: seq<TableKey>)
    requires IndexesOk(rows, cuts, index, blocks, pending)
    requires if pending then |keys| == |index| + 1 && keys[..|index|] == index
                             && Succeeds(rows[|rows| - 1].key, keys[|index|]) else keys == index
    ensures |keys| == blocks && forall i: nat | i < |keys| :: IndexOk(rows, cuts, keys, i)
  {
    forall i: nat | i < |keys| ensures IndexOk(rows, cuts, keys, i) {
      if i < |index| {
        assert IndexSet(rows, cuts, index, i);
        assert keys[..|index|][i] == keys[i];
      }
    }
  }
}
