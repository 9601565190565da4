/** The history of a database: the operations it acknowledged, in sequence-number order, and the plain map they stand
    for at each sequence number. */
module History {
  import opened DbFormat
  import opened Visibility

  datatype Op = Put(key: UserKey, val: Bytes) | Delete(key: UserKey)

  /** A write-ahead log record: one write batch and its first sequence number. */
  datatype Record = Record(first: nat, ops: seq<Op>)

  /** The entry an operation becomes at a sequence number (db/write_batch.cc:121-128). */
  function EntryOf(op: Op, sequence: nat): Entry {
    match op
    case Put(k, v) => Entry(IKey(k, sequence, Value), v)
    case Delete(k) => Entry(IKey(k, sequence, Deletion), [])
  }

  /** Operation `i` of the history has sequence number `i + 1`. */
  ghost function Range(hist: seq<Op>, a: nat, b: nat): set<Entry>
    requires a <= b <= |hist|
  {
    set i | a <= i < b :: EntryOf(hist[i], i + 1)
  }

  ghost function All(hist: seq<Op>): set<Entry> {
    Range(hist, 0, |hist|)
  }

  /** The plain map after the first `n` operations. */
  function MapAt(hist: seq<Op>, n: nat): map<UserKey, Bytes>
    requires n <= |hist|
  {
    if n == 0 then map[]
    else
      var m := MapAt(hist, n - 1);
      match hist[n - 1]
      case Put(k, v) => m[k := v]
      case Delete(k) => m - {k}
  }

  function Lookup(m: map<UserKey, Bytes>, k: UserKey): Option<Bytes> {
    if k in m then Some(m[k]) else None
  }

  lemma RangeEntry(hist: seq<Op>, a: nat, b: nat, e: Entry)
    requires a <= b <= |hist|
    ensures e in Range(hist, a, b) <==> a < e.key.sequence <= b
                                        && e == EntryOf(hist[e.key.sequence - 1], e.key.sequence)
  {
    if a < e.key.sequence <= b && e == EntryOf(hist[e.key.sequence - 1], e.key.sequence) {
      var i := e.key.sequence - 1;
      assert a <= i < b && e == EntryOf(hist[i], i + 1);
    }
  }

  lemma RangeUnique(hist: seq<Op>, S: set<Entry>)
    requires S <= All(hist)
    ensures OneEntryPerSeq(S)
  {
    forall x, y | x in S && y in S && x.key.sequence == y.key.sequence ensures x == y {
      RangeEntry(hist, 0, |hist|, x);
      RangeEntry(hist, 0, |hist|, y);
    }
  }

  lemma RangeSplit(hist: seq<Op>, a: nat, b: nat, c: nat)
    requires a <= b <= c <= |hist|
    ensures Range(hist, a, c) == Range(hist, a, b) + Range(hist, b, c)
  {
    forall e ensures e in Range(hist, a, c) <==> e in Range(hist, a, b) + Range(hist, b, c) {
      RangeEntry(hist, a, c, e);
      RangeEntry(hist, a, b, e);
      RangeEntry(hist, b, c, e);
    }
  }

  lemma RangeExtend(hist: seq<Op>, ops: seq<Op>, a: nat, b: nat)
    requires a <= b <= |hist|
    ensures Range(hist + ops, a, b) == Range(hist, a, b)
  {
    forall e ensures e in Range(hist + ops, a, b) <==> e in Range(hist, a, b) {
      RangeEntry(hist + ops, a, b, e);
      RangeEntry(hist, a, b, e);
    }
  }

  /** Reading the whole history at a sequence number is looking up the plain map of that moment. */
  lemma {:induction false} HistoryIsMap(hist: seq<Op>, k: UserKey, s: nat)
    requires s <= |hist|
    ensures View(All(hist), k, s) == Lookup(MapAt(hist, s), k)
  {
    if s == 0 {
      forall e | e in All(hist) ensures !Matches(e, k, 0) {
        RangeEntry(hist, 0, |hist|, e);
      }
    } else {
      HistoryIsMap(hist, k, s - 1);
      if hist[s - 1].key == k {
        LastOpAnswers(hist, s);
      } else {
        LastOpElsewhere(hist, k, s);
      }
    }
  }

  /** The operation at `s` decides what a read of its key at `s` returns. */
  lemma LastOpAnswers(hist: seq<Op>, s: nat)
    requires 0 < s <= |hist|
    ensures View(All(hist), hist[s - 1].key, s) == Answer(EntryOf(hist[s - 1], s))
  {
    var e := EntryOf(hist[s - 1], s);
    RangeEntry(hist, 0, |hist|, e);
    RangeUnique(hist, All(hist));
    ViewOfNewest(All(hist), hist[s - 1].key, s, e);
  }

  /** ... and leaves other keys as they were. */
  lemma LastOpElsewhere(hist: seq<Op>, k: UserKey, s: nat)
    requires 0 < s <= |hist| && hist[s - 1].key != k
    ensures View(All(hist), k, s) == View(All(hist), k, s - 1)
  {
    forall x | x in All(hist) ensures Matches(x, k, s) <==> Matches(x, k, s - 1) {
      RangeEntry(hist, 0, |hist|, x);
    }
    RangeUnique(hist, All(hist));
    SameMatchesSameView(All(hist), k, s, s - 1);
  }

  lemma SameMatchesSameView(S: set<Entry>, k: UserKey, s: nat, t: nat)
    requires OneEntryPerSeq(S)
    requires forall x | x in S :: Matches(x, k, s) <==> Matches(x, k, t)
    ensures View(S, k, s) == View(S, k, t)
  {
    if !NoMatch(S, k, s) {
      var e := NewestExists(S, k, s);
      assert Newest(S, k, t, e);
      ViewOfNewest(S, k, s, e);
      ViewOfNewest(S, k, t, e);
    }
  }

  // ---- Reads of a database against its history ----

  /** `S` answers every read from `floor` up as the history does. */
  ghost predicate ReadsAs(S: set<Entry>, hist: seq<Op>, floor: nat) {
    forall k, s: nat | floor <= s <= |hist| :: View(S, k, s) == View(All(hist), k, s)
  }

  /** Nothing is newer than the last sequence number, so later snapshots read the same. */
  lemma ViewBeyond(S: set<Entry>, hist: seq<Op>, k: UserKey, s: nat)
    requires S <= All(hist) && |hist| <= s
    ensures View(S, k, s) == View(S, k, |hist|)
  {
    RangeUnique(hist, S);
    forall x | x in S ensures Matches(x, k, s) <==> Matches(x, k, |hist|) {
      RangeEntry(hist, 0, |hist|, x);
    }
    SameMatchesSameView(S, k, s, |hist|);
  }

  /** Appending operations to both sides keeps them in agreement. */
  lemma AppendKeepsReads(S: set<Entry>, hist: seq<Op>, ops: seq<Op>, floor: nat)
    requires S <= All(hist) && ReadsAs(S, hist, floor) && floor <= |hist|
    ensures ReadsAs(S + Range(hist + ops, |hist|, |hist + ops|), hist + ops, floor)
  {
    var hist' := hist + ops;
    var N := Range(hist', |hist|, |hist'|);
    RangeSplit(hist', 0, |hist|, |hist'|);
    RangeExtend(hist, ops, 0, |hist|);
    assert All(hist') == N + All(hist);
    forall k, s: nat | floor <= s <= |hist'| ensures View(S + N, k, s) == View(All(hist'), k, s) {
      AppendOneRead(S, hist, ops, k, s);
      AppendOneRead(All(hist), hist, ops, k, s);
      assert S + N == N + S && View(S, k, if s < |hist| then s else |hist|) ==
             View(All(hist), k, if s < |hist| then s else |hist|);
    }
  }

  /** One read after appending: answered by the new part, or as before. */
  lemma AppendOneRead(S: set<Entry>, hist: seq<Op>, ops: seq<Op>, k: UserKey, s: nat)
    requires S <= All(hist) && s <= |hist + ops|
    ensures var N := Range(hist + ops, |hist|, |hist + ops|);
            View(N + S, k, s) == if NoMatch(N, k, s) then View(S, k, if s < |hist| then s else |hist|)
                else View(N, k, s)
  {
    var hist' := hist + ops;
    var N := Range(hist', |hist|, |hist'|);
    RangeSplit(hist', 0, |hist|, |hist'|);
    RangeExtend(hist, ops, 0, |hist|);
    RangeUnique(hist', N + S);
    if NoMatch(N, k, s) {
      MissInUpper(N, S, k, s);
      if s >= |hist| {
        ViewBeyond(S, hist, k, s);
      }
    } else {
      var e := NewestExists(N, k, s);
      forall a, b | a in N && b in S ensures a.key.sequence > b.key.sequence {
        RangeEntry(hist', |hist|, |hist'|, a);
        RangeEntry(hist, 0, |hist|, b);
      }
      HitInUpper(N, S, k, s, e);
      ViewOfNewest(N + S, k, s, e);
      ViewOfNewest(N, k, s, e);
    }
  }
}
