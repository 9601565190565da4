/** The merging iterator over sorted children (table/merger.cc). */
module Merging {
  import opened DbFormat

  /** A child's Seek: the first entry at or after `target`. */
  method SeekRun(s: seq<Entry>, target: IKey) returns (i: nat)
    requires Sorted(s)
    ensures SeekPosition(s, target, i)
  {
    var lo, hi := 0, |s|;
    while lo < hi
      invariant 0 <= lo <= hi <= |s|
      invariant forall j | 0 <= j < lo :: Less(s[j].key, target)
      invariant hi < |s| ==> Leq(target, s[hi].key)
    {
      var mid := (lo + hi) / 2;
      if Less(s[mid].key, target) {
        lo := mid + 1;
      } else {
        hi := mid;
      }
    }
    i := lo;
  }

  // ---- The sorted union of the children ----

  /** The same key comes from one child only. */
  ghost predicate DistinctRuns(runs: seq<seq<Entry>>) {
    forall a, b | 0 <= a < b < |runs| :: KeysApart(runs[a], runs[b])
  }

  ghost predicate AllSorted(runs: seq<seq<Entry>>) {
    forall k | 0 <= k < |runs| :: Sorted(runs[k])
  }

  /** `all` is the children's entries in order. */
  ghost predicate IsUnion(all: seq<Entry>, runs: seq<seq<Entry>>) {
    && Sorted(all)
    && (forall k, e | 0 <= k < |runs| && e in runs[k] :: e in all)
    && (forall e | e in all :: exists k :: 0 <= k < |runs| && e in runs[k])
  }

  /** One of the first `n` children holds the entry. */
  ghost predicate InSome(runs: seq<seq<Entry>>, n: nat, e: Entry)
    requires n <= |runs|
  {
    0 < n && (e in runs[n - 1] || InSome(runs, n - 1, e))
  }

  lemma {:induction false} InSomeRun(runs: seq<seq<Entry>>, n: nat, e: Entry)
    requires n <= |runs|
    ensures InSome(runs, n, e) <==> exists k :: 0 <= k < n && e in runs[k]
  {
    if 0 < n {
      InSomeRun(runs, n - 1, e);
    }
  }

  ghost predicate KeysApart(s: seq<Entry>, t: seq<Entry>) {
    forall x, y | x in s && y in t :: x.key != y.key
  }

  /** The first `n` children are sorted runs, each with keys of its own. */
  ghost predicate Separate(runs: seq<seq<Entry>>, n: nat)
    requires n <= |runs|
  {
    0 < n ==> Separate(runs, n - 1) && Sorted(runs[n - 1]) && forall k | 0 <= k < n - 1 ::
              KeysApart(runs[k], runs[n - 1])
  }

  lemma {:induction false} SeparateRuns(runs: seq<seq<Entry>>, n: nat, k: nat)
    requires n <= |runs| && Separate(runs, n) && k < n
    ensures Sorted(runs[k]) && forall j | 0 <= j < k :: KeysApart(runs[j], runs[k])
  {
    if k < n - 1 {
      SeparateRuns(runs, n - 1, k);
    }
  }

  lemma {:induction false} RunsSeparate(runs: seq<seq<Entry>>, n: nat)
    requires n <= |runs| && AllSorted(runs) && DistinctRuns(runs)
    ensures Separate(runs, n)
  {
    if 0 < n {
      RunsSeparate(runs, n - 1);
    }
  }

  /** `all` is the children's entries in one order; `Merges` says what this comes to. */
  ghost predicate Merge(all: seq<Entry>, runs: seq<seq<Entry>>) {
    Sorted(all) && Separate(runs, |runs|) && forall e :: InSome(runs, |runs|, e) <==> e in all
  }

  lemma Merges(all: seq<Entry>, runs: seq<seq<Entry>>)
    requires Merge(all, runs)
    ensures AllSorted(runs) && DistinctRuns(runs) && IsUnion(all, runs)
  {
    forall k | 0 <= k < |runs| ensures Sorted(runs[k]) && forall j | 0 <= j < k :: KeysApart(runs[j], runs[k]) {
      SeparateRuns(runs, |runs|, k);
    }
    forall a, b, x, y | 0 <= a < b < |runs| && x in runs[a] && y in runs[b] ensures x.key != y.key {
      assert KeysApart(runs[a], runs[b]);
    }
    forall e ensures e in all <==> exists k :: 0 <= k < |runs| && e in runs[k] {
      InSomeRun(runs, |runs|, e);
    }
  }

  /** Equal tags and user keys are equal keys, so two unequal keys are ordered one way or the other. */
  lemma Ordered(a: IKey, b: IKey)
    ensures a == b || Less(a, b) || Less(b, a)
  {
    assert Tag(a) == Tag(b) ==> a.sequence == b.sequence;
  }

  lemma {:induction false} SeekExists(s: seq<Entry>, target: IKey) returns (i: nat)
    requires Sorted(s)
    ensures SeekPosition(s, target, i)
    decreases |s|
  {
    if s == [] || Less(s[|s| - 1].key, target) {
      i := |s|;
    } else {
      i := SeekExists(s[..|s| - 1], target);
    }
  }

  lemma Spliced(s: seq<Entry>, i: nat, e: Entry) returns (r: seq<Entry>)
    requires Sorted(s) && SeekPosition(s, e.key, i) && forall x | x in s :: x.key != e.key
    ensures Sorted(r) && forall x :: x in r <==> x in s || x == e
  {
    r := s[..i] + [e] + s[i..];
    forall j | i <= j < |s| ensures Less(e.key, s[j].key) {
      Ordered(e.key, s[j].key);
    }
    assert s == s[..i] + s[i..];
  }

  /** One more sorted run, with keys of its own, goes into the union. */
  lemma {:induction false} MergeRun(all: seq<Entry>, run: seq<Entry>) returns (r: seq<Entry>)
    requires Sorted(all) && Sorted(run) && forall x, y | x in all && y in run :: x.key != y.key
    ensures Sorted(r) && forall x :: x in r <==> x in all || x in run
    decreases |run|
  {
    if run == [] {
      r := all;
    } else {
      var init, last := run[..|run| - 1], run[|run| - 1];
      assert run == init + [last];
      r := MergeRun(all, init);
      var i := SeekExists(r, last.key);
      forall x | x in r ensures x.key != last.key {
        if x in init {
          var j :| 0 <= j < |init| && init[j] == x;
          assert run[j] == x && Less(run[j].key, last.key);
        }
      }
      r := Spliced(r, i, last);
    }
  }

  lemma {:induction false} UnionExists(runs: seq<seq<Entry>>, n: nat) returns (all: seq<Entry>)
    requires n <= |runs| && Separate(runs, n)
    ensures Sorted(all) && forall e :: InSome(runs, n, e) <==> e in all
    decreases n
  {
    if n == 0 {
      all := [];
    } else {
      var before := UnionExists(runs, n - 1);
      forall x, y | x in before && y in runs[n - 1] ensures x.key != y.key {
        InSomeRun(runs, n - 1, x);
        var k :| 0 <= k < n - 1 && x in runs[k];
        assert KeysApart(runs[k], runs[n - 1]);
      }
      all := MergeRun(before, runs[n - 1]);
    }
  }

  // ---- Cutting the children and their union at one place ----

  /** Cutting a child before `n` is cutting the union before `p`: each side's last entry is before the other's first. */
  ghost predicate CutAt(s: seq<Entry>, n: int, all: seq<Entry>, p: nat) {
    && 0 <= n <= |s| && p <= |all|
    && (0 < n && p < |all| ==> Less(s[n - 1].key, all[p].key))
    && (n < |s| && 0 < p ==> Less(all[p - 1].key, s[n].key))
  }

  /** Every child stands at the cut: on the entry after it going forward, on the one before it going back. */
  ghost predicate AllCut(runs: seq<seq<Entry>>, index: seq<int>, forward: bool, all: seq<Entry>, p: nat) {
    && |index| == |runs| && p <= |all|
    && forall k | 0 <= k < |runs| :: CutAt(runs[k], if forward then index[k] else index[k] + 1, all, p)
  }

  /** The same, for the first `n` children. */
  ghost predicate Placed(runs: seq<seq<Entry>>, index: seq<int>, forward: bool, all: seq<Entry>, p: nat, n: nat)
    requires |index| == |runs| && n <= |runs|
  {
    p <= |all| && (0 < n ==> CutAt(runs[n - 1], if forward then index[n - 1] else index[n - 1] + 1, all, p)
                             && Placed(runs, index, forward, all, p, n - 1))
  }

  lemma {:induction false} PlacedOne(runs: seq<seq<Entry>>, index: seq<int>, forward: bool, all: seq<Entry>, p: nat,
                                     n: nat, k: nat)
    requires |index| == |runs| && n <= |runs| && Placed(runs, index, forward, all, p, n) && k < n
    ensures CutAt(runs[k], if forward then index[k] else index[k] + 1, all, p)
  {
    if k < n - 1 {
      PlacedOne(runs, index, forward, all, p, n - 1, k);
    }
  }

  lemma PlacedAll(runs: seq<seq<Entry>>, index: seq<int>, forward: bool, all: seq<Entry>, p: nat)
    requires |index| == |runs| && Placed(runs, index, forward, all, p, |runs|)
    ensures AllCut(runs, index, forward, all, p)
  {
    forall k | 0 <= k < |runs| ensures CutAt(runs[k], if forward then index[k] else index[k] + 1, all, p) {
      PlacedOne(runs, index, forward, all, p, |runs|, k);
    }
  }

  lemma {:induction false} AllPlaced(runs: seq<seq<Entry>>, index: seq<int>, forward: bool, all: seq<Entry>, p: nat,
                                     n: nat)
    requires AllCut(runs, index, forward, all, p) && n <= |runs|
    ensures Placed(runs, index, forward, all, p, n)
  {
    if 0 < n {
      AllPlaced(runs, index, forward, all, p, n - 1);
    }
  }

  /** A child's entry after the cut is in the union after the cut. */
  lemma AfterCut(s: seq<Entry>, n: int, all: seq<Entry>, p: nat, j: nat) returns (i: nat)
    requires Sorted(s) && Sorted(all) && CutAt(s, n, all, p) && n <= j < |s| && s[j] in all
    ensures p <= i < |all| && all[i] == s[j]
  {
    i :| 0 <= i < |all| && all[i] == s[j];
  }

  lemma BeforeCut(s: seq<Entry>, n: int, all: seq<Entry>, p: nat, j: nat) returns (i: nat)
    requires Sorted(s) && Sorted(all) && CutAt(s, n, all, p) && j < n && s[j] in all
    ensures i < p && all[i] == s[j]
  {
    i :| 0 <= i < |all| && all[i] == s[j];
  }

  /** The entry after the cut stands at the front of the child it comes from. */
  lemma HeadAfterCut(runs: seq<seq<Entry>>, index: seq<int>, all: seq<Entry>, p: nat) returns (k: nat)
    requires AllSorted(runs) && IsUnion(all, runs) && AllCut(runs, index, true, all, p) && p < |all|
    ensures k < |runs| && 0 <= index[k] < |runs[k]| && runs[k][index[k]] == all[p]
  {
    assert all[p] in all;
    k :| 0 <= k < |runs| && all[p] in runs[k];
    var s, n := runs[k], index[k];
    assert CutAt(s, n, all, p);
    var j :| 0 <= j < |s| && s[j] == all[p];
    var i := AfterCut(s, n, all, p, n);
    if n < j {
      assert Less(s[n].key, s[j].key);
    }
  }

  lemma HeadBeforeCut(runs: seq<seq<Entry>>, index: seq<int>, all: seq<Entry>, p: nat) returns (k: nat)
    requires AllSorted(runs) && IsUnion(all, runs) && AllCut(runs, index, false, all, p) && 0 < p
    ensures k < |runs| && 0 <= index[k] < |runs[k]| && runs[k][index[k]] == all[p - 1]
  {
    assert all[p - 1] in all;
    k :| 0 <= k < |runs| && all[p - 1] in runs[k];
    var s, n := runs[k], index[k];
    assert CutAt(s, n + 1, all, p);
    var j :| 0 <= j < |s| && s[j] == all[p - 1];
    var i := BeforeCut(s, n + 1, all, p, n);
    if j < n {
      assert Less(s[j].key, s[n].key);
    }
  }

  /** Where a seek leaves a child and where it leaves the union. */
  lemma SeekCuts(s: seq<Entry>, n: nat, all: seq<Entry>, p: nat, target: IKey)
    requires Sorted(s) && Sorted(all) && SeekPosition(s, target, n) && SeekPosition(all, target, p)
    ensures CutAt(s, n, all, p)
  {
  }

  lemma OwnPosition(all: seq<Entry>, p: nat)
    requires Sorted(all) && p < |all|
    ensures SeekPosition(all, all[p].key, p)
  {
  }

  /** A child without the entry at the cut may as well be cut after it. */
  lemma CutPast(s: seq<Entry>, n: int, all: seq<Entry>, p: nat)
    requires Sorted(s) && Sorted(all) && p < |all| && CutAt(s, n, all, p) && forall x | x in s :: x.key != all[p].key
    requires forall x | x in s :: x in all
    ensures CutAt(s, n, all, p + 1)
  {
    if n < |s| {
      var i := AfterCut(s, n, all, p, n);
    }
  }

  /** The child with the entry at the cut steps over it. */
  lemma CutOver(s: seq<Entry>, n: int, all: seq<Entry>, p: nat)
    requires Sorted(s) && Sorted(all) && p < |all| && CutAt(s, n, all, p) && n < |s| && s[n] == all[p]
    ensures CutAt(s, n + 1, all, p + 1)
  {
  }

  lemma CutUnder(s: seq<Entry>, n: int, all: seq<Entry>, p: nat)
    requires Sorted(s) && Sorted(all) && 0 < p && CutAt(s, n, all, p) && 0 < n && s[n - 1] == all[p - 1]
    ensures CutAt(s, n - 1, all, p - 1)
  {
  }

  // ---- Choosing the current child ----

  predicate ChildValid(runs: seq<seq<Entry>>, index: seq<int>, k: nat)
    requires |index| == |runs| && k < |runs|
  {
    0 <= index[k] < |runs[k]|
  }

  ghost predicate IsSmallest(runs: seq<seq<Entry>>, index: seq<int>, smallest: Option<nat>)
    requires |index| == |runs|
  {
    match smallest
    case None => forall k: nat | k < |runs| :: !ChildValid(runs, index, k)
    case Some(m) =>
      && m < |runs| && ChildValid(runs, index, m)
      && forall k: nat | k < |runs| && ChildValid(runs, index, k) :: Leq(runs[m][index[m]].key, runs[k][index[k]].key)
  }

  ghost predicate IsLargest(runs: seq<seq<Entry>>, index: seq<int>, largest: Option<nat>)
    requires |index| == |runs|
  {
    match largest
    case None => forall k: nat | k < |runs| :: !ChildValid(runs, index, k)
    case Some(m) =>
      && m < |runs| && ChildValid(runs, index, m)
      && forall k: nat | k < |runs| && ChildValid(runs, index, k) :: Leq(runs[k][index[k]].key, runs[m][index[m]].key)
  }

  /** The first child with the smallest key. */
  method FindSmallest(runs: seq<seq<Entry>>, index: seq<int>) returns (smallest: Option<nat>)
    requires |index| == |runs|
    ensures IsSmallest(runs, index, smallest)
  {
    smallest := None;
    for i := 0 to |runs|
      invariant smallest.None? ==> forall k: nat | k < i :: !ChildValid(runs, index, k)
      invariant smallest.Some? ==> smallest.value < i && ChildValid(runs, index, smallest.value)
      invariant smallest.Some? ==> forall k: nat | k < i && ChildValid(runs, index, k) ::
                  Leq(runs[smallest.value][index[smallest.value]].key, runs[k][index[k]].key)
    {
      if ChildValid(runs, index, i) {
        if smallest.None? || Less(runs[i][index[i]].key, runs[smallest.value][index[smallest.value]].key) {
          smallest := Some(i);
        }
      }
    }
  }

  /** The last child with the largest key. */
  method FindLargest(runs: seq<seq<Entry>>, index: seq<int>) returns (largest: Option<nat>)
    requires |index| == |runs|
    ensures IsLargest(runs, index, largest)
  {
    largest := None;
    for i := |runs| downto 0
      invariant largest.None? ==> forall k: nat | i <= k < |runs| :: !ChildValid(runs, index, k)
      invariant largest.Some? ==> i <= largest.value < |runs| && ChildValid(runs, index, largest.value)
      invariant largest.Some? ==> forall k: nat | i <= k < |runs| && ChildValid(runs, index, k) ::
                  Leq(runs[k][index[k]].key, runs[largest.value][index[largest.value]].key)
    {
      if ChildValid(runs, index, i) {
        if largest.None? || Less(runs[largest.value][index[largest.value]].key, runs[i][index[i]].key) {
          largest := Some(i);
        }
      }
    }
  }

  /** `current` is the child standing on entry `at` of the union, and there is none when there is no such entry. */
  ghost predicate StandsOn(runs: seq<seq<Entry>>, index: seq<int>, current: Option<nat>, all: seq<Entry>, at: int)
    requires |index| == |runs|
  {
    if 0 <= at < |all| then current.Some? && current.value < |runs| && ChildValid(runs, index, current.value)
                            && runs[current.value][index[current.value]] == all[at]
    else current.None?
  }

  lemma SmallestIsNext(runs: seq<seq<Entry>>, index: seq<int>, all: seq<Entry>, p: nat, smallest: Option<nat>)
    requires AllSorted(runs) && IsUnion(all, runs) && AllCut(runs, index, true, all, p)
    requires IsSmallest(runs, index, smallest)
    ensures StandsOn(runs, index, smallest, all, p)
  {
    if smallest.Some? {
      var m := smallest.value;
      assert CutAt(runs[m], index[m], all, p);
      var i := AfterCut(runs[m], index[m], all, p, index[m]);
    }
    if p < |all| {
      var k := HeadAfterCut(runs, index, all, p);
      assert ChildValid(runs, index, k);
    }
  }

  lemma LargestIsPrevious(runs: seq<seq<Entry>>, index: seq<int>, all: seq<Entry>, p: nat, largest: Option<nat>)
    requires AllSorted(runs) && IsUnion(all, runs) && AllCut(runs, index, false, all, p)
    requires IsLargest(runs, index, largest)
    ensures StandsOn(runs, index, largest, all, p - 1)
  {
    if largest.Some? {
      var m := largest.value;
      assert CutAt(runs[m], index[m] + 1, all, p);
      var i := BeforeCut(runs[m], index[m] + 1, all, p, index[m]);
    }
    if 0 < p {
      var k := HeadBeforeCut(runs, index, all, p);
      assert ChildValid(runs, index, k);
    }
  }

  // ---- Turning a child round ----

  /** Place a child after `key`, the key of the union's entry `p`. */
  method PlaceAfter(s: seq<Entry>, key: IKey, ghost all: seq<Entry>, ghost p: nat) returns (n: nat)
    requires Sorted(s) && Sorted(all) && p < |all| && all[p].key == key && forall x | x in s :: x in all
    ensures CutAt(s, n, all, p + 1)
  {
    n := SeekRun(s, key);
    OwnPosition(all, p);
    SeekCuts(s, n, all, p, key);
    if n < |s| && key == s[n].key {
      ghost var i := AfterCut(s, n, all, p, n);
      CutOver(s, n, all, p);
      n := n + 1;
    } else {
      NotAt(s, n, all, p);
    }
  }

  lemma NotAt(s: seq<Entry>, n: nat, all: seq<Entry>, p: nat)
    requires Sorted(s) && Sorted(all) && p < |all| && CutAt(s, n, all, p) && (n < |s| ==> s[n].key != all[p].key)
    requires forall x | x in s :: x in all
    ensures CutAt(s, n, all, p + 1)
  {
    if n < |s| {
      var i := AfterCut(s, n, all, p, n);
    }
  }

  /** Place a child on its last entry before `key`. */
  method PlaceBefore(s: seq<Entry>, key: IKey, ghost all: seq<Entry>, ghost p: nat) returns (n: int)
    requires Sorted(s) && Sorted(all) && p < |all| && all[p].key == key
    ensures CutAt(s, n + 1, all, p)
  {
    n := SeekRun(s, key);
    OwnPosition(all, p);
    SeekCuts(s, n, all, p, key);
    if n < |s| {
      n := n - 1;
    } else {
      n := |s| - 1;
    }
  }

  /** Every child but the current one goes after `key`. */
  method TurnForward(runs: seq<seq<Entry>>, index: seq<int>, c: nat, key: IKey, ghost all: seq<Entry>, ghost p: nat)
    returns (r: seq<int>)
    requires AllSorted(runs) && IsUnion(all, runs) && |index| == |runs| && c < |runs| && p < |all| && all[p].key == key
    requires CutAt(runs[c], index[c] + 1, all, p + 1)
    ensures |r| == |runs| && r[c] == index[c]
    ensures forall k | 0 <= k < |runs| :: CutAt(runs[k], if k == c then r[k] + 1 else r[k], all, p + 1)
  {
    r := index;
    for i := 0 to |runs|
      invariant |r| == |runs| && r[c] == index[c]
      invariant forall k | 0 <= k < i && k != c :: CutAt(runs[k], r[k], all, p + 1)
    {
      if i != c {
        var n := PlaceAfter(runs[i], key, all, p);
        r := r[i := n];
      }
    }
  }

  /** Every child but the current one goes before `key`. */
  method TurnBack(runs: seq<seq<Entry>>, index: seq<int>, c: nat, key: IKey, ghost all: seq<Entry>, ghost p: nat)
    returns (r: seq<int>)
    requires AllSorted(runs) && IsUnion(all, runs) && |index| == |runs| && c < |runs| && p < |all| && all[p].key == key
    requires CutAt(runs[c], index[c], all, p)
    ensures |r| == |runs| && r[c] == index[c]
    ensures forall k | 0 <= k < |runs| :: CutAt(runs[k], if k == c then r[k] else r[k] + 1, all, p)
  {
    r := index;
    for i := 0 to |runs|
      invariant |r| == |runs| && r[c] == index[c]
      invariant forall k | 0 <= k < i && k != c :: CutAt(runs[k], r[k] + 1, all, p)
    {
      if i != c {
        var n := PlaceBefore(runs[i], key, all, p);
        r := r[i := n];
      }
    }
  }

  /** Step the current child `c` over the union's entry `p`, the others placed after it first if need be. */
  method StepForward(runs: seq<seq<Entry>>, index: seq<int>, c: nat, forward: bool, ghost all: seq<Entry>, ghost p: nat)
    returns (r: seq<int>)
    requires Merge(all, runs) && p < |all| && |index| == |runs|
             && Placed(runs, index, forward, all, if forward then p else p + 1, |runs|)
    requires c < |runs| && ChildValid(runs, index, c) && runs[c][index[c]] == all[p]
    ensures AllCut(runs, r, true, all, p + 1)
  {
    Merges(all, runs);
    PlacedAll(runs, index, forward, all, if forward then p else p + 1);
    r := index;
    if !forward {
      r := TurnForward(runs, index, c, runs[c][index[c]].key, all, p);
    } else {
      OthersPast(runs, index, c, all, p);
    }
    r := r[c := r[c] + 1];
  }

  /** Step the current child `c` back from the union's entry `p`, the others placed before it first if need be. */
  method StepBack(runs: seq<seq<Entry>>, index: seq<int>, c: nat, forward: bool, ghost all: seq<Entry>, ghost p: nat)
    returns (r: seq<int>)
    requires AllSorted(runs) && DistinctRuns(runs) && IsUnion(all, runs) && p < |all|
    requires AllCut(runs, index, forward, all, if forward then p else p + 1)
    requires c < |runs| && ChildValid(runs, index, c) && runs[c][index[c]] == all[p]
    ensures AllCut(runs, r, false, all, p)
  {
    r := index;
    if forward {
      r := TurnBack(runs, index, c, runs[c][index[c]].key, all, p);
    } else {
      OthersUnder(runs, index, c, all, p);
    }
    r := r[c := r[c] - 1];
  }

  /** The child standing right after the cut. */
  method ChooseSmallest(runs: seq<seq<Entry>>, index: seq<int>, ghost all: seq<Entry>, ghost p: nat)
    returns (current: Option<nat>)
    requires Merge(all, runs) && AllCut(runs, index, true, all, p)
    ensures StandsOn(runs, index, current, all, p) && Placed(runs, index, true, all, p, |runs|)
  {
    Merges(all, runs);
    AllPlaced(runs, index, true, all, p, |runs|);
    current := FindSmallest(runs, index);
    SmallestIsNext(runs, index, all, p, current);
  }

  /** The child standing right before the cut. */
  method ChooseLargest(runs: seq<seq<Entry>>, index: seq<int>, ghost all: seq<Entry>, ghost p: nat)
    returns (current: Option<nat>)
    requires Merge(all, runs) && AllCut(runs, index, false, all, p)
    ensures StandsOn(runs, index, current, all, p - 1) && Placed(runs, index, false, all, p, |runs|)
  {
    Merges(all, runs);
    AllPlaced(runs, index, false, all, p, |runs|);
    current := FindLargest(runs, index);
    LargestIsPrevious(runs, index, all, p, current);
  }

  /** Seek every child. */
  method SeekAll(runs: seq<seq<Entry>>, target: IKey, ghost all: seq<Entry>, ghost p: nat) returns (index: seq<int>)
    requires Merge(all, runs) && SeekPosition(all, target, p)
    ensures AllCut(runs, index, true, all, p)
  {
    Merges(all, runs);
    index := [];
    for i := 0 to |runs|
      invariant |index| == i
      invariant forall k | 0 <= k < i :: CutAt(runs[k], index[k], all, p)
    {
      var n := SeekRun(runs[i], target);
      SeekCuts(runs[i], n, all, p, target);
      index := index + [n];
    }
  }

  method Advance(runs: seq<seq<Entry>>, index: seq<int>, c: nat, forward: bool, ghost all: seq<Entry>, ghost p: nat)
    returns (index': seq<int>, current: Option<nat>)
    requires Merge(all, runs) && p < |all| && |index| == |runs|
             && Placed(runs, index, forward, all, if forward then p else p + 1, |runs|)
    requires c < |runs| && ChildValid(runs, index, c) && runs[c][index[c]] == all[p]
    ensures |index'| == |runs| && StandsOn(runs, index', current, all, p + 1)
            && Placed(runs, index', true, all, p + 1, |runs|)
  {
    index' := StepForward(runs, index, c, forward, all, p);
    current := ChooseSmallest(runs, index', all, p + 1);
  }

  method Retreat(runs: seq<seq<Entry>>, index: seq<int>, c: nat, forward: bool, ghost all: seq<Entry>, ghost p: nat)
    returns (index': seq<int>, current: Option<nat>)
    requires Merge(all, runs) && p < |all| && |index| == |runs|
             && Placed(runs, index, forward, all, if forward then p else p + 1, |runs|)
    requires c < |runs| && ChildValid(runs, index, c) && runs[c][index[c]] == all[p]
    ensures |index'| == |runs| && StandsOn(runs, index', current, all, p - 1)
            && Placed(runs, index', false, all, p, |runs|)
  {
    Merges(all, runs);
    PlacedAll(runs, index, forward, all, if forward then p else p + 1);
    index' := StepBack(runs, index, c, forward, all, p);
    current := ChooseLargest(runs, index', all, p);
  }

  class MergingIterator {
    const runs: seq<seq<Entry>>
    var index: seq<int>
    var current: Option<nat>
    var forward: bool

    ghost const all: seq<Entry>
    ghost var at: int       // the position in `all`

    ghost predicate Valid()
      reads this
    {
      && Merge(all, runs) && |index| == |runs|
      && StandsOn(runs, index, current, all, at)
      && (current.Some? ==> Placed(runs, index, forward, all, if forward then at else at + 1, |runs|))
    }

    constructor (runs: seq<seq<Entry>>)
      requires AllSorted(runs) && DistinctRuns(runs)
      ensures Valid() && this.runs == runs && current.None?
    {
      this.runs := runs;
      index := seq(|runs|, _ => -1);
      current := None;
      forward := true;
      RunsSeparate(runs, |runs|);
      ghost var union := UnionExists(runs, |runs|);
      all := union;
      at := -1;
    }

    function Current(): (e: Entry)
      requires Valid() && current.Some?
      reads this
      ensures 0 <= at < |all| && e == all[at]
    {
      runs[current.value][index[current.value]]
    }

    method SeekToFirst()
      requires Valid()
      modifies this
      ensures Valid() && at == 0
    {
      index := seq(|runs|, _ => 0);
      current := ChooseSmallest(runs, index, all, 0);
      forward := true;
      at := 0;
    }

    method SeekToLast()
      requires Valid()
      modifies this
      ensures Valid() && at == |all| - 1
    {
      index := seq(|runs|, k requires 0 <= k < |runs| => |runs[k]| - 1);
      current := ChooseLargest(runs, index, all, |all|);
      forward := false;
      at := |all| - 1;
    }

    method Seek(target: IKey)
      requires Valid()
      modifies this
      ensures Valid() && at >= 0 && SeekPosition(all, target, at)
    {
      ghost var p := SeekExists(all, target);
      index := SeekAll(runs, target, all, p);
      current := ChooseSmallest(runs, index, all, p);
      forward := true;
      at := p;
    }

    method Next()
      requires Valid() && current.Some?
      modifies this
      ensures Valid() && at == old(at) + 1
    {
      index, current := Advance(runs, index, current.value, forward, all, at);
      forward, at := true, at + 1;
    }

    method Prev()
      requires Valid() && current.Some?
      modifies this
      ensures Valid() && at == old(at) - 1
    {
      index, current := Retreat(runs, index, current.value, forward, all, at);
      forward, at := false, at - 1;
    }
  }

  /** Going forward, a cut before the current entry is a cut after it, once the current child has stepped over it. */
  lemma OthersPast(runs: seq<seq<Entry>>, index: seq<int>, c: nat, all: seq<Entry>, p: nat)
    requires AllSorted(runs) && DistinctRuns(runs) && IsUnion(all, runs) && AllCut(runs, index, true, all, p)
             && p < |all|
    requires c < |runs| && ChildValid(runs, index, c) && runs[c][index[c]] == all[p]
    ensures forall k | 0 <= k < |runs| :: CutAt(runs[k], if k == c then index[k] + 1 else index[k], all, p + 1)
  {
    forall k | 0 <= k < |runs| ensures CutAt(runs[k], if k == c then index[k] + 1 else index[k], all, p + 1) {
      OnePast(runs, index, c, all, p, k);
    }
  }

  lemma OnePast(runs: seq<seq<Entry>>, index: seq<int>, c: nat, all: seq<Entry>, p: nat, k: nat)
    requires AllSorted(runs) && DistinctRuns(runs) && IsUnion(all, runs) && AllCut(runs, index, true, all, p)
             && p < |all|
    requires c < |runs| && ChildValid(runs, index, c) && runs[c][index[c]] == all[p] && k < |runs|
    ensures CutAt(runs[k], if k == c then index[k] + 1 else index[k], all, p + 1)
  {
    assert CutAt(runs[k], index[k], all, p);
    if k == c {
      CutOver(runs[k], index[k], all, p);
    } else {
      assert all[p] in runs[c];
      CutPast(runs[k], index[k], all, p);
    }
  }

  lemma OthersUnder(runs: seq<seq<Entry>>, index: seq<int>, c: nat, all: seq<Entry>, p: nat)
    requires AllSorted(runs) && DistinctRuns(runs) && IsUnion(all, runs) && AllCut(runs, index, false, all, p + 1)
             && p < |all|
    requires c < |runs| && ChildValid(runs, index, c) && runs[c][index[c]] == all[p]
    ensures forall k | 0 <= k < |runs| :: CutAt(runs[k], if k == c then index[k] else index[k] + 1, all, p)
  {
    forall k | 0 <= k < |runs| ensures CutAt(runs[k], if k == c then index[k] else index[k] + 1, all, p) {
      OneUnder(runs, index, c, all, p, k);
    }
  }

  lemma OneUnder(runs: seq<seq<Entry>>, index: seq<int>, c: nat, all: seq<Entry>, p: nat, k: nat)
    requires AllSorted(runs) && DistinctRuns(runs) && IsUnion(all, runs) && AllCut(runs, index, false, all, p + 1)
             && p < |all|
    requires c < |runs| && ChildValid(runs, index, c) && runs[c][index[c]] == all[p] && k < |runs|
    ensures CutAt(runs[k], if k == c then index[k] else index[k] + 1, all, p)
  {
    assert CutAt(runs[k], index[k] + 1, all, p + 1);
    if k == c {
      CutUnder(runs[k], index[k] + 1, all, p + 1);
    } else {
      assert all[p] in runs[c];
      CutShort(runs[k], index[k] + 1, all, p);
    }
  }

  lemma CutShort(s: seq<Entry>, n: int, all: seq<Entry>, p: nat)
    requires Sorted(s) && Sorted(all) && p < |all| && CutAt(s, n, all, p + 1) && forall x | x in s ::
             x.key != all[p].key
    requires forall x | x in s :: x in all
    ensures CutAt(s, n, all, p)
  {
    if 0 < n {
      var i := BeforeCut(s, n, all, p + 1, n - 1);
    }
  }
}
