/** One shard of the block cache: a hash table, two lists and reference counts (util/cache.cc). */
module LruCache {
  import opened DbFormat

  /** A key and its hash. */
  type Name = (Bytes, nat)

  /** `deleted` counts the calls of the entry's deleter. */
  datatype Handle = Handle(name: Name, charge: nat, inCache: bool, refs: nat, deleted: nat)

  // ---- Lists ----

  /** The list without an entry. */
  function Removing(l: seq<nat>, e: nat): seq<nat> {
    if l == [] then []
    else if l[|l| - 1] == e then Removing(l[..|l| - 1], e)
    else Removing(l[..|l| - 1], e) + [l[|l| - 1]]
  }

  ghost predicate NoRepeats(l: seq<nat>) {
    forall i, j | 0 <= i < j < |l| :: l[i] != l[j]
  }

  lemma {:induction false} RemovingMember(l: seq<nat>, e: nat, x: nat)
    ensures x in Removing(l, e) <==> x in l && x != e
  {
    if l != [] {
      RemovingMember(l[..|l| - 1], e, x);
    }
  }

  lemma {:induction false} RemovingNoRepeats(l: seq<nat>, e: nat)
    requires NoRepeats(l)
    ensures NoRepeats(Removing(l, e))
  {
    if l != [] {
      var init, last := l[..|l| - 1], l[|l| - 1];
      RemovingNoRepeats(init, e);
      var w := Removing(init, e);
      forall i | 0 <= i < |w| ensures w[i] != last {
        RemovingMember(init, e, w[i]);
        var j :| 0 <= j < |init| && init[j] == w[i];
        assert l[j] == w[i];
      }
    }
  }

  lemma {:induction false} RemovingNothing(l: seq<nat>, e: nat)
    requires e !in l
    ensures Removing(l, e) == l
  {
    if l != [] {
      RemovingNothing(l[..|l| - 1], e);
    }
  }

  ghost predicate Below(l: seq<nat>, n: nat) {
    forall i | 0 <= i < |l| :: l[i] < n
  }

  /** The summed charge of the entries of a list. */
  function Charge(handles: seq<Handle>, l: seq<nat>): nat
    requires Below(l, |handles|)
  {
    if l == [] then 0 else Charge(handles, l[..|l| - 1]) + handles[l[|l| - 1]].charge
  }

  lemma {:induction false} ChargeStays(handles: seq<Handle>, handles': seq<Handle>, l: seq<nat>)
    requires Below(l, |handles|) && Below(l, |handles'|) && forall i | 0 <= i < |l| ::
             handles'[l[i]].charge == handles[l[i]].charge
    ensures Charge(handles', l) == Charge(handles, l)
  {
    if l != [] {
      ChargeStays(handles, handles', l[..|l| - 1]);
    }
  }

  lemma RemovingBelow(l: seq<nat>, e: nat, n: nat)
    requires Below(l, n)
    ensures Below(Removing(l, e), n)
  {
    var w := Removing(l, e);
    forall i | 0 <= i < |w| ensures w[i] < n {
      RemovingMember(l, e, w[i]);
    }
  }

  lemma {:induction false} ChargeRemoving(handles: seq<Handle>, l: seq<nat>, e: nat)
    requires Below(l, |handles|) && NoRepeats(l) && e in l
    ensures Below(Removing(l, e), |handles|)
    ensures Charge(handles, Removing(l, e)) == Charge(handles, l) - handles[e].charge
  {
    RemovingBelow(l, e, |handles|);
    var init, last := l[..|l| - 1], l[|l| - 1];
    if last == e {
      assert e !in init;
      RemovingNothing(init, e);
    } else {
      assert e in init;
      ChargeRemoving(handles, init, e);
      assert Removing(l, e)[..|Removing(l, e)| - 1] == Removing(init, e);
    }
  }

  // ---- Entries, lists and usage ----

  datatype Lists = Lists(handles: seq<Handle>, lru: seq<nat>, inUse: seq<nat>, usage: int)

  /** `clients[h]` is the number of references clients hold on entry `h`.  The count includes the cache's own
      reference; the deleter has run, once, if and only if the count is zero; lru holds the cached entries that only
      the cache refers to and in-use the other cached entries. */
  ghost predicate EntryOk(s: Lists, clients: seq<nat>, h: nat)
    requires h < |s.handles| && h < |clients|
  {
    var e := s.handles[h];
    && e.refs == clients[h] + (if e.inCache then 1 else 0)
    && e.deleted == (if e.refs == 0 then 1 else 0)
    && (h in s.lru <==> e.inCache && clients[h] == 0)
    && (h in s.inUse <==> e.inCache && clients[h] > 0)
  }

  ghost predicate UsageOk(s: Lists) {
    && Below(s.lru, |s.handles|) && Below(s.inUse, |s.handles|) && NoRepeats(s.lru) && NoRepeats(s.inUse)
    && s.usage == Charge(s.handles, s.lru) + Charge(s.handles, s.inUse)
  }

  ghost predicate ListsOk(s: Lists, clients: seq<nat>) {
    |clients| == |s.handles| && UsageOk(s) && forall h: nat | h < |clients| :: EntryOk(s, clients, h)
  }

  ghost function Cached(s: Lists): set<nat> {
    set h: nat | h < |s.handles| && s.handles[h].inCache
  }

  function RefOf(s: Lists, e: nat): Lists
    requires e < |s.handles|
  {
    var h := s.handles[e];
    var s' := if h.refs == 1 && h.inCache then s.(lru := Removing(s.lru, e), inUse := s.inUse + [e]) else s;
    s'.(handles := s.handles[e := h.(refs := h.refs + 1)])
  }

  function UnrefOf(s: Lists, e: nat): Lists
    requires e < |s.handles| && s.handles[e].refs > 0
  {
    var h := s.handles[e];
    var h' := h.(refs := h.refs - 1, deleted := if h.refs == 1 then h.deleted + 1 else h.deleted);
    var s' := if h'.refs > 0 && h.inCache && h'.refs == 1 then s.(inUse := Removing(s.inUse, e), lru := s.lru + [e])
              else s;
    s'.(handles := s.handles[e := h'])
  }

  /** FinishErase on a cached entry already out of the hash table. */
  function EraseOf(s: Lists, e: nat): Lists
    requires e < |s.handles| && s.handles[e].refs > 0
  {
    var h := s.handles[e];
    UnrefOf(s.(lru := Removing(s.lru, e), inUse := Removing(s.inUse, e),
        handles := s.handles[e := h.(inCache := false)], usage := s.usage - h.charge), e)
  }

  lemma RefKeeps(s: Lists, clients: seq<nat>, e: nat)
    requires ListsOk(s, clients) && e < |s.handles| && s.handles[e].inCache
    ensures ListsOk(RefOf(s, e), clients[e := clients[e] + 1]) && Cached(RefOf(s, e)) == Cached(s)
  {
    var s', c := RefOf(s, e), clients[e := clients[e] + 1];
    assert EntryOk(s, clients, e);
    RefUsage(s, e);
    forall h: nat | h < |c| ensures EntryOk(s', c, h) {
      assert EntryOk(s, clients, h);
      RemovingMember(s.lru, e, h);
    }
  }

  lemma RefUsage(s: Lists, e: nat)
    requires UsageOk(s) && e < |s.handles| && (s.handles[e].refs == 1 && s.handles[e].inCache ==>
               e in s.lru && e !in s.inUse)
    ensures UsageOk(RefOf(s, e))
  {
    var s' := RefOf(s, e);
    if s.handles[e].refs == 1 && s.handles[e].inCache {
      MoveList(s.handles, s.lru, s.inUse, e);
    }
    ChargeStays(s.handles, s'.handles, s'.lru);
    ChargeStays(s.handles, s'.handles, s'.inUse);
  }

  /** A client gives a reference back. */
  lemma ReleaseKeeps(s: Lists, clients: seq<nat>, e: nat)
    requires ListsOk(s, clients) && e < |s.handles| && clients[e] > 0
    ensures s.handles[e].refs > 0 && ListsOk(UnrefOf(s, e), clients[e := clients[e] - 1])
            && Cached(UnrefOf(s, e)) == Cached(s)
  {
    assert EntryOk(s, clients, e);
    var s', c := UnrefOf(s, e), clients[e := clients[e] - 1];
    UnrefUsage(s, e);
    forall h: nat | h < |c| ensures EntryOk(s', c, h) {
      assert EntryOk(s, clients, h);
      RemovingMember(s.inUse, e, h);
    }
  }

  lemma UnrefUsage(s: Lists, e: nat)
    requires UsageOk(s) && e < |s.handles| && s.handles[e].refs > 0
    requires s.handles[e].refs == 2 && s.handles[e].inCache ==> e in s.inUse && e !in s.lru
    ensures UsageOk(UnrefOf(s, e))
  {
    var s' := UnrefOf(s, e);
    if s.handles[e].refs == 2 && s.handles[e].inCache {
      MoveList(s.handles, s.inUse, s.lru, e);
    }
    ChargeStays(s.handles, s'.handles, s'.lru);
    ChargeStays(s.handles, s'.handles, s'.inUse);
  }

  /** The cache lets go of an entry: no list holds it, and it is freed at once if no client holds it. */
  lemma EraseKeeps(s: Lists, clients: seq<nat>, e: nat)
    requires ListsOk(s, clients) && e < |s.handles| && s.handles[e].inCache
    ensures s.handles[e].refs > 0 && ListsOk(EraseOf(s, e), clients) && Cached(EraseOf(s, e)) == Cached(s) - {e}
    ensures EraseOf(s, e).lru == Removing(s.lru, e)
  {
    assert EntryOk(s, clients, e);
    var s' := EraseOf(s, e);
    EraseUsage(s, e);
    forall h: nat | h < |clients| ensures EntryOk(s', clients, h) {
      assert EntryOk(s, clients, h);
      RemovingMember(s.lru, e, h);
      RemovingMember(s.inUse, e, h);
    }
  }

  lemma EraseUsage(s: Lists, e: nat)
    requires UsageOk(s) && e < |s.handles| && s.handles[e].refs > 0
             && ((e in s.lru && e !in s.inUse) || (e in s.inUse && e !in s.lru))
    ensures UsageOk(EraseOf(s, e))
  {
    var s' := EraseOf(s, e);
    RemovingNoRepeats(s.lru, e);
    RemovingNoRepeats(s.inUse, e);
    if e in s.lru {
      ChargeRemoving(s.handles, s.lru, e);
      RemovingNothing(s.inUse, e);
    } else {
      ChargeRemoving(s.handles, s.inUse, e);
      RemovingNothing(s.lru, e);
    }
    ChargeStays(s.handles, s'.handles, s'.lru);
    ChargeStays(s.handles, s'.handles, s'.inUse);
  }

  /** A new entry, cached and held by the caller. */
  function AddOf(s: Lists, name: Name, charge: nat): Lists {
    Lists(s.handles + [Handle(name, charge, true, 2, 0)], s.lru, s.inUse + [|s.handles|], s.usage + charge)
  }

  /** A new entry that is not cached. */
  function LooseOf(s: Lists, name: Name, charge: nat): Lists {
    s.(handles := s.handles + [Handle(name, charge, false, 1, 0)])
  }

  lemma AddKeeps(s: Lists, clients: seq<nat>, name: Name, charge: nat)
    requires ListsOk(s, clients)
    ensures ListsOk(AddOf(s, name, charge), clients + [1])
    ensures Cached(AddOf(s, name, charge)) == Cached(s) + {|s.handles|}
  {
    var s', c := AddOf(s, name, charge), clients + [1];
    AddUsage(s, name, charge);
    forall h: nat | h < |c| ensures EntryOk(s', c, h) {
      AddEntryOk(s, clients, name, charge, h);
    }
  }

  lemma AddUsage(s: Lists, name: Name, charge: nat)
    requires UsageOk(s)
    ensures UsageOk(AddOf(s, name, charge))
  {
    var s' := AddOf(s, name, charge);
    ChargeStays(s.handles, s'.handles, s.lru);
    ChargeStays(s.handles, s'.handles, s.inUse);
    assert s'.inUse[..|s.inUse|] == s.inUse;
  }

  lemma AddEntryOk(s: Lists, clients: seq<nat>, name: Name, charge: nat, h: nat)
    requires ListsOk(s, clients) && h <= |clients|
    ensures EntryOk(AddOf(s, name, charge), clients + [1], h)
  {
    if h < |clients| {
      assert EntryOk(s, clients, h);
    }
  }

  lemma LooseKeeps(s: Lists, clients: seq<nat>, name: Name, charge: nat)
    requires ListsOk(s, clients)
    ensures ListsOk(LooseOf(s, name, charge), clients + [1]) && Cached(LooseOf(s, name, charge)) == Cached(s)
  {
    var s', c := LooseOf(s, name, charge), clients + [1];
    ChargeStays(s.handles, s'.handles, s.lru);
    ChargeStays(s.handles, s'.handles, s.inUse);
    forall h: nat | h < |c| ensures EntryOk(s', c, h) {
      if h < |clients| {
        assert EntryOk(s, clients, h);
      }
    }
  }

  /** Moving an entry from one list to the end of the other. */
  lemma MoveList(handles: seq<Handle>, from: seq<nat>, to: seq<nat>, e: nat)
    requires Below(from, |handles|) && Below(to, |handles|)
    requires NoRepeats(from) && NoRepeats(to) && e in from && e !in to
    ensures NoRepeats(Removing(from, e)) && NoRepeats(to + [e])
    ensures Below(Removing(from, e), |handles|) && Below(to + [e], |handles|) && forall h ::
            h in Removing(from, e) <==> h in from && h != e
    ensures Charge(handles, Removing(from, e)) + Charge(handles, to + [e]) ==
            Charge(handles, from) + Charge(handles, to)
  {
    RemovingNoRepeats(from, e);
    forall h ensures h in Removing(from, e) <==> h in from && h != e {
      RemovingMember(from, e, h);
    }
    ChargeRemoving(handles, from, e);
    assert (to + [e])[..|to|] == to;
  }

  // ---- The hash table ----

  /** A chain of bucket `b` of `n`: entries that hash there, with different names. */
  ghost predicate ChainOk(handles: seq<Handle>, chain: seq<nat>, b: nat, n: nat)
    requires n > 0
  {
    && (forall i | 0 <= i < |chain| :: chain[i] < |handles| && handles[chain[i]].name.1 % n == b)
    && (forall i, j | 0 <= i < j < |chain| :: handles[chain[i]].name != handles[chain[j]].name)
  }

  ghost predicate TableOk(handles: seq<Handle>, list: seq<seq<nat>>) {
    |list| > 0 && forall b: nat | b < |list| :: ChainOk(handles, list[b], b, |list|)
  }

  /** The entry is in its bucket. */
  ghost predicate Holds(handles: seq<Handle>, list: seq<seq<nat>>, x: nat)
    requires |list| > 0
  {
    x < |handles| && x in list[handles[x].name.1 % |list|]
  }

  /** The table holds exactly these entries. */
  ghost predicate HoldsSet(handles: seq<Handle>, list: seq<seq<nat>>, ids: set<nat>) {
    TableOk(handles, list) && forall x: nat :: Holds(handles, list, x) <==> x in ids
  }

  lemma NamesDiffer(handles: seq<Handle>, list: seq<seq<nat>>, x: nat, y: nat)
    requires TableOk(handles, list) && Holds(handles, list, x) && Holds(handles, list, y)
             && handles[x].name == handles[y].name
    ensures x == y
  {
    var b := handles[x].name.1 % |list|;
    assert ChainOk(handles, list[b], b, |list|);
    var i :| 0 <= i < |list[b]| && list[b][i] == x;
    var j :| 0 <= j < |list[b]| && list[b][j] == y;
  }

  lemma InItsBucket(handles: seq<Handle>, list: seq<seq<nat>>, b: nat, x: nat)
    requires TableOk(handles, list) && b < |list| && x in list[b]
    ensures Holds(handles, list, x) && handles[x].name.1 % |list| == b
  {
    assert ChainOk(handles, list[b], b, |list|);
  }

  /** FindPointer: the place of the entry with that name in a chain, or the end of the chain. */
  method FindPointer(handles: seq<Handle>, chain: seq<nat>, name: Name) returns (i: nat)
    requires Below(chain, |handles|)
    ensures i <= |chain| && (i < |chain| ==> handles[chain[i]].name == name)
    ensures forall j | 0 <= j < i :: handles[chain[j]].name != name
  {
    i := 0;
    while i < |chain| && handles[chain[i]].name != name
      invariant i <= |chain| && forall j | 0 <= j < i :: handles[chain[j]].name != name
    {
      i := i + 1;
    }
  }

  /** A chain replaced by one that is in order. */
  lemma NewChain(handles: seq<Handle>, list: seq<seq<nat>>, b: nat, chain: seq<nat>)
    requires TableOk(handles, list) && b < |list| && ChainOk(handles, chain, b, |list|)
    ensures TableOk(handles, list[b := chain])
    ensures forall x: nat :: Holds(handles, list[b := chain], x) <==>
              x < |handles| && if handles[x].name.1 % |list| == b then x in chain else Holds(handles, list, x)
  {
    var list' := list[b := chain];
    forall c: nat | c < |list'| ensures ChainOk(handles, list'[c], c, |list'|) {
      assert ChainOk(handles, list[c], c, |list|);
    }
  }

  /** The table depends on names only. */
  lemma TableStays(handles: seq<Handle>, handles': seq<Handle>, list: seq<seq<nat>>, ids: set<nat>)
    requires HoldsSet(handles, list, ids) && |handles| <= |handles'| && forall h | 0 <= h < |handles| ::
             handles'[h].name == handles[h].name
    ensures HoldsSet(handles', list, ids)
  {
    forall b: nat | b < |list| ensures ChainOk(handles', list[b], b, |list|) {
      assert ChainOk(handles, list[b], b, |list|);
    }
    forall x: nat ensures Holds(handles', list, x) <==> Holds(handles, list, x) {
      if x >= |handles| && x < |handles'| {
        var b := handles'[x].name.1 % |list|;
        assert ChainOk(handles, list[b], b, |list|);
      }
    }
  }

  lemma Pushed(handles: seq<Handle>, list: seq<seq<nat>>, h: nat, ids: set<nat>)
    requires HoldsSet(handles, list, ids) && h < |handles| && forall x | x in ids ::
             x < |handles| && handles[x].name != handles[h].name
    ensures var b := handles[h].name.1 % |list|; HoldsSet(handles, list[b := [h] + list[b]], ids + {h})
  {
    var b := handles[h].name.1 % |list|;
    var chain := [h] + list[b];
    assert ChainOk(handles, list[b], b, |list|);
    forall j | 0 <= j < |list[b]| ensures handles[list[b][j]].name != handles[h].name {
      InItsBucket(handles, list, b, list[b][j]);
    }
    NewChain(handles, list, b, chain);
    forall x: nat ensures Holds(handles, list[b := chain], x) <==> x in ids + {h} {
      assert Holds(handles, list, x) <==> x in ids;
    }
  }

  lemma Appended(handles: seq<Handle>, list: seq<seq<nat>>, h: nat, ids: set<nat>)
    requires HoldsSet(handles, list, ids) && h < |handles|
    requires var chain := list[handles[h].name.1 % |list|];
             forall j | 0 <= j < |chain| :: chain[j] < |handles| && handles[chain[j]].name != handles[h].name
    ensures var b := handles[h].name.1 % |list|; HoldsSet(handles, list[b := list[b] + [h]], ids + {h})
  {
    var b := handles[h].name.1 % |list|;
    assert ChainOk(handles, list[b], b, |list|);
    NewChain(handles, list, b, list[b] + [h]);
    forall x: nat ensures Holds(handles, list[b := list[b] + [h]], x) <==> x in ids + {h} {
      assert Holds(handles, list, x) <==> x in ids;
    }
  }

  function Put(chain: seq<nat>, i: nat, h: nat): seq<nat>
    requires i < |chain|
  {
    chain[..i] + [h] + chain[i + 1..]
  }

  lemma Replaced(handles: seq<Handle>, list: seq<seq<nat>>, b: nat, i: nat, h: nat, ids: set<nat>)
    requires HoldsSet(handles, list, ids) && h < |handles| && b < |list| && i < |list[b]|
    requires list[b][i] < |handles| && handles[list[b][i]].name == handles[h].name
    ensures HoldsSet(handles, list[b := Put(list[b], i, h)], ids - {list[b][i]} + {h})
  {
    var chain := list[b];
    assert ChainOk(handles, chain, b, |list|);
    NewChain(handles, list, b, Put(chain, i, h));
    forall x: nat ensures Holds(handles, list[b := Put(chain, i, h)], x) <==> x in ids - {chain[i]} + {h} {
      assert Holds(handles, list, x) <==> x in ids;
      OneReplaced(chain, i, h, x);
    }
  }

  lemma OneReplaced(chain: seq<nat>, i: nat, h: nat, x: nat)
    requires i < |chain|
    ensures x in Put(chain, i, h) ==> x == h || x in chain[..i] || x in chain[i + 1..]
    ensures x == h || x in chain[..i] || x in chain[i + 1..] ==> x in Put(chain, i, h)
    ensures x in chain <==> x in chain[..i] || x == chain[i] || x in chain[i + 1..]
  {
    assert chain == chain[..i] + [chain[i]] + chain[i + 1..];
  }

  lemma Removed(handles: seq<Handle>, list: seq<seq<nat>>, b: nat, i: nat, ids: set<nat>)
    requires HoldsSet(handles, list, ids) && b < |list| && i < |list[b]|
    ensures HoldsSet(handles, list[b := list[b][..i] + list[b][i + 1..]], ids - {list[b][i]})
  {
    var chain := list[b];
    var chain' := chain[..i] + chain[i + 1..];
    assert ChainOk(handles, chain, b, |list|);
    NewChain(handles, list, b, chain');
    assert chain == chain[..i] + [chain[i]] + chain[i + 1..];
    forall x: nat ensures Holds(handles, list[b := chain'], x) <==> x in ids - {chain[i]} {
      assert Holds(handles, list, x) <==> x in ids;
    }
  }

  ghost function Minus(ids: set<nat>, r: Option<nat>): set<nat> {
    if r.Some? then ids - {r.value} else ids
  }

  class HandleTable {
    var list: seq<seq<nat>>
    var elems: nat
    ghost var ids: set<nat>

    ghost predicate Valid(handles: seq<Handle>)
      reads this
    {
      HoldsSet(handles, list, ids) && elems == |ids| <= |list|
    }

    constructor ()
      ensures Valid([]) && ids == {}
    {
      list := [[], [], [], []];
      elems := 0;
      ids := {};
    }

    method Lookup(handles: seq<Handle>, name: Name) returns (r: Option<nat>)
      requires Valid(handles)
      ensures r.Some? ==> r.value in ids && r.value < |handles| && handles[r.value].name == name
      ensures r.None? ==> forall x | x in ids :: x < |handles| && handles[x].name != name
    {
      var b := name.1 % |list|;
      assert ChainOk(handles, list[b], b, |list|);
      var i := FindPointer(handles, list[b], name);
      r := if i < |list[b]| then Some(list[b][i]) else None;
      if i < |list[b]| {
        InItsBucket(handles, list, b, list[b][i]);
      } else {
        NoSuchName(handles, list, ids, name);
      }
    }

    /** Insert an entry; the one of the same name, if any, is replaced and returned. */
    method Insert(handles: seq<Handle>, h: nat) returns (displaced: Option<nat>)
      requires Valid(handles) && h < |handles| && h !in ids
      modifies this
      ensures Valid(handles) && ids == Minus(old(ids), displaced) + {h}
      ensures displaced.Some? ==> displaced.value in old(ids) && displaced.value < |handles|
                                  && handles[displaced.value].name == handles[h].name
      ensures displaced.None? ==> forall x | x in old(ids) :: x < |handles| && handles[x].name != handles[h].name
    {
      var name := handles[h].name;
      var b := name.1 % |list|;
      assert ChainOk(handles, list[b], b, |list|);
      var i := FindPointer(handles, list[b], name);
      if i < |list[b]| {
        displaced := Some(list[b][i]);
        ReplaceAt(handles, b, i, h);
      } else {
        displaced := None;
        NoSuchName(handles, list, ids, name);
        Append(handles, b, h);
      }
    }

    method ReplaceAt(handles: seq<Handle>, b: nat, i: nat, h: nat)
      requires Valid(handles) && h < |handles| && h !in ids && b < |list| && i < |list[b]|
      requires list[b][i] < |handles| && handles[list[b][i]].name == handles[h].name
      modifies this
      ensures Valid(handles) && old(list[b][i]) in old(ids) && ids == old(ids) - {old(list[b][i])} + {h}
    {
      InItsBucket(handles, list, b, list[b][i]);
      Replaced(handles, list, b, i, h, ids);
      ids := ids - {list[b][i]} + {h};
      list := list[b := Put(list[b], i, h)];
    }

    method Append(handles: seq<Handle>, b: nat, h: nat)
      requires Valid(handles) && h < |handles| && h !in ids && b == handles[h].name.1 % |list|
      requires forall j | 0 <= j < |list[b]| :: list[b][j] < |handles| && handles[list[b][j]].name != handles[h].name
      modifies this
      ensures Valid(handles) && ids == old(ids) + {h}
    {
      Appended(handles, list, h, ids);
      ids := ids + {h};
      list := list[b := list[b] + [h]];
      elems := elems + 1;
      if elems > |list| {
        Resize(handles);
      }
    }

    method Remove(handles: seq<Handle>, name: Name) returns (r: Option<nat>)
      requires Valid(handles)
      modifies this
      ensures Valid(handles) && ids == Minus(old(ids), r)
      ensures r.Some? ==> r.value in old(ids) && r.value < |handles| && handles[r.value].name == name
      ensures r.None? ==> forall x | x in old(ids) :: x < |handles| && handles[x].name != name
    {
      var b := name.1 % |list|;
      assert ChainOk(handles, list[b], b, |list|);
      var i := FindPointer(handles, list[b], name);
      if i < |list[b]| {
        r := Some(list[b][i]);
        InItsBucket(handles, list, b, list[b][i]);
        Removed(handles, list, b, i, ids);
        ids := ids - {list[b][i]};
        list := list[b := list[b][..i] + list[b][i + 1..]];
        elems := elems - 1;
      } else {
        r := None;
        NoSuchName(handles, list, ids, name);
      }
    }

    /** Move every entry to a table at least as long as the number of entries. */
    method Resize(handles: seq<Handle>)
      requires HoldsSet(handles, list, ids) && elems == |ids|
      modifies this`list
      ensures Valid(handles)
    {
      var n := 4;
      while n < elems
        invariant n >= 4
      {
        n := n * 2;
      }
      list := Rehash(handles, list, n, ids);
    }
  }

  /** Entries keep their names and charges. */
  ghost predicate Stay(hs: seq<Handle>, hs': seq<Handle>) {
    |hs| <= |hs'| && forall h: nat | h < |hs| :: Same(hs, hs', h)
  }

  ghost predicate Same(hs: seq<Handle>, hs': seq<Handle>, h: nat)
    requires h < |hs| <= |hs'|
  {
    hs'[h].name == hs[h].name && hs'[h].charge == hs[h].charge
  }

  /** The charge of an entry, if there is one. */
  ghost function ChargeOf(hs: seq<Handle>, e: Option<nat>): nat {
    if e.Some? && e.value < |hs| then hs[e.value].charge else 0
  }

  ghost function Dropping(l: seq<nat>, e: Option<nat>): seq<nat> {
    if e.Some? then Removing(l, e.value) else l
  }

  lemma StayOn(a: seq<Handle>, b: seq<Handle>, c: seq<Handle>)
    requires Stay(a, b) && Stay(b, c)
    ensures Stay(a, c)
  {
    forall h: nat | h < |a| ensures Same(a, c, h) {
      assert Same(a, b, h) && Same(b, c, h);
    }
  }

  lemma RefLists(s: Lists, clients: seq<nat>, e: nat)
    requires ListsOk(s, clients) && e < |s.handles| && s.handles[e].inCache
    ensures RefOf(s, e).lru == Removing(s.lru, e) && RefOf(s, e).usage == s.usage
    ensures Stay(s.handles, RefOf(s, e).handles) && |RefOf(s, e).handles| == |s.handles|
  {
    assert EntryOk(s, clients, e);
    if e !in s.lru {
      RemovingNothing(s.lru, e);
    }
  }

  lemma ReleaseLists(s: Lists, clients: seq<nat>, e: nat)
    requires ListsOk(s, clients) && e < |s.handles| && clients[e] > 0
    ensures s.handles[e].refs > 0 && UnrefOf(s, e).usage == s.usage
    ensures UnrefOf(s, e).lru == s.lru + if e in Cached(s) && clients[e] == 1 then [e] else []
    ensures Stay(s.handles, UnrefOf(s, e).handles) && |UnrefOf(s, e).handles| == |s.handles|
  {
    assert EntryOk(s, clients, e);
  }

  /** The cached entry of a name. */
  ghost predicate IsCached(s: Lists, name: Name, h: nat) {
    h in Cached(s) && s.handles[h].name == name
  }

  class LRUCache {
    const capacity: nat
    const table: HandleTable
    var handles: seq<Handle>
    var lru: seq<nat>       // oldest first
    var inUse: seq<nat>
    var usage: int
    ghost var clients: seq<nat>

    function S(): Lists
      reads this
    {
      Lists(handles, lru, inUse, usage)
    }

    /** The lists, counts and usage agree, and the table holds exactly the cached entries. */
    ghost predicate Agree(s: Lists)
      reads this, table
    {
      ListsOk(s, clients) && table.Valid(s.handles) && table.ids == Cached(s)
    }

    /** Quantified, so that it unfolds only where a proof asks for `Agree`. */
    ghost predicate Valid()
      reads this, table
    {
      |clients| == |handles| && forall s: Lists | s == S() :: Agree(s)
    }

    constructor (capacity: nat)
      ensures Valid() && fresh(table) && this.capacity == capacity && handles == []
    {
      this.capacity := capacity;
      table := new HandleTable();
      handles, lru, inUse, usage, clients := [], [], [], 0, [];
    }

    method Set(s: Lists)
      modifies this`handles, this`lru, this`inUse, this`usage
      ensures S() == s
    {
      handles, lru, inUse, usage := s.handles, s.lru, s.inUse, s.usage;
    }

    /** A hit is the cached entry of that name, one more reference held on it. */
    method Lookup(name: Name) returns (r: Option<nat>)
      requires Valid()
      modifies this, table
      ensures Valid() && Cached(S()) == old(Cached(S())) && usage == old(usage)
      ensures Stay(old(handles), handles) && |handles| == |old(handles)| && lru == Dropping(old(lru), r)
      ensures r.Some? ==> IsCached(S(), name, r.value) && clients == old(clients)[r.value := old(clients)[r.value] + 1]
      ensures r.None? ==> S() == old(S()) && clients == old(clients) && forall h :: !IsCached(S(), name, h)
    {
      assert Agree(S());
      r := table.Lookup(handles, name);
      if r.Some? {
        ghost var before := handles;
        Ref(r.value);
        assert Same(before, handles, r.value);
      }
    }

    /** One reference more on a cached entry, which is now in use. */
    method Ref(h: nat)
      requires Valid() && h < |handles| && handles[h].inCache
      modifies this
      ensures Valid() && Cached(S()) == old(Cached(S())) && usage == old(usage)
              && clients == old(clients)[h := old(clients)[h] + 1]
      ensures Stay(old(handles), handles) && |handles| == |old(handles)| && lru == Removing(old(lru), h)
    {
      assert Agree(S());
      ghost var s := S();
      RefLists(s, clients, h);
      RefKeeps(S(), clients, h);
      Set(RefOf(S(), h));
      clients := clients[h := clients[h] + 1];
      TableStays(s.handles, handles, table.list, table.ids);
    }

    /** A client gives back a reference it holds; a cached entry no other client holds becomes the newest to evict. */
    method Release(h: nat)
      requires Valid() && h < |handles| && clients[h] > 0
      modifies this
      ensures Valid() && Cached(S()) == old(Cached(S())) && usage == old(usage)
              && clients == old(clients)[h := old(clients)[h] - 1]
      ensures Stay(old(handles), handles) && |handles| == |old(handles)|
      ensures lru == old(lru) + if h in old(Cached(S())) && old(clients)[h] == 1 then [h] else []
    {
      assert Agree(S());
      ghost var s := S();
      ReleaseLists(s, clients, h);
      ReleaseKeeps(S(), clients, h);
      Set(UnrefOf(S(), h));
      clients := clients[h := clients[h] - 1];
      TableStays(s.handles, handles, table.list, table.ids);
    }

    /** Finish removing an entry that the table no longer holds. */
    method FinishErase(e: Option<nat>)
      requires ListsOk(S(), clients) && table.Valid(handles) && table.ids == Minus(Cached(S()), e)
               && (e.Some? ==> e.value in Cached(S()))
      modifies this
      ensures Valid() && clients == old(clients) && Cached(S()) == Minus(old(Cached(S())), e)
              && S() == Erased(old(S()), e)
      ensures Stay(old(handles), handles) && |handles| == |old(handles)| && lru == Dropping(old(lru), e)
              && usage == old(usage) - ChargeOf(old(handles), e)
    {
      if e.Some? {
        ghost var s := S();
        ErasedLists(s, clients, e.value);
        EraseKeeps(s, clients, e.value);
        EraseNames(s, e.value);
        TableStays(s.handles, EraseOf(s, e.value).handles, table.list, table.ids);
        Set(EraseOf(S(), e.value));
      }
    }

    method Erase(name: Name) returns (ghost e: Option<nat>)
      requires Valid()
      modifies this, table
      ensures Valid() && clients == old(clients) && Cached(S()) == Minus(old(Cached(S())), e)
      ensures Stay(old(handles), handles) && |handles| == |old(handles)| && lru == Dropping(old(lru), e)
              && usage == old(usage) - ChargeOf(old(handles), e)
      ensures if e.Some? then old(IsCached(S(), name, e.value)) else forall h :: !old(IsCached(S(), name, h))
    {
      assert Agree(S());
      var r := table.Remove(handles, name);
      e := r;
      FinishErase(r);
    }

    /** Drop the oldest entry that no client holds. */
    method EvictOldest()
      requires Valid() && lru != []
      modifies this, table
      ensures Valid() && clients == old(clients) && lru == old(lru)[1..] && |handles| == |old(handles)|
              && Stay(old(handles), handles)
      ensures Cached(S()) == old(Cached(S())) - {old(lru)[0]}
      ensures usage == old(usage) - ChargeOf(old(handles), Some(old(lru[0])))
    {
      var h := lru[0];
      assert Agree(S());
      assert EntryOk(S(), clients, h);
      ghost var list := table.list;
      var r := table.Remove(handles, handles[h].name);
      assert Holds(handles, list, h);
      if r.Some? {
        assert Holds(handles, list, r.value);
        NamesDiffer(handles, list, h, r.value);
      }
      RemovingFirst(lru);
      ErasedLists(S(), clients, h);
      FinishErase(r);
    }

    /** A new entry held by the caller; it replaces the cached entry of its name, and the oldest entries no client
        holds make room. */
    method Insert(name: Name, charge: nat) returns (h: nat, ghost displaced: Option<nat>, ghost evicted: seq<nat>)
      requires Valid()
      modifies this, table
      ensures Valid() && h == |old(handles)| && clients == old(clients) + [1]
      ensures Stay(old(handles), handles) && |handles| == h + 1
      ensures handles[h].name == name && handles[h].charge == charge
      ensures usage <= capacity || lru == []
      ensures Below(evicted, h) && usage == old(usage) - ChargeOf(old(handles), displaced)
                                            + (if capacity > 0 then charge else 0) - Charge(old(handles), evicted)
      ensures evicted != [] ==> usage + old(handles)[evicted[|evicted| - 1]].charge > capacity
      ensures old(usage) + charge <= capacity ==> evicted == []
      ensures capacity == 0 ==> displaced.None?
      ensures capacity > 0 ==> if displaced.Some? then old(IsCached(S(), name, displaced.value))
                                                       else forall x :: !old(IsCached(S(), name, x))
      ensures evicted + lru == if displaced.Some? then Removing(old(lru), displaced.value) else old(lru)
      ensures Cached(S()) == Minus(old(Cached(S())), displaced) + (if capacity > 0 then {h} else {}) - Members(evicted)
    {
      h := |handles|;
      LruBelow();
      ghost var before := handles;
      displaced := Enter(name, charge);
      ghost var entered := handles;
      evicted := Evict(capacity);
      ListBelow(evicted, lru, Dropping(old(lru), displaced), old(lru), displaced, h);
      ChargesStay(before, entered, handles, evicted, h);
      Enough(entered, evicted);
    }

    lemma LruBelow()
      requires Valid()
      ensures Below(lru, |handles|)
    {
      assert Agree(S());
    }

    /** Insert but for making room. */
    method Enter(name: Name, charge: nat) returns (ghost displaced: Option<nat>)
      requires Valid()
      modifies this, table
      ensures Valid() && clients == old(clients) + [1]
      ensures Entered(old(handles), handles, name, charge)
      ensures usage == old(usage) - ChargeOf(old(handles), displaced) + if capacity > 0 then charge else 0
      ensures capacity == 0 ==> displaced.None?
      ensures capacity > 0 ==> if displaced.Some? then old(IsCached(S(), name, displaced.value))
                               else forall x :: !old(IsCached(S(), name, x))
      ensures lru == if displaced.Some? then Removing(old(lru), displaced.value) else old(lru)
      ensures Cached(S()) == Minus(old(Cached(S())), displaced) + (if capacity > 0 then {|old(handles)|} else {})
    {
      if capacity > 0 {
        displaced := AddEntry(name, charge);
      } else {
        LooseEntry(name, charge);
        displaced := None;
      }
    }

    /** An entry that is not cached. */
    method LooseEntry(name: Name, charge: nat)
      requires Valid()
      modifies this
      ensures Valid() && clients == old(clients) + [1] && Entered(old(handles), handles, name, charge)
      ensures Cached(S()) == old(Cached(S())) && lru == old(lru) && usage == old(usage)
    {
      assert Agree(S());
      ghost var s, s' := S(), LooseOf(S(), name, charge);
      LooseKeeps(s, clients, name, charge);
      TableStays(s.handles, s'.handles, table.list, table.ids);
      Set(LooseOf(S(), name, charge));
      assert S() == s';
      clients := clients + [1];
    }

    /** The cached part of Insert. */
    method AddEntry(name: Name, charge: nat) returns (ghost displaced: Option<nat>)
      requires Valid()
      modifies this, table
      ensures Valid() && clients == old(clients) + [1] && Entered(old(handles), handles, name, charge)
      ensures usage == old(usage) - ChargeOf(old(handles), displaced) + charge
      ensures if displaced.Some? then old(IsCached(S(), name, displaced.value))
                                      else forall x :: !old(IsCached(S(), name, x))
      ensures Cached(S()) == Minus(old(Cached(S())), displaced) + {|old(handles)|}
      ensures lru == if displaced.Some? then Removing(old(lru), displaced.value) else old(lru)
    {
      NewEntry(name, charge);
      ghost var n, before := |handles| - 1, table.ids;
      var r := table.Insert(handles, |handles| - 1);
      displaced := r;
      MinusAdd(before, n, r);
      ghost var old1, old2 := old(handles), handles;
      WasCached(old(S()), handles, name, r);
      FinishErase(r);
      EnteredStays(old1, old2, handles, name, charge, r);
    }

    /** The entry itself, in the in-use list but not yet in the table. */
    method NewEntry(name: Name, charge: nat)
      requires Valid()
      modifies this
      ensures ListsOk(S(), clients) && table.Valid(handles) && table.ids == old(Cached(S()))
              && Cached(S()) == old(Cached(S())) + {|old(handles)|}
      ensures clients == old(clients) + [1] && lru == old(lru) && usage == old(usage) + charge
      ensures Entered(old(handles), handles, name, charge)
    {
      assert Agree(S());
      ghost var s, s' := S(), AddOf(S(), name, charge);
      AddKeeps(s, clients, name, charge);
      TableStays(s.handles, s'.handles, table.list, table.ids);
      Set(AddOf(S(), name, charge));
      assert S() == s';
      clients := clients + [1];
    }

    /** Evict, oldest first, while the cache is over the limit. */
    method Evict(limit: int) returns (ghost evicted: seq<nat>)
      requires Valid()
      modifies this, table
      ensures Valid() && clients == old(clients) && evicted + lru == old(lru) && (usage <= limit || lru == [])
      ensures Cached(S()) == old(Cached(S())) - Members(evicted)
      ensures Stay(old(handles), handles) && |handles| == |old(handles)| && Below(evicted, |handles|)
              && usage == old(usage) - Charge(old(handles), evicted)
      ensures evicted != [] ==> usage + old(handles)[evicted[|evicted| - 1]].charge > limit
    {
      LruBelow();
      ghost var k := 0;
      while usage > limit && lru != []
        invariant Valid() && clients == old(clients) && k <= |old(lru)| && lru == old(lru)[k..]
        invariant Cached(S()) == old(Cached(S())) - Members(old(lru)[..k])
        invariant Stay(old(handles), handles) && |handles| == |old(handles)| && Below(old(lru), |handles|)
                  && usage == old(usage) - Charge(old(handles), old(lru)[..k])
        invariant k > 0 ==> usage + old(handles)[old(lru)[k - 1]].charge > limit
        decreases |lru|
      {
        ghost var before := handles;
        EvictOldest();
        EvictedNext(old(lru), k, lru, old(Cached(S())));
        EvictedCharge(old(handles), before, handles, old(lru), k);
        k := k + 1;
      }
      evicted := old(lru)[..k];
      Rejoin(old(lru), k);
    }

    /** Drop every entry that no client holds. */
    method Prune()
      requires Valid()
      modifies this, table
      ensures Valid() && clients == old(clients) && lru == [] && Cached(S()) == old(Cached(S())) - Members(old(lru))
    {
      ghost var evicted := Evict(-1);
      assert Agree(S());
      NoNegativeUsage(S());
      assert evicted + [] == evicted;
    }
  }

  /** One new entry of that name and charge. */
  ghost predicate Entered(hs: seq<Handle>, hs': seq<Handle>, name: Name, charge: nat) {
    Stay(hs, hs') && |hs'| == |hs| + 1 && hs'[|hs|].name == name && hs'[|hs|].charge == charge
  }

  /** What the table says of names, of the entries cached before. */
  lemma WasCached(s: Lists, hs: seq<Handle>, name: Name, r: Option<nat>)
    requires Stay(s.handles, hs)
    requires r.Some? ==> r.value in Cached(s) && hs[r.value].name == name
    requires r.None? ==> forall x | x in Cached(s) :: x < |hs| && hs[x].name != name
    ensures if r.Some? then IsCached(s, name, r.value) else forall x :: !IsCached(s, name, x)
  {
    forall x: nat | x in Cached(s) ensures hs[x].name == s.handles[x].name {
      assert Same(s.handles, hs, x);
    }
  }

  lemma EnteredStays(a: seq<Handle>, b: seq<Handle>, c: seq<Handle>, name: Name, charge: nat, e: Option<nat>)
    requires Entered(a, b, name, charge) && Stay(b, c) && |c| == |b|
    ensures Entered(a, c, name, charge) && (e.Some? && e.value < |a| ==> ChargeOf(b, e) == ChargeOf(a, e))
  {
    StayOn(a, b, c);
    assert Same(b, c, |a|);
    if e.Some? && e.value < |a| {
      assert Same(a, b, e.value);
    }
  }

  lemma EvictedCharge(a: seq<Handle>, b: seq<Handle>, c: seq<Handle>, l: seq<nat>, k: nat)
    requires Stay(a, b) && Stay(b, c) && Below(l, |a|) && k < |l|
    ensures Stay(a, c) && b[l[k]].charge == a[l[k]].charge
    ensures Charge(a, l[..k + 1]) == Charge(a, l[..k]) + a[l[k]].charge
  {
    StayOn(a, b, c);
    assert Same(a, b, l[k]) && l[..k + 1][..k] == l[..k];
  }

  lemma ChargesStay(a: seq<Handle>, b: seq<Handle>, c: seq<Handle>, l: seq<nat>, n: nat)
    requires Stay(a, b) && Stay(b, c) && |a| == n && Below(l, n)
    ensures Stay(a, c) && Charge(b, l) == Charge(a, l)
    ensures l != [] ==> b[l[|l| - 1]].charge == a[l[|l| - 1]].charge
    ensures n < |b| ==> Same(b, c, n)
  {
    StayOn(a, b, c);
    forall i | 0 <= i < |l| ensures b[l[i]].charge == a[l[i]].charge {
      assert Same(a, b, l[i]);
    }
    ChargeStays(a, b, l);
    if n < |b| {
      assert Same(b, c, n);
    }
  }

  lemma ListBelow(a: seq<nat>, b: seq<nat>, whole: seq<nat>, l: seq<nat>, e: Option<nat>, n: nat)
    requires a + b == whole == Dropping(l, e) && Below(l, n)
    ensures Below(a, n)
  {
    if e.Some? {
      RemovingBelow(l, e.value, n);
    }
    forall i | 0 <= i < |a| ensures a[i] < n {
      assert a[i] == whole[i];
    }
  }

  lemma Enough(hs: seq<Handle>, l: seq<nat>)
    requires Below(l, |hs|)
    ensures l != [] ==> Charge(hs, l) >= hs[l[|l| - 1]].charge
  {
  }

  ghost function Members(l: seq<nat>): set<nat> {
    set x | x in l
  }

  /** Taking one more off the front. */
  lemma EvictedNext(l: seq<nat>, k: nat, rest: seq<nat>, ids: set<nat>)
    requires k < |l| && rest == l[k..][1..]
    ensures rest == l[k + 1..] && ids - Members(l[..k]) - {l[k..][0]} == ids - Members(l[..k + 1])
  {
    MembersNext(l, k);
  }

  lemma MembersNext(l: seq<nat>, k: nat)
    requires k < |l|
    ensures Members(l[..k + 1]) == Members(l[..k]) + {l[k]}
  {
    assert l[..k + 1] == l[..k] + [l[k]];
  }

  lemma NoNegativeUsage(s: Lists)
    requires UsageOk(s)
    ensures s.usage >= 0
  {
  }

  lemma MinusAdd(ids: set<nat>, n: nat, r: Option<nat>)
    requires n !in ids && (r.Some? ==> r.value in ids)
    ensures Minus(ids, r) + {n} == Minus(ids + {n}, r)
  {
  }

  lemma {:induction false} RemovingFirst(l: seq<nat>)
    requires l != [] && NoRepeats(l)
    ensures Removing(l, l[0]) == l[1..]
    decreases |l|
  {
    var init, last := l[..|l| - 1], l[|l| - 1];
    if |l| == 1 {
      assert Removing(init, l[0]) == [];
    } else {
      RemovingFirst(init);
      assert init[1..] + [last] == l[1..];
    }
  }

  lemma EraseNames(s: Lists, e: nat)
    requires e < |s.handles| && s.handles[e].refs > 0
    ensures var hs := EraseOf(s, e).handles; |hs| == |s.handles| && forall h | 0 <= h < |hs| ::
                                             hs[h].name == s.handles[h].name
  {
  }

  lemma Rejoin(l: seq<nat>, k: nat)
    requires k <= |l|
    ensures l[..k] + l[k..] == l
  {
  }

  /** FinishErase as the source has it, nothing for no entry. */
  function Erased(s: Lists, e: Option<nat>): Lists {
    if e.Some? && e.value < |s.handles| && s.handles[e.value].refs > 0 then EraseOf(s, e.value) else s
  }

  lemma ErasedLists(s: Lists, clients: seq<nat>, e: nat)
    requires ListsOk(s, clients) && e < |s.handles| && s.handles[e].inCache
    ensures var s' := Erased(s, Some(e)); s'.lru == Removing(s.lru, e) && s'.usage == s.usage - s.handles[e].charge
                                          && |s'.handles| == |s.handles|
  {
    assert EntryOk(s, clients, e);
  }

  lemma NoSuchName(handles: seq<Handle>, list: seq<seq<nat>>, ids: set<nat>, name: Name)
    requires HoldsSet(handles, list, ids)
    requires var chain := list[name.1 % |list|]; forall j | 0 <= j < |chain| ::
                                                 chain[j] < |handles| && handles[chain[j]].name != name
    ensures forall x | x in ids :: x < |handles| && handles[x].name != name
  {
    forall x | x in ids ensures x < |handles| && handles[x].name != name {
      assert Holds(handles, list, x);
    }
  }

  /** Every entry of the old buckets pushed onto its new bucket. */
  method Rehash(handles: seq<Handle>, list: seq<seq<nat>>, n: nat, ghost ids: set<nat>) returns (r: seq<seq<nat>>)
    requires HoldsSet(handles, list, ids) && n > 0
    ensures |r| == n && HoldsSet(handles, r, ids)
  {
    r := seq(n, _ => []);
    ghost var done: set<nat> := {};
    for b := 0 to |list|
      invariant |r| == n && HoldsSet(handles, r, done)
      invariant forall x: nat :: x in done <==> x in ids && x < |handles| && handles[x].name.1 % |list| < b
    {
      assert ChainOk(handles, list[b], b, |list|);
      ghost var before := done;
      for i := 0 to |list[b]|
        invariant |r| == n && HoldsSet(handles, r, done)
        invariant forall x: nat :: x in done <==> x in before || x in list[b][..i]
      {
        var h := list[b][i];
        PushNext(handles, list, ids, b, i, done);
        Pushed(handles, r, h, done);
        var c := handles[h].name.1 % n;
        r := r[c := [h] + r[c]];
        done := done + {h};
        assert list[b][..i + 1] == list[b][..i] + [h];
      }
      assert list[b][..|list[b]|] == list[b];
      BucketDone(handles, list, ids, b, before, done);
    }
    AllDone(handles, list, ids, done);
  }

  /** The next entry of a bucket has a name of its own. */
  lemma PushNext(handles: seq<Handle>, list: seq<seq<nat>>, ids: set<nat>, b: nat, i: nat, done: set<nat>)
    requires HoldsSet(handles, list, ids) && b < |list| && i < |list[b]|
    requires forall x | x in done :: (x in ids && x < |handles| && handles[x].name.1 % |list| < b) || x in list[b][..i]
    ensures list[b][i] < |handles| && forall x | x in done :: x < |handles|
                                                              && handles[x].name != handles[list[b][i]].name
  {
    assert ChainOk(handles, list[b], b, |list|);
  }

  lemma BucketDone(handles: seq<Handle>, list: seq<seq<nat>>, ids: set<nat>, b: nat, before: set<nat>, done: set<nat>)
    requires HoldsSet(handles, list, ids) && b < |list|
    requires forall x: nat :: x in before <==> x in ids && x < |handles| && handles[x].name.1 % |list| < b
    requires forall x: nat :: x in done <==> x in before || x in list[b]
    ensures forall x: nat :: x in done <==> x in ids && x < |handles| && handles[x].name.1 % |list| < b + 1
  {
    forall x: nat ensures x in done <==> x in ids && x < |handles| && handles[x].name.1 % |list| < b + 1 {
      assert Holds(handles, list, x) <==> x in ids;
      if x in list[b] {
        InItsBucket(handles, list, b, x);
      }
    }
  }

  lemma AllDone(handles: seq<Handle>, list: seq<seq<nat>>, ids: set<nat>, done: set<nat>)
    requires HoldsSet(handles, list, ids)
    requires forall x: nat :: x in done <==> x in ids && x < |handles| && handles[x].name.1 % |list| < |list|
    ensures done == ids
  {
    forall x ensures x in done <==> x in ids {
      assert Holds(handles, list, x) <==> x in ids;
    }
  }
}
