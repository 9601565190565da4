/** The memtable's skip list: one writer, any number of readers, no locks (db/skiplist.h). */
module SkipList {
  import opened DbFormat

  /** A key's position in the comparator's order, as for user keys. */
  type Key = real

  const MAX_HEIGHT: nat := 12

  /** Pointers are indices into the arena; node 0 is the head, whose key is never looked at. */
  datatype Node = Node(key: Key, next: seq<Option<nat>>)

  type Arena = seq<Node>

  // ---- What the pointers mean ----

  predicate After(nodes: Arena, a: nat, b: nat)
    requires a < |nodes| && b < |nodes|
  {
    a == 0 || nodes[a].key < nodes[b].key
  }

  /** The nodes are in the arena and tall enough for level `i`. */
  ghost predicate LevelWithin(nodes: Arena, level: set<nat>, i: nat) {
    forall a | a in level :: 0 < a < |nodes| && i < |nodes[a].next|
  }

  /** `r` is the first node of the level after `a`. */
  ghost predicate IsNext(nodes: Arena, level: set<nat>, a: nat, r: Option<nat>)
    requires a < |nodes| && forall b | b in level :: b < |nodes|
  {
    match r
    case None => forall b | b in level :: !After(nodes, a, b)
    case Some(c) => c in level && After(nodes, a, c) && forall b | b in level && After(nodes, a, b) ::
        nodes[c].key <= nodes[b].key
  }

  ghost predicate DistinctKeys(nodes: Arena, level: set<nat>)
    requires forall b | b in level :: b < |nodes|
  {
    forall a, b | a in level && b in level && nodes[a].key == nodes[b].key :: a == b
  }

  /** From the head and from each node of the level, the pointer leads to the next node of the level. */
  ghost predicate Linked(nodes: Arena, level: set<nat>, i: nat) {
    && |nodes| > 0 && i < |nodes[0].next| && LevelWithin(nodes, level, i) && DistinctKeys(nodes, level)
    && forall a | a == 0 || a in level :: IsNext(nodes, level, a, nodes[a].next[i])
  }

  /** Every level is linked and is part of the level below. */
  ghost predicate Ok(nodes: Arena, levels: seq<set<nat>>) {
    && |levels| == MAX_HEIGHT && |nodes| > 0 && |nodes[0].next| == MAX_HEIGHT
    && (forall i: nat | i < MAX_HEIGHT :: Linked(nodes, levels[i], i))
    && (forall i: nat | i + 1 < MAX_HEIGHT :: levels[i + 1] <= levels[i])
  }

  lemma {:induction false} HigherIsPart(levels: seq<set<nat>>, i: nat, j: nat)
    requires |levels| == MAX_HEIGHT && (forall i: nat | i + 1 < MAX_HEIGHT :: levels[i + 1] <= levels[i])
             && i <= j < MAX_HEIGHT
    ensures levels[j] <= levels[i]
  {
    if i < j {
      HigherIsPart(levels, i, j - 1);
      assert levels[j - 1 + 1] <= levels[j - 1];
    }
  }

  // ---- Following the pointers ----

  /** The nodes of a level after `a`. */
  ghost function Behind(nodes: Arena, level: set<nat>, a: nat): set<nat>
    requires a < |nodes| && forall b | b in level :: b < |nodes|
  {
    set b | b in level && After(nodes, a, b)
  }

  lemma NextIsNearer(nodes: Arena, level: set<nat>, i: nat, a: nat)
    requires Linked(nodes, level, i) && (a == 0 || a in level) && nodes[a].next[i].Some?
    ensures var c := nodes[a].next[i].value; c in level && Behind(nodes, level, a) == {c} + Behind(nodes, level, c)
                                             && c !in Behind(nodes, level, c)
  {
    var c := nodes[a].next[i].value;
    assert IsNext(nodes, level, a, Some(c));
    forall b | b in level ensures After(nodes, a, b) <==> b == c || After(nodes, c, b) {
      if After(nodes, a, b) && nodes[c].key == nodes[b].key {
        assert b == c;
      }
    }
  }

  /** The chain of pointers from `a` on. */
  ghost function Chain(nodes: Arena, level: set<nat>, i: nat, a: nat): seq<nat>
    requires Linked(nodes, level, i) && (a == 0 || a in level)
    decreases Behind(nodes, level, a)
  {
    match nodes[a].next[i]
    case None => []
    case Some(c) =>
      NextIsNearer(nodes, level, i, a);
      [c] + Chain(nodes, level, i, c)
  }

  /** Following the pointers from `a` visits the nodes after it, all of them. */
  lemma {:induction false} ChainMember(nodes: Arena, level: set<nat>, i: nat, a: nat, b: nat)
    requires Linked(nodes, level, i) && (a == 0 || a in level)
    ensures b in Chain(nodes, level, i, a) <==> b in Behind(nodes, level, a)
    decreases Behind(nodes, level, a)
  {
    assert IsNext(nodes, level, a, nodes[a].next[i]);
    if nodes[a].next[i].Some? {
      NextIsNearer(nodes, level, i, a);
      ChainMember(nodes, level, i, nodes[a].next[i].value, b);
    }
  }

  ghost predicate Rising(nodes: Arena, c: seq<nat>) {
    forall p, q | 0 <= p < q < |c| :: c[p] < |nodes| && c[q] < |nodes| && nodes[c[p]].key < nodes[c[q]].key
  }

  /** ... in rising order. */
  lemma {:induction false} ChainRises(nodes: Arena, level: set<nat>, i: nat, a: nat)
    requires Linked(nodes, level, i) && (a == 0 || a in level)
    ensures Rising(nodes, Chain(nodes, level, i, a))
    decreases Behind(nodes, level, a)
  {
    if nodes[a].next[i].Some? {
      var c := nodes[a].next[i].value;
      NextIsNearer(nodes, level, i, a);
      ChainRises(nodes, level, i, c);
      var rest := Chain(nodes, level, i, c);
      forall q | 0 <= q < |rest| ensures rest[q] < |nodes| && nodes[c].key < nodes[rest[q]].key {
        ChainMember(nodes, level, i, c, rest[q]);
      }
    }
  }

  // ---- The writer's stores ----

  /** `p` is the last node of the level, or the head, before a key that the level does not hold. */
  ghost predicate IsPrev(nodes: Arena, level: set<nat>, key: Key, p: nat)
    requires forall b | b in level :: b < |nodes|
  {
    && p < |nodes| && (p == 0 || (p in level && nodes[p].key < key))
    && forall b | b in level && After(nodes, p, b) :: key < nodes[b].key
  }

  function SetNext(nodes: Arena, a: nat, i: nat, r: Option<nat>): Arena
    requires a < |nodes| && i < |nodes[a].next|
  {
    nodes[a := nodes[a].(next := nodes[a].next[i := r])]
  }

  /** A store to a pointer that is not on the level leaves the level as it was. */
  lemma OtherStore(nodes: Arena, level: set<nat>, i: nat, a: nat, j: nat, r: Option<nat>)
    requires Linked(nodes, level, i) && a < |nodes| && j < |nodes[a].next| && (i != j || (a != 0 && a !in level))
    ensures Linked(SetNext(nodes, a, j, r), level, i)
  {
    var nodes' := SetNext(nodes, a, j, r);
    forall b | b == 0 || b in level ensures IsNext(nodes', level, b, nodes'[b].next[i]) {
      assert IsNext(nodes, level, b, nodes[b].next[i]);
    }
  }

  lemma Allocation(nodes: Arena, level: set<nat>, i: nat, n: Node)
    requires Linked(nodes, level, i)
    ensures Linked(nodes + [n], level, i)
  {
    var nodes' := nodes + [n];
    forall b | b == 0 || b in level ensures IsNext(nodes', level, b, nodes'[b].next[i]) {
      assert IsNext(nodes, level, b, nodes[b].next[i]);
    }
  }

  /** Publishing `x` behind its predecessor adds it to the level. */
  lemma Publication(nodes: Arena, level: set<nat>, i: nat, p: nat, x: nat)
    requires Linked(nodes, level, i) && 0 < x < |nodes| && x !in level && i < |nodes[x].next|
    requires IsPrev(nodes, level, nodes[x].key, p) && nodes[x].next[i] == nodes[p].next[i]
    ensures Linked(SetNext(nodes, p, i, Some(x)), level + {x}, i)
  {
    var nodes', level' := SetNext(nodes, p, i, Some(x)), level + {x};
    PublishedKeys(nodes, level, i, p, x);
    forall a | a == 0 || a in level' ensures IsNext(nodes', level', a, nodes'[a].next[i]) {
      assert IsNext(nodes, level, p, nodes[p].next[i]);
      if a == x {
        BehindPublished(nodes, level, i, p, x);
      } else if a == p {
        assert IsNext(nodes, level', p, Some(x));
      } else {
        assert IsNext(nodes, level, a, nodes[a].next[i]);
        BesidePublished(nodes, level, i, p, x, a);
      }
      SameNext(nodes, nodes', level', a, nodes'[a].next[i]);
    }
  }

  /** Only keys matter to which node is next. */
  lemma SameNext(nodes: Arena, nodes': Arena, level: set<nat>, a: nat, r: Option<nat>)
    requires |nodes| == |nodes'| && a < |nodes| && (forall b | b in level :: b < |nodes|)
             && (forall a | 0 <= a < |nodes| :: nodes'[a].key == nodes[a].key)
    requires IsNext(nodes, level, a, r)
    ensures IsNext(nodes', level, a, r)
  {
  }

  lemma PublishedKeys(nodes: Arena, level: set<nat>, i: nat, p: nat, x: nat)
    requires LevelWithin(nodes, level, i) && DistinctKeys(nodes, level) && 0 < x < |nodes|
             && IsPrev(nodes, level, nodes[x].key, p)
    ensures DistinctKeys(nodes, level + {x})
  {
    forall b | b in level ensures nodes[b].key != nodes[x].key {
      assert !After(nodes, p, b) ==> nodes[b].key <= nodes[p].key;
    }
  }

  lemma BehindPublished(nodes: Arena, level: set<nat>, i: nat, p: nat, x: nat)
    requires LevelWithin(nodes, level, i) && 0 < x < |nodes| && x !in level && i < |nodes[x].next|
    requires IsPrev(nodes, level, nodes[x].key, p) && IsNext(nodes, level, p, nodes[x].next[i])
    ensures IsNext(nodes, level + {x}, x, nodes[x].next[i])
  {
    forall b | b in level ensures After(nodes, p, b) <==> After(nodes, x, b) {
    }
  }

  lemma BesidePublished(nodes: Arena, level: set<nat>, i: nat, p: nat, x: nat, a: nat)
    requires LevelWithin(nodes, level, i) && DistinctKeys(nodes, level) && 0 < x < |nodes| && x !in level
             && |nodes[0].next| > i
    requires IsPrev(nodes, level, nodes[x].key, p) && (a == 0 || a in level) && a != p
             && IsNext(nodes, level, a, nodes[a].next[i])
    ensures IsNext(nodes, level + {x}, a, nodes[a].next[i])
  {
    if After(nodes, a, x) {
      assert p in level && After(nodes, a, p);
    }
  }

  // ---- One writer, many readers ----

  datatype Query = AtOrAfter(key: Key) | Before(key: Key) | Last

  /** A reader in FindGreaterOrEqual, FindLessThan or FindLast. */
  datatype Reader = Resting | Walking(q: Query, x: nat, level: nat) | Returned(q: Query, r: Option<nat>)

  /** Where the writer is in Insert. */
  datatype Pc =
    | Idle
    | Raise(key: Key, height: nat, prev: seq<nat>)
    | Allocate(key: Key, height: nat, prev: seq<nat>)
    | Own(x: nat, i: nat, prev: seq<nat>)
    | Publish(x: nat, i: nat, prev: seq<nat>)

  /** `levels` records which nodes have been published at each level. */
  datatype World = World(nodes: Arena, maxHeight: nat, levels: seq<set<nat>>, pc: Pc, readers: seq<Reader>)

  /** What a search of the list as it stands returns. */
  ghost predicate Answers(nodes: Arena, level: set<nat>, q: Query, r: Option<nat>)
    requires forall b | b in level :: b < |nodes|
  {
    match q
    case AtOrAfter(k) => (
      match r
      case None => forall b | b in level :: nodes[b].key < k
      case Some(n) => n in level && k <= nodes[n].key && forall b | b in level && k <= nodes[b].key ::
          nodes[n].key <= nodes[b].key)
    case Before(k) =>
      && r.Some? && (r.value == 0 || (r.value in level && nodes[r.value].key < k))
      && forall b | b in level && nodes[b].key < k :: r.value != 0 && nodes[b].key <= nodes[r.value].key
    case Last =>
      && r.Some? && (r.value == 0 || r.value in level)
      && forall b | b in level :: r.value != 0 && nodes[b].key <= nodes[r.value].key
  }

  predicate Advances(nodes: Arena, q: Query, next: Option<nat>)
    requires next.Some? ==> next.value < |nodes|
  {
    next.Some? && (q.Last? || nodes[next.value].key < q.key)
  }

  /** One turn of a search loop: load a pointer and act on it. */
  function Turn(nodes: Arena, rd: Reader): Reader
    requires rd.Walking? && rd.x < |nodes| && rd.level < |nodes[rd.x].next|
    requires var next := nodes[rd.x].next[rd.level]; next.Some? ==> next.value < |nodes|
  {
    var next := nodes[rd.x].next[rd.level];
    if Advances(nodes, rd.q, next) then rd.(x := next.value)
    else if rd.level > 0 then rd.(level := rd.level - 1)
    else Returned(rd.q, if rd.q.AtOrAfter? then next else Some(rd.x))
  }

  datatype Step =
    | Begin(key: Key, height: nat, prev: seq<nat>)
    | StoreHeight
    | NewNode
    | StoreOwn
    | StorePublished
    | StartRead(r: nat, q: Query)
    | Load(r: nat)

  /** What the pc says still holds of the list. */
  ghost predicate PcOk(w: World)
    requires Ok(w.nodes, w.levels)
  {
    match w.pc
    case Idle => true
    case Raise(key, height, prev) =>
      && 0 < height <= MAX_HEIGHT && |prev| == MAX_HEIGHT
      && (forall i: nat | i < height :: IsPrev(w.nodes, w.levels[i], key, prev[i]))
    case Allocate(key, height, prev) =>
      && 0 < height <= w.maxHeight <= MAX_HEIGHT && |prev| == MAX_HEIGHT
      && (forall i: nat | i < height :: IsPrev(w.nodes, w.levels[i], key, prev[i]))
    case Own(x, i, prev) => LinkingOk(w, x, i, prev)
    case Publish(x, i, prev) => LinkingOk(w, x, i, prev) && w.nodes[x].next[i] == w.nodes[prev[i]].next[i]
  }

  ghost predicate LinkingOk(w: World, x: nat, i: nat, prev: seq<nat>)
    requires Ok(w.nodes, w.levels)
  {
    && 0 < x < |w.nodes| && i < |w.nodes[x].next| <= w.maxHeight && |prev| == MAX_HEIGHT && w.maxHeight <= MAX_HEIGHT
    && (forall j: nat | j < MAX_HEIGHT :: x in w.levels[j] <==> j < i)
    && (forall j: nat | i <= j < |w.nodes[x].next| :: IsPrev(w.nodes, w.levels[j], w.nodes[x].key, prev[j]))
  }

  ghost predicate ReaderOk(nodes: Arena, levels: seq<set<nat>>, rd: Reader)
    requires |levels| == MAX_HEIGHT
  {
    rd.Walking? ==>
      && rd.level < MAX_HEIGHT
      && (rd.x == 0 || (rd.x in levels[rd.level] && rd.x < |nodes| && (rd.q.Last? || nodes[rd.x].key < rd.q.key)))
  }

  ghost predicate Inv(w: World) {
    && Ok(w.nodes, w.levels) && 0 < w.maxHeight <= MAX_HEIGHT
    && (forall i: nat | w.maxHeight <= i < MAX_HEIGHT :: w.levels[i] == {})
    && PcOk(w) && forall r | 0 <= r < |w.readers| :: ReaderOk(w.nodes, w.levels, w.readers[r])
  }

  /** The writer's steps: each changes at most one word that readers may look at. */
  ghost predicate WriterNext(w: World, w': World, step: Step)
    requires Inv(w)
  {
    match step
    case Begin(key, height, prev) =>
      && w.pc.Idle? && 0 < height <= MAX_HEIGHT && |prev| == MAX_HEIGHT
      && (forall i: nat | i < height :: if i < w.maxHeight then IsPrev(w.nodes, w.levels[i], key, prev[i])
                                                                else prev[i] == 0)
      && w' == w.(pc := Raise(key, height, prev))
    case StoreHeight =>
      && w.pc.Raise?
      && w' == w.(maxHeight := if w.pc.height > w.maxHeight then w.pc.height else w.maxHeight,
                  pc := Allocate(w.pc.key, w.pc.height, w.pc.prev))
    case NewNode =>
      && w.pc.Allocate?
      && w' == w.(nodes := w.nodes + [Node(w.pc.key, seq(w.pc.height, _ => None))], pc := Own(|w.nodes|, 0, w.pc.prev))
    case StoreOwn =>
      && w.pc.Own?
      && var x, i, prev := w.pc.x, w.pc.i, w.pc.prev;
         w' == w.(nodes := SetNext(w.nodes, x, i, w.nodes[prev[i]].next[i]), pc := Publish(x, i, prev))
    case StorePublished =>
      && w.pc.Publish?
      && var x, i, prev := w.pc.x, w.pc.i, w.pc.prev;
         w' == w.(nodes := SetNext(w.nodes, prev[i], i, Some(x)), levels := w.levels[i := w.levels[i] + {x}],
                  pc := if i + 1 < |w.nodes[x].next| then Own(x, i + 1, prev) else Idle)
    case StartRead(r, q) => false
    case Load(r) => false
  }

  ghost predicate ReaderNext(w: World, w': World, step: Step)
    requires Inv(w)
  {
    match step
    case StartRead(r, q) => r < |w.readers| && w' == w.(readers := w.readers[r := Walking(q, 0, w.maxHeight - 1)])
    case Load(r) =>
      && r < |w.readers| && w.readers[r].Walking?
      && Loadable(w.nodes, w.readers[r]) && w' == w.(readers := w.readers[r := Turn(w.nodes, w.readers[r])])
    case _ => false
  }

  predicate Loadable(nodes: Arena, rd: Reader)
    requires rd.Walking?
  {
    && rd.x < |nodes| && rd.level < |nodes[rd.x].next|
    && var next := nodes[rd.x].next[rd.level]; next.Some? ==> next.value < |nodes|
  }

  ghost predicate Next(w: World, w': World, step: Step)
    requires Inv(w)
  {
    WriterNext(w, w', step) || ReaderNext(w, w', step)
  }

  // ---- Readers ----

  /** A reader never follows a pointer out of the list. */
  lemma LoadIsSafe(w: World, r: nat)
    requires Inv(w) && r < |w.readers| && w.readers[r].Walking?
    ensures Loadable(w.nodes, w.readers[r])
  {
    var rd := w.readers[r];
    assert ReaderOk(w.nodes, w.levels, rd) && Linked(w.nodes, w.levels[rd.level], rd.level);
    assert IsNext(w.nodes, w.levels[rd.level], rd.x, w.nodes[rd.x].next[rd.level]);
  }

  lemma TurnKeeps(nodes: Arena, levels: seq<set<nat>>, rd: Reader)
    requires Ok(nodes, levels) && rd.Walking? && ReaderOk(nodes, levels, rd) && Loadable(nodes, rd)
    ensures ReaderOk(nodes, levels, Turn(nodes, rd))
  {
    assert Linked(nodes, levels[rd.level], rd.level);
    assert IsNext(nodes, levels[rd.level], rd.x, nodes[rd.x].next[rd.level]);
    if rd.level > 0 {
      assert levels[rd.level - 1 + 1] <= levels[rd.level - 1];
    }
  }

  /** The load that ends a search finds what a search of the list, as it is at that moment, must find. */
  lemma TurnAnswers(nodes: Arena, levels: seq<set<nat>>, rd: Reader)
    requires Ok(nodes, levels) && rd.Walking? && ReaderOk(nodes, levels, rd) && Loadable(nodes, rd)
             && Turn(nodes, rd).Returned?
    ensures Answers(nodes, levels[0], rd.q, Turn(nodes, rd).r)
  {
    assert Linked(nodes, levels[0], 0);
    assert IsNext(nodes, levels[0], rd.x, nodes[rd.x].next[0]);
    StopsRight(nodes, levels[0], rd.q, rd.x, nodes[rd.x].next[0]);
  }

  lemma StopsRight(nodes: Arena, level: set<nat>, q: Query, x: nat, next: Option<nat>)
    requires x < |nodes| && (forall b | b in level :: 0 < b < |nodes|) && IsNext(nodes, level, x, next)
             && !Advances(nodes, q, next)
    requires x == 0 || (x in level && (q.Last? || nodes[x].key < q.key))
    ensures Answers(nodes, level, q, if q.AtOrAfter? then next else Some(x))
  {
  }

  // ---- Every step keeps the invariant ----

  /** Nodes keep their keys, and the levels only grow. */
  ghost predicate Grows(nodes: Arena, levels: seq<set<nat>>, nodes': Arena, levels': seq<set<nat>>) {
    && |nodes| <= |nodes'| && |levels| == |levels'|
    && (forall a | 0 <= a < |nodes| :: nodes'[a].key == nodes[a].key)
    && (forall i | 0 <= i < |levels| :: levels[i] <= levels'[i])
  }

  lemma ReadersStay(w: World, w': World)
    requires Inv(w) && Grows(w.nodes, w.levels, w'.nodes, w'.levels) && w'.readers == w.readers
    ensures |w'.levels| == MAX_HEIGHT && forall r | 0 <= r < |w'.readers| ::
            ReaderOk(w'.nodes, w'.levels, w'.readers[r])
  {
    forall r | 0 <= r < |w'.readers| ensures ReaderOk(w'.nodes, w'.levels, w'.readers[r]) {
      assert ReaderOk(w.nodes, w.levels, w.readers[r]);
    }
  }

  lemma BeginKeeps(w: World, w': World, step: Step)
    requires Inv(w) && (step.Begin? || step.StoreHeight?) && WriterNext(w, w', step)
    ensures Inv(w') && Grows(w.nodes, w.levels, w'.nodes, w'.levels)
  {
    ReadersStay(w, w');
    if step.Begin? {
      forall i: nat | i < step.height ensures IsPrev(w.nodes, w.levels[i], step.key, step.prev[i]) {
        if w.maxHeight <= i {
          assert w.levels[i] == {};
        }
      }
    }
  }

  lemma NewNodeKeeps(w: World, w': World)
    requires Inv(w) && WriterNext(w, w', NewNode)
    ensures Inv(w') && Grows(w.nodes, w.levels, w'.nodes, w'.levels)
  {
    var n := Node(w.pc.key, seq(w.pc.height, _ => None));
    forall i: nat | i < MAX_HEIGHT ensures Linked(w'.nodes, w'.levels[i], i) && |w.nodes| !in w.levels[i] {
      assert Linked(w.nodes, w.levels[i], i);
      Allocation(w.nodes, w.levels[i], i, n);
    }
    ReadersStay(w, w');
    forall i: nat | i < w.pc.height ensures IsPrev(w'.nodes, w.levels[i], w.pc.key, w.pc.prev[i]) {
      assert IsPrev(w.nodes, w.levels[i], w.pc.key, w.pc.prev[i]);
    }
  }

  lemma SamePrev(nodes: Arena, nodes': Arena, level: set<nat>, key: Key, p: nat)
    requires |nodes| == |nodes'| && (forall b | b in level :: b < |nodes|)
             && (forall a | 0 <= a < |nodes| :: nodes'[a].key == nodes[a].key)
    requires IsPrev(nodes, level, key, p)
    ensures IsPrev(nodes', level, key, p)
  {
  }

  lemma StoreOwnKeeps(w: World, w': World)
    requires Inv(w) && WriterNext(w, w', StoreOwn)
    ensures Inv(w') && Grows(w.nodes, w.levels, w'.nodes, w'.levels)
  {
    var x, i, prev := w.pc.x, w.pc.i, w.pc.prev;
    forall j: nat | j < MAX_HEIGHT ensures Linked(w'.nodes, w'.levels[j], j) {
      assert Linked(w.nodes, w.levels[j], j);
      OtherStore(w.nodes, w.levels[j], j, x, i, w.nodes[prev[i]].next[i]);
    }
    ReadersStay(w, w');
    forall j: nat | i <= j < |w.nodes[x].next| ensures IsPrev(w'.nodes, w.levels[j], w.nodes[x].key, prev[j]) {
      SamePrev(w.nodes, w'.nodes, w.levels[j], w.nodes[x].key, prev[j]);
    }
    assert IsPrev(w.nodes, w.levels[i], w.nodes[x].key, prev[i]);
  }

  lemma PublishedLinks(w: World, w': World)
    requires Inv(w) && WriterNext(w, w', StorePublished)
    ensures Ok(w'.nodes, w'.levels)
  {
    var x, i, prev := w.pc.x, w.pc.i, w.pc.prev;
    assert IsPrev(w.nodes, w.levels[i], w.nodes[x].key, prev[i]);
    forall j: nat | j < MAX_HEIGHT ensures Linked(w'.nodes, w'.levels[j], j) {
      assert Linked(w.nodes, w.levels[j], j);
      if j == i {
        Publication(w.nodes, w.levels[i], i, prev[i], x);
      } else {
        OtherStore(w.nodes, w.levels[j], j, prev[i], i, Some(x));
      }
    }
    forall j: nat | j + 1 < MAX_HEIGHT ensures w'.levels[j + 1] <= w'.levels[j] {
      assert w.levels[j + 1] <= w.levels[j];
    }
  }

  lemma StorePublishedKeeps(w: World, w': World)
    requires Inv(w) && WriterNext(w, w', StorePublished)
    ensures Inv(w') && Grows(w.nodes, w.levels, w'.nodes, w'.levels)
  {
    var x, i, prev := w.pc.x, w.pc.i, w.pc.prev;
    PublishedLinks(w, w');
    ReadersStay(w, w');
    forall j: nat | i < j < |w.nodes[x].next| ensures IsPrev(w'.nodes, w'.levels[j], w.nodes[x].key, prev[j]) {
      SamePrev(w.nodes, w'.nodes, w.levels[j], w.nodes[x].key, prev[j]);
    }
  }

  lemma ReaderKeeps(w: World, w': World, step: Step)
    requires Inv(w) && ReaderNext(w, w', step)
    ensures Inv(w') && Grows(w.nodes, w.levels, w'.nodes, w'.levels)
  {
    if step.Load? {
      assert ReaderOk(w.nodes, w.levels, w.readers[step.r]);
      TurnKeeps(w.nodes, w.levels, w.readers[step.r]);
    }
  }

  lemma StepKeeps(w: World, w': World, step: Step)
    requires Inv(w) && Next(w, w', step)
    ensures Inv(w') && Grows(w.nodes, w.levels, w'.nodes, w'.levels)
  {
    if ReaderNext(w, w', step) {
      ReaderKeeps(w, w', step);
    } else {
      match step
      case Begin(_, _, _) => BeginKeeps(w, w', step);
      case StoreHeight => BeginKeeps(w, w', step);
      case NewNode => NewNodeKeeps(w, w');
      case StoreOwn => StoreOwnKeeps(w, w');
      case StorePublished => StorePublishedKeeps(w, w');
    }
  }

  // ---- Whole runs ----

  function Head(): Node {
    Node(0.0, seq(MAX_HEIGHT, _ => None))
  }

  ghost predicate Init(w: World) {
    && w.nodes == [Head()] && w.maxHeight == 1 && w.levels == seq(MAX_HEIGHT, _ => {}) && w.pc.Idle?
    && forall r | 0 <= r < |w.readers| :: w.readers[r].Resting?
  }

  /** Any interleaving of the writer's stores and the readers' loads. */
  ghost predicate Run(ws: seq<World>, steps: seq<Step>) {
    && |ws| == |steps| + 1 && Init(ws[0])
    && forall i | 0 <= i < |steps| :: Inv(ws[i]) ==> Next(ws[i], ws[i + 1], steps[i])
  }

  lemma {:induction false} RunKeeps(ws: seq<World>, steps: seq<Step>, m: nat, n: nat)
    requires Run(ws, steps) && m <= n < |ws|
    ensures Inv(ws[n]) && Grows(ws[m].nodes, ws[m].levels, ws[n].nodes, ws[n].levels)
    decreases n
  {
    if n == 0 {
      assert forall i: nat | i < MAX_HEIGHT :: Linked(ws[0].nodes, ws[0].levels[i], i);
    } else {
      RunKeeps(ws, steps, if m < n then m else n - 1, n - 1);
      StepKeeps(ws[n - 1], ws[n], steps[n - 1]);
    }
  }

  /** The list the pointers of level `i` make. */
  ghost function ListAt(nodes: Arena, levels: seq<set<nat>>, i: nat): seq<nat>
    requires Ok(nodes, levels) && i < MAX_HEIGHT
  {
    Chain(nodes, levels[i], i, 0)
  }

  ghost predicate PartOf(c: seq<nat>, d: seq<nat>) {
    forall b | b in c :: b in d
  }

  lemma HigherIsSublist(nodes: Arena, high: set<nat>, low: set<nat>, i: nat)
    requires Linked(nodes, high, i + 1) && Linked(nodes, low, i) && high <= low
    ensures PartOf(Chain(nodes, high, i + 1, 0), Chain(nodes, low, i, 0))
  {
    forall b | b in Chain(nodes, high, i + 1, 0) ensures b in Chain(nodes, low, i, 0) {
      ChainMember(nodes, high, i + 1, 0, b);
      ChainMember(nodes, low, i, 0, b);
    }
  }

  /** In every state of every run, each level is a sorted list and each list is part of the one below. */
  lemma LevelsAreSublists(ws: seq<World>, steps: seq<Step>, n: nat)
    requires Run(ws, steps) && n < |ws|
    ensures var nodes, levels := ws[n].nodes, ws[n].levels;
            && Ok(nodes, levels)
            && (forall i: nat | i < MAX_HEIGHT :: Rising(nodes, ListAt(nodes, levels, i)))
            && (forall i: nat | i + 1 < MAX_HEIGHT :: PartOf(ListAt(nodes, levels, i + 1), ListAt(nodes, levels, i)))
  {
    RunKeeps(ws, steps, n, n);
    var nodes, levels := ws[n].nodes, ws[n].levels;
    forall i: nat | i < MAX_HEIGHT ensures Rising(nodes, ListAt(nodes, levels, i)) {
      ChainRises(nodes, levels[i], i, 0);
    }
    forall i: nat | i + 1 < MAX_HEIGHT ensures PartOf(ListAt(nodes, levels, i + 1), ListAt(nodes, levels, i)) {
      HigherIsSublist(nodes, levels[i + 1], levels[i], i);
    }
  }

  /** A search that ends at step `e` answers for the list as it is then, so it returns no key before its target and
      passes over none that was there at any earlier state `b`, the one it began in among them. */
  lemma RacingSearch(ws: seq<World>, steps: seq<Step>, b: nat, e: nat, r: nat)
    requires Run(ws, steps) && b <= e < |steps| && steps[e] == Load(r)
    requires r < |ws[e].readers| && r < |ws[e + 1].readers| && ws[e + 1].readers[r].Returned?
    ensures ws[e].readers[r].Walking? && ws[e + 1].readers[r].q == ws[e].readers[r].q
    ensures Inv(ws[b]) && Inv(ws[e]) && Answers(ws[e].nodes, ws[e].levels[0], ws[e].readers[r].q,
              ws[e + 1].readers[r].r)
    ensures var q, found := ws[e].readers[r].q, ws[e + 1].readers[r].r;
            q.AtOrAfter? ==> forall a | a in ws[b].levels[0] && q.key <= ws[b].nodes[a].key ::
              found.Some? && found.value < |ws[e].nodes| && q.key <= ws[e].nodes[found.value].key <= ws[b].nodes[a].key
  {
    RunKeeps(ws, steps, b, e);
    RunKeeps(ws, steps, b, b);
    var w := ws[e];
    assert ReaderOk(w.nodes, w.levels, w.readers[r]);
    TurnAnswers(w.nodes, w.levels, w.readers[r]);
  }

  // ---- The operations ----

  /** `p` is the last node of the level, or the head, before the key. */
  ghost predicate IsLastBefore(nodes: Arena, level: set<nat>, key: Key, p: nat)
    requires forall b | b in level :: b < |nodes|
  {
    && p < |nodes| && (p == 0 || (p in level && nodes[p].key < key))
    && forall b | b in level && After(nodes, p, b) :: key <= nodes[b].key
  }

  /** The search loop of FindGreaterOrEqual. */
  method Find(nodes: Arena, maxHeight: nat, ghost levels: seq<set<nat>>, key: Key)
    returns (r: Option<nat>, prev: seq<nat>)
    requires Ok(nodes, levels) && 0 < maxHeight <= MAX_HEIGHT
    ensures Answers(nodes, levels[0], AtOrAfter(key), r)
    ensures |prev| == MAX_HEIGHT && forall i: nat | i < MAX_HEIGHT ::
            if i < maxHeight then IsLastBefore(nodes, levels[i], key, prev[i]) else prev[i] == 0
  {
    var x: nat, level: nat := 0, maxHeight - 1;
    prev := seq(MAX_HEIGHT, _ => 0);
    while true
      invariant level < maxHeight && |prev| == MAX_HEIGHT
      invariant ReaderOk(nodes, levels, Walking(AtOrAfter(key), x, level))
      invariant forall i: nat | level < i < MAX_HEIGHT ::
                if i < maxHeight then IsLastBefore(nodes, levels[i], key, prev[i]) else prev[i] == 0
      decreases level, Behind(nodes, levels[level], x)
    {
      assert Linked(nodes, levels[level], level);
      assert IsNext(nodes, levels[level], x, nodes[x].next[level]);
      var next := nodes[x].next[level];
      if next.Some? && nodes[next.value].key < key {
        NextIsNearer(nodes, levels[level], level, x);
        x := next.value;
      } else {
        LastBefore(nodes, levels[level], key, x, next);
        prev := prev[level := x];
        if level == 0 {
          StopsRight(nodes, levels[0], AtOrAfter(key), x, next);
          return next, prev;
        }
        assert levels[level - 1 + 1] <= levels[level - 1];
        level := level - 1;
      }
    }
  }

  lemma LastBefore(nodes: Arena, level: set<nat>, key: Key, x: nat, next: Option<nat>)
    requires x < |nodes| && (forall b | b in level :: 0 < b < |nodes|) && IsNext(nodes, level, x, next)
    requires (x == 0 || (x in level && nodes[x].key < key)) && (next.Some? ==> key <= nodes[next.value].key)
    ensures IsLastBefore(nodes, level, key, x)
  {
  }

  ghost predicate SameKeys(nodes: Arena, nodes': Arena) {
    |nodes| == |nodes'| && forall a | 0 <= a < |nodes| :: nodes'[a].key == nodes[a].key
  }

  /** The node published at its lowest `n` levels. */
  ghost function WithNode(levels: seq<set<nat>>, x: nat, n: nat): seq<set<nat>> {
    seq(|levels|, j requires 0 <= j < |levels| => if j < n then levels[j] + {x} else levels[j])
  }

  class SkipListImpl {
    var nodes: Arena
    var maxHeight: nat
    ghost var levels: seq<set<nat>>

    ghost function W(pc: Pc): World
      reads this
    {
      World(nodes, maxHeight, levels, pc, [])
    }

    ghost predicate Valid()
      reads this
    {
      Inv(W(Idle))
    }

    constructor ()
      ensures Valid() && Init(W(Idle))
    {
      nodes := [Head()];
      maxHeight := 1;
      levels := seq(MAX_HEIGHT, _ => {});
      new;
      assert forall i: nat | i < MAX_HEIGHT :: Linked(nodes, levels[i], i);
    }

    /** FindGreaterOrEqual, with the predecessor at each level. */
    method FindGreaterOrEqual(key: Key) returns (r: Option<nat>, prev: seq<nat>)
      requires Valid()
      ensures Answers(nodes, levels[0], AtOrAfter(key), r)
      ensures |prev| == MAX_HEIGHT && forall i: nat | i < MAX_HEIGHT ::
              if i < maxHeight then IsLastBefore(nodes, levels[i], key, prev[i]) else prev[i] == 0
    {
      r, prev := Find(nodes, maxHeight, levels, key);
    }

    method Contains(key: Key) returns (found: bool)
      requires Valid()
      ensures found <==> exists a :: a in levels[0] && nodes[a].key == key
    {
      var x, _ := FindGreaterOrEqual(key);
      assert Linked(nodes, levels[0], 0);
      found := x.Some? && nodes[x.value].key == key;
    }

    /** Insert a key that the list does not hold, in a node of the given height. */
    method Insert(key: Key, height: nat)
      requires Valid() && 0 < height <= MAX_HEIGHT && forall a | a in levels[0] :: nodes[a].key != key
      modifies this
      ensures Valid() && |nodes| == |old(nodes)| + 1 && nodes[|old(nodes)|].key == key
      ensures SameKeys(old(nodes), nodes[..|old(nodes)|])
      ensures levels == WithNode(old(levels), |old(nodes)|, height)
    {
      var _, prev := FindGreaterOrEqual(key);
      InsertBegins(W(Idle), key, height, prev);
      if height > maxHeight {
        maxHeight := height;
      }
      var x := |nodes|;
      nodes := nodes + [Node(key, seq(height, _ => None))];
      Link(x, height, prev);
    }

    /** The linking loop. */
    method Link(x: nat, height: nat, prev: seq<nat>)
      requires Inv(W(Own(x, 0, prev))) && height == |nodes[x].next|
      modifies this`nodes, this`levels
      ensures Valid() && SameKeys(old(nodes), nodes) && levels == WithNode(old(levels), x, height)
    {
      var i := 0;
      while i < height
        invariant 0 <= i <= height && x < |nodes| == |old(nodes)| && |nodes[x].next| == height
        invariant Inv(W(if i < height then Own(x, i, prev) else Idle))
        invariant SameKeys(old(nodes), nodes) && levels == WithNode(old(levels), x, i)
      {
        LinkAt(x, i, prev);
        i := i + 1;
      }
    }

    /** One turn of the linking loop: the node's own pointer, then the one that publishes it. */
    method LinkAt(x: nat, i: nat, prev: seq<nat>)
      requires Inv(W(Own(x, i, prev)))
      modifies this`nodes, this`levels
      ensures x < |old(nodes)| && SameKeys(old(nodes), nodes) && |nodes[x].next| == |old(nodes[x].next)|
      ensures Inv(W(if i + 1 < |nodes[x].next| then Own(x, i + 1, prev) else Idle))
      ensures i < |old(levels)| && levels == old(levels)[i := old(levels)[i] + {x}]
    {
      LinkTurn(W(Own(x, i, prev)));
      nodes := SetNext(nodes, x, i, nodes[prev[i]].next[i]);
      nodes := SetNext(nodes, prev[i], i, Some(x));
      levels := levels[i := levels[i] + {x}];
    }
  }

  /** The two stores of one turn are two steps. */
  lemma LinkTurn(w: World)
    requires Inv(w) && w.pc.Own?
    ensures var x, i, p := w.pc.x, w.pc.i, w.pc.prev;
            && x < |w.nodes| && i < |w.nodes[x].next| && i < |p| && p[i] < |w.nodes| && i < |w.nodes[p[i]].next|
            && i < |w.levels|
            && var w' := AfterTurn(w, x, i, p);
               Inv(w') && Grows(w.nodes, w.levels, w'.nodes, w'.levels)
  {
    var x, i, p := w.pc.x, w.pc.i, w.pc.prev;
    assert IsPrev(w.nodes, w.levels[i], w.nodes[x].key, p[i]);
    PrevIsTall(w.nodes, w.levels, x, i, p[i]);
    var w1 := w.(nodes := SetNext(w.nodes, x, i, w.nodes[p[i]].next[i]), pc := Publish(x, i, p));
    StoreOwnKeeps(w, w1);
    StorePublishedKeeps(w1, AfterTurn(w, x, i, p));
  }

  ghost function AfterTurn(w: World, x: nat, i: nat, p: seq<nat>): World
    requires x < |w.nodes| && i < |w.nodes[x].next| && i < |p| && p[i] < |w.nodes| && i < |w.nodes[p[i]].next|
             && i < |w.levels|
  {
    var nodes := SetNext(w.nodes, x, i, w.nodes[p[i]].next[i]);
    w.(nodes := SetNext(nodes, p[i], i, Some(x)), levels := w.levels[i := w.levels[i] + {x}],
       pc := if i + 1 < |w.nodes[x].next| then Own(x, i + 1, p) else Idle)
  }

  lemma PrevIsTall(nodes: Arena, levels: seq<set<nat>>, x: nat, i: nat, p: nat)
    requires Ok(nodes, levels) && i < MAX_HEIGHT && x < |nodes| && IsPrev(nodes, levels[i], nodes[x].key, p)
    ensures p < |nodes| && i < |nodes[p].next|
  {
    assert Linked(nodes, levels[i], i);
  }

  lemma InsertBegins(w: World, key: Key, height: nat, prev: seq<nat>)
    requires Inv(w) && w.pc.Idle? && 0 < height <= MAX_HEIGHT && |prev| == MAX_HEIGHT
             && (forall a | a in w.levels[0] :: w.nodes[a].key != key)
    requires forall i: nat | i < MAX_HEIGHT :: if i < w.maxHeight then IsLastBefore(w.nodes, w.levels[i], key, prev[i])
                                                                       else prev[i] == 0
    ensures var w' := World(w.nodes + [Node(key, seq(height, _ => None))],
                            if height > w.maxHeight then height else w.maxHeight, w.levels,
                            Own(|w.nodes|, 0, prev), w.readers);
            Inv(w') && Grows(w.nodes, w.levels, w'.nodes, w'.levels)
  {
    StoresBegin(w, key, height, prev);
    var w1 := w.(pc := Raise(key, height, prev));
    StepKeeps(w, w1, Begin(key, height, prev));
    var w2 := w1.(maxHeight := if height > w.maxHeight then height else w.maxHeight, pc := Allocate(key, height, prev));
    StepKeeps(w1, w2, StoreHeight);
    var w3 := w2.(nodes := w2.nodes + [Node(key, seq(height, _ => None))], pc := Own(|w2.nodes|, 0, prev));
    StepKeeps(w2, w3, NewNode);
  }

  /** What FindGreaterOrEqual leaves in prev is what Insert may begin with. */
  lemma StoresBegin(w: World, key: Key, height: nat, prev: seq<nat>)
    requires Inv(w) && w.pc.Idle? && 0 < height <= MAX_HEIGHT && |prev| == MAX_HEIGHT
             && (forall a | a in w.levels[0] :: w.nodes[a].key != key)
    requires forall i: nat | i < MAX_HEIGHT :: if i < w.maxHeight then IsLastBefore(w.nodes, w.levels[i], key, prev[i])
                                                                       else prev[i] == 0
    ensures Next(w, w.(pc := Raise(key, height, prev)), Begin(key, height, prev))
  {
    forall i: nat | i < height && i < w.maxHeight ensures IsPrev(w.nodes, w.levels[i], key, prev[i]) {
      assert IsLastBefore(w.nodes, w.levels[i], key, prev[i]);
      HigherIsPart(w.levels, 0, i);
    }
  }
}
