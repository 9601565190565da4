/** The user-level iterator: one entry per visible key (db/db_iter.cc). */
module DbIter {
  import opened DbFormat
  import opened Visibility
  import opened Merging

  // ---- The entries an iterator at `snap` shows ----

  predicate Seen(e: Entry, snap: nat) {
    e.key.sequence <= snap
  }

  /** Entry `i` is a value and the first of its user key that `snap` sees. */
  ghost predicate Shown(all: seq<Entry>, snap: nat, i: int) {
    && 0 <= i < |all| && Seen(all[i], snap) && all[i].key.kind.Value?
    && forall m | 0 <= m < i && all[m].key.user == all[i].key.user :: !Seen(all[m], snap)
  }

  lemma UsersRise(all: seq<Entry>, i: nat, j: nat)
    requires Sorted(all) && i <= j < |all|
    ensures all[i].key.user <= all[j].key.user
  {
    if i < j {
      assert Less(all[i].key, all[j].key);
    }
  }

  /** A shown entry is what a read of its key returns. */
  lemma ShownIsRead(all: seq<Entry>, snap: nat, i: nat)
    requires Sorted(all) && OneEntryPerSeq(ToSet(all)) && Shown(all, snap, i)
    ensures View(ToSet(all), all[i].key.user, snap) == Some(all[i].value)
  {
    var k := all[i].key.user;
    assert Newest(ToSet(all), k, snap, all[i]) by {
      forall x | x in ToSet(all) && Matches(x, k, snap) ensures x.key.sequence <= all[i].key.sequence {
        var m :| 0 <= m < |all| && all[m] == x;
        if i < m {
          assert Less(all[i].key, all[m].key);
        }
      }
    }
    ViewOfNewest(ToSet(all), k, snap, all[i]);
  }

  /** A key some read finds is shown. */
  lemma ReadIsShown(all: seq<Entry>, snap: nat, k: UserKey) returns (i: nat)
    requires Sorted(all) && OneEntryPerSeq(ToSet(all)) && View(ToSet(all), k, snap).Some?
    ensures i < |all| && Shown(all, snap, i) && all[i].key.user == k
  {
    var e :| Newest(ToSet(all), k, snap, e);
    assert Newest(ToSet(all), k, snap, e);
    ViewOfNewest(ToSet(all), k, snap, e);
    i :| 0 <= i < |all| && all[i] == e;
    forall m | 0 <= m < i && all[m].key.user == k ensures !Seen(all[m], snap) {
      assert Less(all[m].key, all[i].key);
      if Seen(all[m], snap) {
        assert all[m] in ToSet(all) && Matches(all[m], k, snap);
      }
    }
  }

  // ---- Steps over the map ----

  /** Which of the keys past some bound the iterator must stop at. */
  datatype Bound = Any | From(k: UserKey) | After(k: UserKey) | Before(k: UserKey) {
    predicate Admits(u: UserKey) {
      match this
      case Any => true
      case From(k) => k <= u
      case After(k) => k < u
      case Before(k) => u < k
    }
  }

  /** `i` is the first shown entry within the bound, and is |all| when there is none. */
  ghost predicate FirstShown(all: seq<Entry>, snap: nat, bound: Bound, i: int) {
    && 0 <= i <= |all|
    && (i < |all| ==> Shown(all, snap, i) && bound.Admits(all[i].key.user))
    && forall m | 0 <= m < i && Shown(all, snap, m) :: !bound.Admits(all[m].key.user)
  }

  /** `i` is the last shown entry within the bound, and is -1 when there is none. */
  ghost predicate LastShown(all: seq<Entry>, snap: nat, bound: Bound, i: int) {
    && -1 <= i < |all|
    && (0 <= i ==> Shown(all, snap, i) && bound.Admits(all[i].key.user))
    && forall m | i < m < |all| && Shown(all, snap, m) :: !bound.Admits(all[m].key.user)
  }

  /** The map's least key within the bound and its value, or none. */
  ghost predicate IsLeast(S: set<Entry>, snap: nat, bound: Bound, found: Option<(UserKey, Bytes)>) {
    match found
    case Some((k, v)) => bound.Admits(k) && View(S, k, snap) == Some(v) && forall x | bound.Admits(x) && x < k ::
        View(S, x, snap).None?
    case None => forall x | bound.Admits(x) :: View(S, x, snap).None?
  }

  /** The map's greatest key within the bound and its value, or none. */
  ghost predicate IsGreatest(S: set<Entry>, snap: nat, bound: Bound, found: Option<(UserKey, Bytes)>) {
    match found
    case Some((k, v)) => bound.Admits(k) && View(S, k, snap) == Some(v) && forall x | bound.Admits(x) && k < x ::
        View(S, x, snap).None?
    case None => forall x | bound.Admits(x) :: View(S, x, snap).None?
  }

  ghost function Pair(all: seq<Entry>, i: int): Option<(UserKey, Bytes)> {
    if 0 <= i < |all| then Some((all[i].key.user, all[i].value)) else None
  }

  lemma FirstIsLeast(all: seq<Entry>, snap: nat, bound: Bound, i: int)
    requires Sorted(all) && OneEntryPerSeq(ToSet(all)) && FirstShown(all, snap, bound, i)
    ensures IsLeast(ToSet(all), snap, bound, Pair(all, i))
  {
    if i < |all| {
      ShownIsRead(all, snap, i);
    }
    forall x | bound.Admits(x) && View(ToSet(all), x, snap).Some? ensures i < |all| && all[i].key.user <= x {
      var m := ReadIsShown(all, snap, x);
      UsersRise(all, i, m);
    }
  }

  lemma LastIsGreatest(all: seq<Entry>, snap: nat, bound: Bound, i: int)
    requires Sorted(all) && OneEntryPerSeq(ToSet(all)) && LastShown(all, snap, bound, i)
    ensures IsGreatest(ToSet(all), snap, bound, Pair(all, i))
  {
    if 0 <= i {
      ShownIsRead(all, snap, i);
    }
    forall x | bound.Admits(x) && View(ToSet(all), x, snap).Some? ensures 0 <= i && x <= all[i].key.user {
      var m := ReadIsShown(all, snap, x);
      UsersRise(all, m, i);
    }
  }

  // ---- The loops' invariants ----

  /** Going forward from the entry at `at`: what is behind shows nothing within the bound, and what is seen behind is
      of an earlier user key or is being skipped. */
  ghost predicate Forward(all: seq<Entry>, snap: nat, bound: Bound, at: int, skipping: bool, skip: UserKey) {
    && 0 <= at <= |all|
    && (forall m | 0 <= m < at && Shown(all, snap, m) :: !bound.Admits(all[m].key.user))
    && (forall m, n | 0 <= m < at <= n < |all| && Seen(all[m], snap) && all[m].key.user == all[n].key.user ::
        skipping && all[m].key.user <= skip)
    && (skipping ==> forall n | at <= n < |all| && Seen(all[n], snap) :: skip <= all[n].key.user)
    && (forall n | at <= n < |all| && Shown(all, snap, n) && skipping && all[n].key.user <= skip ::
        !bound.Admits(all[n].key.user))
    && (forall n | at <= n < |all| && Shown(all, snap, n) && (skipping ==> skip < all[n].key.user) ::
        bound.Admits(all[n].key.user))
  }

  /** Going back to the entry at `at`: `c` is the candidate, when there is one. */
  ghost predicate Back(all: seq<Entry>, snap: nat, bound: Bound, at: int, c: Option<nat>) {
    && -1 <= at < |all|
    && (forall n | at < n < |all| && Shown(all, snap, n) && bound.Admits(all[n].key.user) :: c == Some(n))
    && (forall n | 0 <= n <= at && Seen(all[n], snap) :: bound.Admits(all[n].key.user))
    && match c
       case None => true
       case Some(i) =>
         && at < i < |all| && Seen(all[i], snap) && all[i].key.kind.Value? && bound.Admits(all[i].key.user)
         && forall n | at < n < i :: !Seen(all[n], snap)
  }

  lemma ForwardUnseen(all: seq<Entry>, snap: nat, bound: Bound, at: nat, skipping: bool, skip: UserKey)
    requires Forward(all, snap, bound, at, skipping, skip) && at < |all| && !Seen(all[at], snap)
    ensures Forward(all, snap, bound, at + 1, skipping, skip)
  {
  }

  lemma ForwardDeletion(all: seq<Entry>, snap: nat, bound: Bound, at: nat, skipping: bool, skip: UserKey)
    requires Sorted(all) && Forward(all, snap, bound, at, skipping, skip) && at < |all| && Seen(all[at], snap)
             && all[at].key.kind.Deletion?
    ensures Forward(all, snap, bound, at + 1, true, all[at].key.user)
  {
    forall m: nat | m < |all|
        ensures if m <= at then all[m].key.user <= all[at].key.user else all[at].key.user <= all[m].key.user {
      if m <= at {
        UsersRise(all, m, at);
      } else {
        UsersRise(all, at, m);
      }
    }
  }

  lemma ForwardHidden(all: seq<Entry>, snap: nat, bound: Bound, at: nat, skip: UserKey)
    requires Forward(all, snap, bound, at, true, skip) && at < |all| && all[at].key.user <= skip
    ensures Forward(all, snap, bound, at + 1, true, skip)
  {
  }

  lemma ForwardFinds(all: seq<Entry>, snap: nat, bound: Bound, at: nat, skipping: bool, skip: UserKey)
    requires Forward(all, snap, bound, at, skipping, skip) && at < |all| && Seen(all[at], snap)
             && all[at].key.kind.Value?
    requires skipping ==> skip < all[at].key.user
    ensures FirstShown(all, snap, bound, at)
  {
  }

  /** The iterator rests going back: nothing seen lies between the inner position and the shown entry. */
  ghost predicate Rests(all: seq<Entry>, snap: nat, at: int, i: int) {
    && Shown(all, snap, i) && -1 <= at < i
    && (0 <= at ==> all[at].key.user < all[i].key.user)
    && forall n | at < n < i :: !Seen(all[n], snap)
  }

  lemma BackUnseen(all: seq<Entry>, snap: nat, bound: Bound, at: nat, c: Option<nat>)
    requires Back(all, snap, bound, at, c) && !Seen(all[at], snap)
    ensures Back(all, snap, bound, at - 1, c)
  {
  }

  /** An entry that is seen takes the place of the candidate, of the same user key. */
  lemma BackSeen(all: seq<Entry>, snap: nat, bound: Bound, at: nat, c: Option<nat>)
    requires Back(all, snap, bound, at, c) && Seen(all[at], snap)
             && (c.Some? ==> all[at].key.user == all[c.value].key.user)
    ensures Back(all, snap, bound, at - 1, if all[at].key.kind.Value? then Some(at) else None)
  {
  }

  lemma BackFinds(all: seq<Entry>, snap: nat, bound: Bound, at: int, i: nat)
    requires Sorted(all) && Back(all, snap, bound, at, Some(i)) && (0 <= at ==> all[at].key.user < all[i].key.user)
    ensures LastShown(all, snap, bound, i) && Rests(all, snap, at, i)
  {
    forall m | 0 <= m < i && all[m].key.user == all[i].key.user ensures !Seen(all[m], snap) {
      if m <= at {
        UsersRise(all, m, at);
      }
    }
  }

  // ---- Where the calls start ----

  lemma ForwardFromShown(all: seq<Entry>, snap: nat, i: nat)
    requires Sorted(all) && Shown(all, snap, i)
    ensures Forward(all, snap, After(all[i].key.user), i, true, all[i].key.user)
  {
    forall m: nat | m < |all|
        ensures if m <= i then all[m].key.user <= all[i].key.user else all[i].key.user <= all[m].key.user {
      if m <= i {
        UsersRise(all, m, i);
      } else {
        UsersRise(all, i, m);
      }
    }
  }

  lemma ForwardFromRest(all: seq<Entry>, snap: nat, at: int, i: nat)
    requires Sorted(all) && Rests(all, snap, at, i)
    ensures Forward(all, snap, After(all[i].key.user), at + 1, true, all[i].key.user)
  {
    forall m: nat | m < |all|
        ensures if m <= i then all[m].key.user <= all[i].key.user else all[i].key.user <= all[m].key.user {
      if m <= i {
        UsersRise(all, m, i);
      } else {
        UsersRise(all, i, m);
      }
    }
  }

  lemma ForwardFromSeek(all: seq<Entry>, snap: nat, target: UserKey, at: nat, skip: UserKey)
    requires Sorted(all) && SeekPosition(all, LookupKey(target, snap), at)
    ensures Forward(all, snap, From(target), at, false, skip)
  {
    forall n: nat | at <= n < |all| ensures target <= all[n].key.user {
      UsersRise(all, at, n);
    }
    forall m: nat | m < at && Seen(all[m], snap) ensures all[m].key.user < target {
      assert Less(all[m].key, LookupKey(target, snap));
    }
  }

  lemma BackFrom(all: seq<Entry>, snap: nat, at: int, i: nat)
    requires Sorted(all) && Shown(all, snap, i) && -1 <= at < i && (0 <= at ==> all[at].key.user < all[i].key.user)
    requires forall n | at < n < i :: !Seen(all[n], snap) || all[n].key.user == all[i].key.user
    ensures Back(all, snap, Before(all[i].key.user), at, None)
  {
    forall m: nat | m < |all|
        ensures if i <= m then all[i].key.user <= all[m].key.user else m <= at ==> all[m].key.user < all[i].key.user {
      if i <= m {
        UsersRise(all, i, m);
      } else if m <= at {
        UsersRise(all, m, at);
      }
    }
  }

  class DBIter {
    const iter: MergingIterator
    const sequence: nat
    var savedKey: UserKey
    var savedValue: Bytes
    var forward: bool
    var valid: bool

    ghost var cur: int      // the entry shown

    /** Going forward the inner iterator is on the entry shown; going back it is before it and the entry is saved. */
    ghost predicate Valid()
      reads this, iter
    {
      && iter.Valid() && OneEntryPerSeq(Entries())
      && (valid ==> Shown(iter.all, sequence, cur))
      && (valid && forward ==> iter.at == cur)
      && (valid && !forward ==> Rests(iter.all, sequence, iter.at, cur)
                                && Some((savedKey, savedValue)) == Pair(iter.all, cur))
    }

    ghost function Entries(): set<Entry>
    {
      ToSet(iter.all)
    }

    constructor (iter: MergingIterator, sequence: nat)
      requires iter.Valid() && OneEntryPerSeq(ToSet(iter.all))
      ensures Valid() && this.iter == iter && this.sequence == sequence && !valid
    {
      this.iter := iter;
      this.sequence := sequence;
      savedKey, savedValue, forward, valid := 0.0, [], true, false;
    }

    function Key(): (k: UserKey)
      requires Valid() && valid
      reads this, iter
    {
      if forward then iter.Current().key.user else savedKey
    }

    function Value(): (v: Bytes)
      requires Valid() && valid
      reads this, iter
    {
      if forward then iter.Current().value else savedValue
    }

    /** What the iterator shows. */
    ghost function Shows(): (r: Option<(UserKey, Bytes)>)
      requires Valid()
      reads this, iter
      ensures valid ==> r == Pair(iter.all, cur)
    {
      if valid then Some((Key(), Value())) else None
    }

    /** One turn of the forward loop: the entry is acceptable, or is passed over. */
    method TryNext(skipping: bool, ghost bound: Bound) returns (found: bool, skipping': bool)
      requires iter.Valid() && iter.current.Some? && Forward(iter.all, sequence, bound, iter.at, skipping, savedKey)
      modifies this`savedKey, iter
      ensures iter.Valid()
      ensures found ==> iter.at == old(iter.at) && FirstShown(iter.all, sequence, bound, iter.at)
                        && iter.at < |iter.all|
      ensures !found ==> iter.at == old(iter.at) + 1 && Forward(iter.all, sequence, bound, iter.at, skipping', savedKey)
    {
      found, skipping' := false, skipping;
      var e := iter.Current();
      if Seen(e, sequence) {
        if e.key.kind.Deletion? {
          ForwardDeletion(iter.all, sequence, bound, iter.at, skipping, savedKey);
          savedKey := e.key.user;
          skipping' := true;
        } else if skipping && e.key.user <= savedKey {
          ForwardHidden(iter.all, sequence, bound, iter.at, savedKey);
        } else {
          ForwardFinds(iter.all, sequence, bound, iter.at, skipping, savedKey);
          found := true;
          return;
        }
      } else {
        ForwardUnseen(iter.all, sequence, bound, iter.at, skipping, savedKey);
      }
      iter.Next();
    }

    method FindNextUserEntry(skipping0: bool, ghost bound: Bound)
      requires iter.Valid() && OneEntryPerSeq(Entries()) && iter.current.Some? && forward
      requires Forward(iter.all, sequence, bound, iter.at, skipping0, savedKey)
      modifies this, iter
      ensures Valid() && FirstShown(iter.all, sequence, bound, if valid then cur else |iter.all|)
    {
      var skipping, found := skipping0, false;
      while !found && iter.current.Some?
        invariant iter.Valid() && forward
        invariant if found then FirstShown(iter.all, sequence, bound, iter.at) && iter.at < |iter.all|
                  else Forward(iter.all, sequence, bound, iter.at, skipping, savedKey)
        decreases !found, |iter.all| - iter.at
      {
        found, skipping := TryNext(skipping, bound);
      }
      savedKey, valid, cur := 0.0, found, iter.at;
    }

    /** One turn of the backward loop: the candidate stands, or the entry is taken into account. */
    method TryPrev(kind: ValueType, ghost bound: Bound, ghost c: Option<nat>)
      returns (found: bool, kind': ValueType, ghost c': Option<nat>)
      requires iter.Valid() && iter.current.Some? && Back(iter.all, sequence, bound, iter.at, c)
               && (kind.Value? <==> c.Some?)
      requires c.Some? ==> Some((savedKey, savedValue)) == Pair(iter.all, c.value)
      modifies this`savedKey, this`savedValue, iter
      ensures iter.Valid() && Back(iter.all, sequence, bound, iter.at, c') && (kind'.Value? <==> c'.Some?)
      ensures c'.Some? ==> Some((savedKey, savedValue)) == Pair(iter.all, c'.value)
      ensures found ==> iter.at == old(iter.at) && c'.Some? && iter.all[iter.at].key.user < iter.all[c'.value].key.user
      ensures !found ==> iter.at == old(iter.at) - 1
    {
      found, kind', c' := false, kind, c;
      var e := iter.Current();
      if Seen(e, sequence) {
        if kind.Value? && e.key.user < savedKey {
          found := true;
          return;
        }
        if c.Some? {
          UsersRise(iter.all, iter.at, c.value);
        }
        BackSeen(iter.all, sequence, bound, iter.at, c);
        kind' := e.key.kind;
        if kind'.Deletion? {
          savedKey, savedValue, c' := 0.0, [], None;
        } else {
          savedKey, savedValue, c' := e.key.user, e.value, Some(iter.at);
        }
      } else {
        BackUnseen(iter.all, sequence, bound, iter.at, c);
      }
      iter.Prev();
    }

    method FindPrevUserEntry(ghost bound: Bound)
      requires iter.Valid() && OneEntryPerSeq(Entries()) && !forward
      requires Back(iter.all, sequence, bound, iter.at, None)
      modifies this, iter
      ensures Valid() && LastShown(iter.all, sequence, bound, if valid then cur else -1)
    {
      var kind, found := Deletion, false;
      ghost var c: Option<nat> := None;
      while !found && iter.current.Some?
        invariant iter.Valid() && !forward
        invariant Back(iter.all, sequence, bound, iter.at, c) && (kind.Value? <==> c.Some?)
        invariant c.Some? ==> Some((savedKey, savedValue)) == Pair(iter.all, c.value)
        invariant found ==> 0 <= iter.at < |iter.all| && c.Some?
                            && iter.all[iter.at].key.user < iter.all[c.value].key.user
        decreases !found, iter.at
      {
        found, kind, c := TryPrev(kind, bound, c);
      }
      if kind.Deletion? {
        valid, savedKey, savedValue, forward := false, 0.0, [], true;
      } else {
        BackFinds(iter.all, sequence, bound, iter.at, c.value);
        valid, cur := true, c.value;
      }
    }

    /** One entry back: whether there is one, and whether it is still of the saved key. */
    method LeaveEntry() returns (more: bool, same: bool)
      requires iter.Valid() && 0 <= iter.at <= cur < |iter.all| && iter.all[cur].key.user == savedKey
      modifies iter
      ensures iter.Valid() && iter.at == old(iter.at) - 1 && more == iter.current.Some? && more == (0 <= iter.at)
      ensures more ==> (if same then iter.all[iter.at].key.user == savedKey else iter.all[iter.at].key.user < savedKey)
    {
      iter.Prev();
      more, same := iter.current.Some?, true;
      if more {
        UsersRise(iter.all, iter.at, cur);
        same := !(iter.Current().key.user < savedKey);
      }
    }

    /** Back to before the entries of the current key; false when there is nothing before them. */
    method LeaveKey() returns (more: bool)
      requires iter.Valid() && iter.current.Some? && 0 <= iter.at == cur < |iter.all|
      modifies this`savedKey, iter
      ensures iter.Valid() && savedKey == iter.all[cur].key.user && more == iter.current.Some?
      ensures -1 <= iter.at < cur && (more ==> 0 <= iter.at && iter.all[iter.at].key.user < savedKey)
      ensures !more ==> iter.at == -1
      ensures forall n | iter.at < n < cur :: iter.all[n].key.user == savedKey
    {
      savedKey := iter.Current().key.user;
      more := true;
      var same := true;
      while more && same
        invariant iter.Valid() && iter.all[cur].key.user == savedKey && more == iter.current.Some?
        invariant -1 <= iter.at && (if more && same then iter.at <= cur else iter.at < cur) && more == (0 <= iter.at)
        invariant more ==> (if same then iter.all[iter.at].key.user == savedKey
                                         else iter.all[iter.at].key.user < savedKey)
        invariant forall n | iter.at < n < cur :: iter.all[n].key.user == savedKey
        decreases iter.at
      {
        more, same := LeaveEntry();
      }
    }

    /** To the least key of the map after this one. */
    method Next()
      requires Valid() && valid
      modifies this, iter
      ensures Valid() && IsLeast(Entries(), sequence, After(old(Key())), Shows())
    {
      ghost var i := cur;
      if !forward {
        TurnForward();
      } else {
        ForwardFromShown(iter.all, sequence, cur);
        savedKey := iter.Current().key.user;
      }
      FindNextUserEntry(true, After(iter.all[i].key.user));
      FirstIsLeast(iter.all, sequence, After(iter.all[i].key.user), if valid then cur else |iter.all|);
    }

    /** From before the entries of this user key onto the first of them. */
    method TurnForward()
      requires Valid() && valid && !forward
      modifies this, iter
      ensures iter.Valid() && OneEntryPerSeq(Entries()) && iter.current.Some? && forward
      ensures Forward(iter.all, sequence, After(old(Key())), iter.at, true, savedKey)
    {
      ghost var at, key := iter.at, Key();
      ForwardFromRest(iter.all, sequence, at, cur);
      assert Forward(iter.all, sequence, After(key), at + 1, true, savedKey);
      forward := true;
      if iter.current.None? {
        iter.SeekToFirst();
      } else {
        iter.Next();
      }
      assert iter.at == at + 1;
    }

    /** To the greatest key of the map before this one. */
    method Prev()
      requires Valid() && valid
      modifies this, iter
      ensures Valid() && IsGreatest(Entries(), sequence, Before(old(Key())), Shows())
    {
      ghost var i := cur;
      ghost var bound := Before(iter.all[i].key.user);
      if forward {
        var more := LeaveKey();
        if !more {
          valid, savedKey, savedValue := false, 0.0, [];
          BackFrom(iter.all, sequence, -1, i);
          LastIsGreatest(iter.all, sequence, bound, -1);
          return;
        }
        forward := false;
      }
      BackFrom(iter.all, sequence, iter.at, i);
      FindPrevUserEntry(bound);
      LastIsGreatest(iter.all, sequence, bound, if valid then cur else -1);
    }

    /** To the least key of the map at or after the target. */
    method Seek(target: UserKey)
      requires Valid()
      modifies this, iter
      ensures Valid() && IsLeast(Entries(), sequence, From(target), Shows())
    {
      forward, savedValue, savedKey := true, [], target;
      valid := false;
      iter.Seek(LookupKey(target, sequence));
      ForwardFromSeek(iter.all, sequence, target, iter.at, savedKey);
      if iter.current.Some? {
        FindNextUserEntry(false, From(target));
      }
      FirstIsLeast(iter.all, sequence, From(target), if valid then cur else |iter.all|);
    }

    /** To the least key of the map. */
    method SeekToFirst()
      requires Valid()
      modifies this, iter
      ensures Valid() && IsLeast(Entries(), sequence, Any, Shows())
    {
      forward, savedValue, valid := true, [], false;
      iter.SeekToFirst();
      if iter.current.Some? {
        FindNextUserEntry(false, Any);
      }
      FirstIsLeast(iter.all, sequence, Any, if valid then cur else |iter.all|);
    }

    /** To the greatest key of the map. */
    method SeekToLast()
      requires Valid()
      modifies this, iter
      ensures Valid() && IsGreatest(Entries(), sequence, Any, Shows())
    {
      forward, savedValue, valid := false, [], false;
      iter.SeekToLast();
      FindPrevUserEntry(Any);
      LastIsGreatest(iter.all, sequence, Any, if valid then cur else -1);
    }
  }
}
