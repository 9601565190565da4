/** Short keys between two others, for the index of a table (util/comparator.cc, db/dbformat.cc). */
module Separators {
  import opened DbFormat

  /** An encoded internal key: the user key's bytes and the packed sequence number and type. */
  datatype TableKey = TableKey(user: Bytes, tag: nat)

  const MAX_TAG: nat := MAX_SEQUENCE * 256 + 1

  predicate UserLess(a: Bytes, b: Bytes) {
    CompareBytes(a, b) < 0
  }

  /** InternalKeyComparator: increasing user key, then decreasing tag. */
  predicate KeyLess(a: TableKey, b: TableKey) {
    UserLess(a.user, b.user) || (a.user == b.user && a.tag > b.tag)
  }

  predicate KeyLeq(a: TableKey, b: TableKey) {
    a == b || KeyLess(a, b)
  }

  // ---- The bytewise order ----

  lemma UserTotal(a: Bytes, b: Bytes)
    ensures a == b || UserLess(a, b) || UserLess(b, a)
    ensures !(UserLess(a, b) && UserLess(b, a)) && !UserLess(a, a) && (UserLess(a, b) ==> a != b)
  {
    PositionOrder(a, b);
    PositionOrder(b, a);
    PositionOrder(a, a);
  }

  lemma UserTransitive(a: Bytes, b: Bytes, c: Bytes)
    requires UserLess(a, b) && UserLess(b, c)
    ensures UserLess(a, c)
  {
    PositionOrder(a, b);
    PositionOrder(b, c);
    PositionOrder(a, c);
  }

  lemma KeyTotal(a: TableKey, b: TableKey)
    ensures a == b || KeyLess(a, b) || KeyLess(b, a)
    ensures !(KeyLess(a, b) && KeyLess(b, a)) && !KeyLess(a, a)
  {
    UserTotal(a.user, b.user);
    UserTotal(a.user, a.user);
  }

  lemma KeyTransitive(a: TableKey, b: TableKey, c: TableKey)
    requires KeyLess(a, b) && KeyLess(b, c)
    ensures KeyLess(a, c)
  {
    if UserLess(a.user, b.user) && UserLess(b.user, c.user) {
      UserTransitive(a.user, b.user, c.user);
    }
  }

  lemma {:induction false} ComparePrefix(p: Bytes, a: Bytes, b: Bytes)
    ensures CompareBytes(p + a, p + b) == CompareBytes(a, b)
    decreases |p|
  {
    if p == [] {
      assert p + a == a && p + b == b;
    } else {
      assert (p + a)[0] == p[0] && (p + b)[0] == p[0] && (p + a)[1..] == p[1..] + a && (p + b)[1..] == p[1..] + b;
      ComparePrefix(p[1..], a, b);
    }
  }

  /** The first byte that differs decides. */
  lemma FirstDifference(a: Bytes, b: Bytes, i: nat)
    requires i < |a| && i < |b| && a[..i] == b[..i] && a[i] < b[i]
    ensures UserLess(a, b)
  {
    assert a == a[..i] + a[i..] && b == b[..i] + b[i..];
    ComparePrefix(a[..i], a[i..], b[i..]);
  }

  // ---- Separators ----

  /** The strings first differ at place `i`. */
  ghost predicate DifferAt(a: Bytes, b: Bytes, i: nat) {
    i < |a| && i < |b| && a[..i] == b[..i] && a[i] != b[i]
  }

  /** Where the first difference leaves room, the byte there is raised by one and the rest dropped; else nothing
      changes. */
  method FindShortestSeparator(start: Bytes, limit: Bytes) returns (r: Bytes)
    ensures r == start || (UserLess(start, r) && UserLess(r, limit) && |r| <= |start|)
    ensures forall i: nat | DifferAt(start, limit, i) ::
      r == if start[i] < 0xff && start[i] as int + 1 < limit[i] as int
           then start[..i] + [start[i] as int + 1]
           else start
    ensures (forall i: nat :: !DifferAt(start, limit, i)) ==> r == start
  {
    var min := if |start| < |limit| then |start| else |limit|;
    var i := 0;
    while i < min && start[i] == limit[i]
      invariant i <= min && start[..i] == limit[..i]
    {
      assert start[..i + 1] == start[..i] + [start[i]] && limit[..i + 1] == limit[..i] + [limit[i]];
      i := i + 1;
    }
    OneDifference(start, limit, i);
    r := start;
    if i < min {
      assert DifferAt(start, limit, i);
      var b := start[i] as int;
      if b < 0xff && b + 1 < limit[i] as int {
        r := start[..i] + [b + 1];
        assert r[..i] == start[..i];
        FirstDifference(start, r, i);
        FirstDifference(r, limit, i);
      }
    }
  }

  lemma OneDifference(a: Bytes, b: Bytes, i: nat)
    requires i <= |a| && i <= |b| && a[..i] == b[..i] && (i < |a| && i < |b| ==> a[i] != b[i])
    ensures forall j: nat | DifferAt(a, b, j) :: j == i
  {
  }

  /** The first byte that is not 0xff. */
  ghost predicate CanRise(key: Bytes, i: nat) {
    i < |key| && key[i] != 0xff && forall j | 0 <= j < i :: key[j] == 0xff
  }

  /** The first byte that can be raised is, and the rest dropped; a run of 0xff is left alone. */
  method FindShortSuccessor(key: Bytes) returns (r: Bytes)
    ensures r == key || (UserLess(key, r) && |r| <= |key|)
    ensures forall i: nat | CanRise(key, i) :: r == key[..i] + [key[i] as int + 1]
    ensures (forall i: nat :: !CanRise(key, i)) ==> r == key
  {
    for i := 0 to |key|
      invariant forall j | 0 <= j < i :: key[j] == 0xff
    {
      var b := key[i] as int;
      if b != 0xff {
        assert CanRise(key, i);
        r := key[..i] + [b + 1];
        assert r[..i] == key[..i];
        FirstDifference(key, r, i);
        return;
      }
    }
    r := key;
  }

  /** What the index needs of a separator: it lies between the two keys, and it is either the first of them or of a
      user key strictly between theirs. */
  ghost predicate Separates(start: TableKey, limit: TableKey, sep: TableKey) {
    sep == start || (UserLess(start.user, sep.user) && UserLess(sep.user, limit.user) && sep.tag == MAX_TAG)
  }

  ghost predicate Succeeds(start: TableKey, sep: TableKey) {
    sep == start || (UserLess(start.user, sep.user) && sep.tag == MAX_TAG)
  }

  method InternalSeparator(start: TableKey, limit: TableKey) returns (sep: TableKey)
    ensures Separates(start, limit, sep)
    ensures forall i: nat | DifferAt(start.user, limit.user, i) ::
      sep == if start.user[i] < 0xff && start.user[i] as int + 1 < limit.user[i] as int && i + 1 < |start.user|
             then TableKey(start.user[..i] + [start.user[i] as int + 1], MAX_TAG)
             else start
    ensures (forall i: nat :: !DifferAt(start.user, limit.user, i)) ==> sep == start
  {
    var tmp := FindShortestSeparator(start.user, limit.user);
    UserTotal(start.user, start.user);
    sep := start;
    if |tmp| < |start.user| && UserLess(start.user, tmp) {
      UserTotal(start.user, tmp);
      sep := TableKey(tmp, MAX_TAG);
    }
  }

  method InternalSuccessor(key: TableKey) returns (sep: TableKey)
    ensures Succeeds(key, sep)
    ensures forall i: nat | CanRise(key.user, i) ::
      sep == if i + 1 < |key.user| then TableKey(key.user[..i] + [key.user[i] as int + 1], MAX_TAG) else key
    ensures (forall i: nat :: !CanRise(key.user, i)) ==> sep == key
  {
    UserTotal(key.user, key.user);
    var tmp := FindShortSuccessor(key.user);
    sep := key;
    if |tmp| < |key.user| && UserLess(key.user, tmp) {
      sep := TableKey(tmp, MAX_TAG);
    }
  }

  lemma SeparatorBetween(start: TableKey, limit: TableKey, sep: TableKey)
    requires KeyLess(start, limit) && Separates(start, limit, sep)
    ensures KeyLeq(start, sep) && KeyLess(sep, limit)
  {
  }
}
