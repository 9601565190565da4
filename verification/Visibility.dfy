/** What a read at a snapshot must return, stated over plain sets of entries, and why layered lookups and compactions
    agree with it. */
module Visibility {
  import opened DbFormat

  ghost predicate Matches(e: Entry, k: UserKey, snap: nat) {
    e.key.user == k && e.key.sequence <= snap
  }

  ghost predicate NoMatch(S: set<Entry>, k: UserKey, snap: nat) {
    forall e | e in S :: !Matches(e, k, snap)
  }

  /** `e` is the entry of `S` with the greatest sequence number not above `snap` for `k`. */
  ghost predicate Newest(S: set<Entry>, k: UserKey, snap: nat, e: Entry) {
    && e in S
    && Matches(e, k, snap)
    && forall x | x in S && Matches(x, k, snap) :: x.key.sequence <= e.key.sequence
  }

  /** A sequence number is used once. */
  ghost predicate OneEntryPerSeq(S: set<Entry>) {
    forall x, y | x in S && y in S && x.key.sequence == y.key.sequence :: x == y
  }

  function Answer(e: Entry): Option<Bytes> {
    if e.key.kind.Value? then Some(e.value) else None
  }

  /** The meaning of a set of entries: what a read of `k` at `snap` returns. */
  ghost function View(S: set<Entry>, k: UserKey, snap: nat): Option<Bytes> {
    if exists e :: Newest(S, k, snap, e) then
      var e :| Newest(S, k, snap, e);
      Answer(e)
    else
      None
  }

  lemma {:induction false} NewestExists(S: set<Entry>, k: UserKey, snap: nat) returns (e: Entry)
    requires !NoMatch(S, k, snap)
    ensures Newest(S, k, snap, e)
    decreases S
  {
    e :| e in S && Matches(e, k, snap);
    if x :| x in S && Matches(x, k, snap) && x.key.sequence > e.key.sequence {
      var T := S - {e};
      assert x in T;
      var y := NewestExists(T, k, snap);
      assert x.key.sequence <= y.key.sequence;
      e := y;
    }
  }

  lemma ViewOfNewest(S: set<Entry>, k: UserKey, snap: nat, e: Entry)
    requires OneEntryPerSeq(S) && Newest(S, k, snap, e)
    ensures View(S, k, snap) == Answer(e)
  {
    var x :| Newest(S, k, snap, x) && View(S, k, snap) == Answer(x);
    assert Newest(S, k, snap, x);
    assert x.key.sequence == e.key.sequence;
  }

  lemma ViewOfNothing(S: set<Entry>, k: UserKey, snap: nat)
    requires NoMatch(S, k, snap)
    ensures View(S, k, snap) == None
  {
  }

  /** For a shared user key, everything in `A` is newer than everything in `B`. */
  ghost predicate Above(A: set<Entry>, B: set<Entry>) {
    forall a, b | a in A && b in B && a.key.user == b.key.user :: a.key.sequence > b.key.sequence
  }

  /** A hit in a newer layer is the answer for both layers. */
  lemma HitInUpper(A: set<Entry>, B: set<Entry>, k: UserKey, snap: nat, e: Entry)
    requires Above(A, B) && Newest(A, k, snap, e)
    ensures Newest(A + B, k, snap, e)
  {
  }

  /** A miss in the newer layer leaves the answer to the older one. */
  lemma MissInUpper(A: set<Entry>, B: set<Entry>, k: UserKey, snap: nat)
    requires NoMatch(A, k, snap) && OneEntryPerSeq(A + B)
    ensures View(A + B, k, snap) == View(B, k, snap)
  {
    if !NoMatch(B, k, snap) {
      var e := NewestExists(B, k, snap);
      assert Newest(A + B, k, snap, e);
      ViewOfNewest(A + B, k, snap, e);
      ViewOfNewest(B, k, snap, e);
    }
  }

  /** Seeking a sorted run to the lookup key finds the newest matching entry, or shows there is none. */
  lemma SeekFindsNewest(s: seq<Entry>, k: UserKey, snap: nat, i: nat)
    requires Sorted(s) && SeekPosition(s, LookupKey(k, snap), i)
    ensures i < |s| && s[i].key.user == k ==> Newest(ToSet(s), k, snap, s[i])
    ensures !(i < |s| && s[i].key.user == k) ==> NoMatch(ToSet(s), k, snap)
  {
    forall x | x in s && Matches(x, k, snap)
      ensures i < |s| && s[i].key.user == k && x.key.sequence <= s[i].key.sequence
    {
      var j :| 0 <= j < |s| && s[j] == x;
      assert Leq(LookupKey(k, snap), x.key);
      assert i <= j;
      if i < j {
        assert Less(s[i].key, s[j].key);
      }
    }
  }

  // ---- Which entries a compaction may drop (db/db_impl.cc:946-960) ----

  /** Rule (A): a newer entry of the same user key is already visible to the oldest snapshot. */
  ghost predicate Hidden(inputs: set<Entry>, oldest: nat, e: Entry) {
    exists x :: x in inputs && x.key.user == e.key.user && e.key.sequence < x.key.sequence <= oldest
  }

  /** The second rule: a deletion no snapshot looks past, at the base level for its key. */
  ghost predicate ObsoleteDeletion(oldest: nat, base: iset<UserKey>, e: Entry) {
    e.key.kind.Deletion? && e.key.sequence <= oldest && e.key.user in base
  }

  ghost function Kept(inputs: set<Entry>, oldest: nat, base: iset<UserKey>): set<Entry> {
    set e | e in inputs && !Hidden(inputs, oldest, e) && !ObsoleteDeletion(oldest, base, e)
  }

  /** Some snapshot that is still read, or one to come, reads the entry. */
  ghost predicate StillRead(inputs: set<Entry>, oldest: nat, e: Entry) {
    exists s: nat :: oldest <= s && Newest(inputs, e.key.user, s, e)
  }

  /** What is kept, and no more: the entries still read, but for deletions no snapshot looks past at the base level. */
  lemma KeptExactly(inputs: set<Entry>, oldest: nat, base: iset<UserKey>, e: Entry)
    requires OneEntryPerSeq(inputs)
    ensures e in Kept(inputs, oldest, base) <==>
            && e in inputs && StillRead(inputs, oldest, e)
            && !(e.key.kind.Deletion? && e.key.sequence <= oldest && e.key.user in base)
  {
    if e in inputs {
      if Hidden(inputs, oldest, e) {
        var x :| x in inputs && x.key.user == e.key.user && e.key.sequence < x.key.sequence <= oldest;
        forall s: nat | oldest <= s ensures !Newest(inputs, e.key.user, s, e) {
          assert Matches(x, e.key.user, s);
        }
      } else {
        var s := if oldest < e.key.sequence then e.key.sequence else oldest;
        assert Newest(inputs, e.key.user, s, e);
      }
    }
  }

  /** Every read at or after `oldest` is the same over both sets. */
  ghost predicate SameReads(S: set<Entry>, T: set<Entry>, oldest: nat) {
    forall k, s | oldest <= s :: View(S, k, s) == View(T, k, s)
  }

  /** The one way a compaction can go wrong: the entry that snapshot `oldest` sees for a user key is a dropped
      deletion, and the entry below it, which is not an input, is a value. */
  ghost predicate Resurrects(rest: set<Entry>, inputs: set<Entry>, oldest: nat, base: iset<UserKey>, e: Entry,
                             x: Entry) {
    && e in inputs
    && ObsoleteDeletion(oldest, base, e)
    && Newest(rest + inputs, e.key.user, oldest, e)
    && Newest(rest, e.key.user, e.key.sequence, x)
    && x.key.kind.Value?
  }

  /** What a compaction leaves for one read: either the same newest entry, or a deletion uncovers the newest older
      entry outside the inputs. */
  lemma {:induction false} KeptNewest(rest: set<Entry>, inputs: set<Entry>, oldest: nat, base: iset<UserKey>,
                                      k: UserKey, s: nat, e: Entry)
    requires OneEntryPerSeq(rest + inputs) && oldest <= s
    requires Newest(rest + inputs, k, s, e)
    ensures var out := rest + Kept(inputs, oldest, base);
            if e in out then Newest(out, k, s, e)
            else
              && e in inputs && ObsoleteDeletion(oldest, base, e) && Newest(rest + inputs, k, oldest, e)
              && (NoMatch(rest, k, e.key.sequence) ==> NoMatch(out, k, s))
              && (forall x :: Newest(rest, k, e.key.sequence, x) ==> Newest(out, k, s, x))
  {
    var out := rest + Kept(inputs, oldest, base);
    if e !in out {
      assert e in inputs;
      assert !Hidden(inputs, oldest, e);
      forall y | y in out && Matches(y, k, s)
        ensures y in rest && y.key.sequence <= e.key.sequence
      {
        assert y in rest + inputs;
        if y !in rest {
          assert false;
        }
      }
    }
  }

  /** A compaction preserves every read at or after the oldest snapshot exactly when no dropped deletion uncovers a
      value. */
  lemma {:induction false} CompactionPreservesReadsIff(rest: set<Entry>, inputs: set<Entry>, oldest: nat,
                                                       base: iset<UserKey>)
    requires OneEntryPerSeq(rest + inputs)
    ensures SameReads(rest + inputs, rest + Kept(inputs, oldest, base), oldest)
            <==> !exists e, x :: Resurrects(rest, inputs, oldest, base, e, x)
  {
    var S, out := rest + inputs, rest + Kept(inputs, oldest, base);
    assert OneEntryPerSeq(out);
    if e, x :| Resurrects(rest, inputs, oldest, base, e, x) {
      ResurrectionChangesRead(rest, inputs, oldest, base, e, x);
    } else {
      forall k, s | oldest <= s ensures View(S, k, s) == View(out, k, s) {
        ReadUnchanged(rest, inputs, oldest, base, k, s);
      }
    }
  }

  lemma ResurrectionChangesRead(rest: set<Entry>, inputs: set<Entry>, oldest: nat, base: iset<UserKey>, e: Entry,
                                x: Entry)
    requires OneEntryPerSeq(rest + inputs) && Resurrects(rest, inputs, oldest, base, e, x)
    ensures View(rest + inputs, e.key.user, oldest) != View(rest + Kept(inputs, oldest, base), e.key.user, oldest)
  {
    var S, out := rest + inputs, rest + Kept(inputs, oldest, base);
    var k := e.key.user;
    ViewOfNewest(S, k, oldest, e);
    KeptNewest(rest, inputs, oldest, base, k, oldest, e);
    assert e !in rest by {
      if e in rest {
        assert Matches(e, k, e.key.sequence);
        assert false;
      }
    }
    assert e !in out;
    assert Newest(out, k, oldest, x);
    ViewOfNewest(out, k, oldest, x);
  }

  lemma ReadUnchanged(rest: set<Entry>, inputs: set<Entry>, oldest: nat, base: iset<UserKey>, k: UserKey, s: nat)
    requires OneEntryPerSeq(rest + inputs) && oldest <= s
    requires !exists e, x :: Resurrects(rest, inputs, oldest, base, e, x)
    ensures View(rest + inputs, k, s) == View(rest + Kept(inputs, oldest, base), k, s)
  {
    var S, out := rest + inputs, rest + Kept(inputs, oldest, base);
    if NoMatch(S, k, s) {
      assert NoMatch(out, k, s);
    } else {
      var e := NewestExists(S, k, s);
      ViewOfNewest(S, k, s, e);
      KeptNewest(rest, inputs, oldest, base, k, s, e);
      if e in out {
        ViewOfNewest(out, k, s, e);
      } else if NoMatch(rest, k, e.key.sequence) {
        ViewOfNothing(out, k, s);
      } else {
        var x := NewestExists(rest, k, e.key.sequence);
        assert Newest(out, k, s, x);
        ViewOfNewest(out, k, s, x);
        assert !Resurrects(rest, inputs, oldest, base, e, x);
      }
    }
  }
}
