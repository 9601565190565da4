/** Keys, entries and their order (db/dbformat.h, db/dbformat.cc, util/comparator.cc). */
module DbFormat {

  type Byte = b: int | 0 <= b < 256
  type Bytes = seq<Byte>

  datatype Option<+T> = None | Some(value: T) {
    predicate IsFailure() {
      None?
    }

    function PropagateFailure<U>(): Option<U>
      requires None?
    {
      None
    }

    function Extract(): T
      requires Some?
    {
      value
    }
  }

  /** A user key is known to the engine only through its comparator.  It is modelled by its position in the
      comparator's order, a real number: every total order on byte strings embeds in the reals, and `PositionOrder`
      proves it for the bytewise comparator. */
  type UserKey = real

  datatype ValueType = Deletion | Value

  /** A parsed internal key. */
  datatype IKey = IKey(user: UserKey, sequence: nat, kind: ValueType)

  datatype Entry = Entry(key: IKey, value: Bytes)

  const MAX_SEQUENCE: nat := 0xff_ffff_ffff_ffff

  /** The trailing 64-bit tag of an encoded internal key: sequence number, then type in the low byte. */
  function Tag(k: IKey): nat {
    k.sequence * 256 + (if k.kind.Value? then 1 else 0)
  }

  /** Increasing user key, then decreasing tag. */
  predicate Less(a: IKey, b: IKey) {
    a.user < b.user || (a.user == b.user && Tag(a) > Tag(b))
  }

  predicate Leq(a: IKey, b: IKey) {
    !Less(b, a)
  }

  /** The internal key a lookup of `user` at `snapshot` seeks to. */
  function LookupKey(user: UserKey, snapshot: nat): IKey {
    IKey(user, snapshot, Value)
  }

  // ---- Bytewise comparator ----

  /** Sign of memcmp over the common prefix, then of the lengths. */
  function CompareBytes(a: Bytes, b: Bytes): int {
    if a == [] || b == [] then |a| - |b|
    else if a[0] != b[0] then a[0] - b[0]
    else CompareBytes(a[1..], b[1..])
  }

  /** The position of a byte string: base 257 digits, each byte raised by one so that the end of the string is the
      smallest digit. */
  function Position(s: Bytes): (r: real)
    ensures 0.0 <= r < 1.0
    ensures r == 0.0 <==> s == []
  {
    if s == [] then 0.0 else (s[0] as real + 1.0 + Position(s[1..])) / 257.0
  }

  /** Comparing byte strings is comparing positions. */
  lemma {:induction false} PositionOrder(a: Bytes, b: Bytes)
    ensures CompareBytes(a, b) < 0 <==> Position(a) < Position(b)
    ensures CompareBytes(a, b) == 0 <==> Position(a) == Position(b)
    ensures Position(a) == Position(b) <==> a == b
  {
    if a != [] && b != [] {
      PositionOrder(a[1..], b[1..]);
      assert a == [a[0]] + a[1..] && b == [b[0]] + b[1..];
      if a[0] < b[0] {
        assert a[0] as real + 1.0 <= b[0] as real;
      } else if b[0] < a[0] {
        assert b[0] as real + 1.0 <= a[0] as real;
      }
    }
  }

  lemma Assoc<T>(a: seq<T>, b: seq<T>, c: seq<T>)
    ensures (a + b) + c == a + (b + c)
  {
  }

  // ---- Sorted runs of entries ----

  ghost predicate Sorted(s: seq<Entry>) {
    forall i, j | 0 <= i < j < |s| :: Less(s[i].key, s[j].key)
  }

  ghost function ToSet(s: seq<Entry>): set<Entry> {
    set e | e in s
  }

  /** Position of the first entry at or after `target`, the answer every Seek must give. */
  ghost predicate SeekPosition(s: seq<Entry>, target: IKey, i: nat) {
    && i <= |s|
    && (forall j | 0 <= j < i :: Less(s[j].key, target))
    && (i < |s| ==> Leq(target, s[i].key))
  }
}
