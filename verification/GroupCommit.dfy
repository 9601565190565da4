/** The writer queue: one leader commits a group of batches on behalf of those waiting behind it (DBImpl::Write and
    DBImpl::BuildBatchGroup). */
module GroupCommit {
  import opened DbFormat
  import opened History

  datatype Status = Ok | Error

  /** What a writer is told, and who led the group it was told in. */
  datatype Ack = Ack(status: Status, leader: nat)

  /** A call of Write; a writer without a batch only asks for a memtable switch. */
  datatype Writer = Writer(batch: Option<seq<Op>>, bytes: nat, sync: bool, ack: Option<Ack>)

  /** What the writer at the front of the queue is doing. */
  datatype Phase =
    | NoLeader
    | MakingRoom
    | Logging(members: nat, first: nat, ops: seq<Op>)
    | Waking(members: nat, status: Status, last: nat)

  /** What a writer's batch came to: the sequence numbers it took, none if it was not tried, and its fate. */
  datatype Fate = Fate(first: nat, count: nat, applied: bool, synced: bool)

  /** Writers are numbered in the order they join the queue; the queue is writers[head..].  `fates` is a record, one
      for each writer dealt with so far, that the protocol itself does not look at; the first `durable` records of the
      log are known to be synced. */
  datatype State = State(writers: seq<Writer>, head: nat, phase: Phase, lastSequence: nat, bgError: bool,
                         log: seq<Record>, durable: nat, mem: seq<Entry>, fates: seq<Fate>)

  datatype Outcome = Logged | AppendFails | SyncFails

  datatype Step =
    | Enqueue(batch: Option<seq<Op>>, bytes: nat, sync: bool)
    | Lead
    | Room(ok: bool)
    | Commit(outcome: Outcome)
    | Wake

  // ---- Building a group ----

  const MAX_GROUP: nat := 0x10_0000
  const SMALL_GROUP: nat := 0x2_0000

  function MaxSize(bytes: nat): nat {
    if bytes <= SMALL_GROUP then bytes + SMALL_GROUP else MAX_GROUP
  }

  function BatchOps(w: Writer): seq<Op> {
    if w.batch.Some? then w.batch.value else []
  }

  /** The operations of the `n` writers from `head` on, in order. */
  function OpsOf(writers: seq<Writer>, head: nat, n: nat): seq<Op>
    requires head + n <= |writers|
  {
    if n == 0 then [] else OpsOf(writers, head, n - 1) + BatchOps(writers[head + n - 1])
  }

  function BytesOf(writers: seq<Writer>, head: nat, n: nat): nat
    requires head + n <= |writers|
  {
    if n == 0 then 0
    else BytesOf(writers, head, n - 1) + (if writers[head + n - 1].batch.Some? then writers[head + n - 1].bytes else 0)
  }

  /** The writer after the first `n` may not join them. */
  predicate Stops(writers: seq<Writer>, head: nat, n: nat)
    requires head + n < |writers|
  {
    var first, next := writers[head], writers[head + n];
    (next.sync && !first.sync) || (next.batch.Some? && BytesOf(writers, head, n) + next.bytes > MaxSize(first.bytes))
  }

  /** The first `n` writers of the queue form the group: as many as may join. */
  ghost predicate IsGroup(writers: seq<Writer>, head: nat, n: nat) {
    && 0 < n && head + n <= |writers|
    && (forall i | 0 < i < n :: !Stops(writers, head, i))
    && (head + n < |writers| ==> Stops(writers, head, n))
  }

  /** The queue is writers[head..], its first with a batch. */
  method BuildBatchGroup(writers: seq<Writer>, head: nat) returns (n: nat, ops: seq<Op>)
    requires head < |writers| && writers[head].batch.Some?
    ensures IsGroup(writers, head, n) && ops == OpsOf(writers, head, n)
  {
    var first := writers[head];
    var size, maxSize := first.bytes, MaxSize(first.bytes);
    ops := first.batch.value;
    n := 1;
    assert OpsOf(writers, head, 0) == [];
    while head + n < |writers|
      invariant 0 < n && head + n <= |writers| && size == BytesOf(writers, head, n) && ops == OpsOf(writers, head, n)
      invariant forall i | 0 < i < n :: !Stops(writers, head, i)
    {
      var w := writers[head + n];
      if w.sync && !first.sync {
        break;
      }
      if w.batch.Some? {
        size := size + w.bytes;
        if size > maxSize {
          break;
        }
        ops := ops + w.batch.value;
      }
      n := n + 1;
    }
  }

  /** The summed sizes of the batches of writers `from` to `to - 1`. */
  ghost function SizeOf(writers: seq<Writer>, from: nat, to: nat): nat
    requires from <= to <= |writers|
    decreases |writers| - from
  {
    if from == to then 0
    else (if writers[from].batch.Some? then writers[from].bytes else 0) + SizeOf(writers, from + 1, to)
  }

  lemma {:induction false} SizeOnEnd(writers: seq<Writer>, from: nat, to: nat)
    requires from <= to < |writers|
    ensures SizeOf(writers, from, to + 1) ==
            SizeOf(writers, from, to) + (if writers[to].batch.Some? then writers[to].bytes else 0)
    decreases |writers| - from
  {
    if from < to {
      SizeOnEnd(writers, from + 1, to);
    }
  }

  lemma {:induction false} BytesAreSize(writers: seq<Writer>, head: nat, n: nat)
    requires head + n <= |writers|
    ensures BytesOf(writers, head, n) == SizeOf(writers, head, head + n)
    decreases n
  {
    if n > 0 {
      BytesAreSize(writers, head, n - 1);
      SizeOnEnd(writers, head, head + n - 1);
    }
  }

  /** What a group is: a leader of up to 128 KB takes up to 128 KB more, a larger one fills up to 1 MB; no sync writer
      is led by one that does not sync; and the group ends only at the end of the queue or before a writer that would
      break one of these rules. */
  lemma GroupExactly(writers: seq<Writer>, head: nat, n: nat)
    requires head < |writers| && writers[head].batch.Some? && 0 < n && head + n <= |writers|
    ensures var leader := writers[head];
            var limit := (if leader.bytes <= 131072 then leader.bytes + 131072 else 1048576);
            IsGroup(writers, head, n) <==>
            && (forall w: nat | head < w < head + n :: Joins(writers, head, w, limit))
            && (head + n < |writers| ==> !Joins(writers, head, head + n, limit))
  {
    var limit := MaxSize(writers[head].bytes);
    forall i: nat | 0 < i <= n && head + i < |writers|
      ensures Stops(writers, head, i) <==> !Joins(writers, head, head + i, limit)
    {
      BytesAreSize(writers, head, i);
      SizeOnEnd(writers, head, head + i);
    }
    if forall w: nat | head < w < head + n :: Joins(writers, head, w, limit) {
      forall i | 0 < i < n ensures !Stops(writers, head, i) {
        assert Joins(writers, head, head + i, limit);
      }
    }
    if forall i | 0 < i < n :: !Stops(writers, head, i) {
      forall w: nat | head < w < head + n ensures Joins(writers, head, w, limit) {
        assert !Stops(writers, head, w - head);
      }
    }
  }

  /** Writer `w` may join the group of all before it. */
  ghost predicate Joins(writers: seq<Writer>, head: nat, w: nat, limit: nat)
    requires head < w < |writers|
  {
    && (writers[w].sync ==> writers[head].sync)
    && (writers[w].batch.Some? ==> SizeOf(writers, head, w + 1) <= limit)
  }

  /** So the batches of a group come to no more than the limit, or the leader's own batch alone is larger. */
  lemma {:induction false} GroupWithin(writers: seq<Writer>, head: nat, n: nat)
    requires head < |writers| && writers[head].batch.Some? && IsGroup(writers, head, n)
    ensures var leader := writers[head];
            var limit := if leader.bytes <= 131072 then leader.bytes + 131072 else 1048576;
            SizeOf(writers, head, head + n) <= limit || SizeOf(writers, head, head + n) == leader.bytes
  {
    GroupExactly(writers, head, n);
    MembersWithin(writers, head, n, MaxSize(writers[head].bytes));
  }

  lemma {:induction false} MembersWithin(writers: seq<Writer>, head: nat, n: nat, limit: nat)
    requires 0 < n && head + n <= |writers| && writers[head].batch.Some?
    requires forall w: nat | head < w < head + n :: Joins(writers, head, w, limit)
    ensures SizeOf(writers, head, head + n) <= limit || SizeOf(writers, head, head + n) == writers[head].bytes
    decreases n
  {
    if n == 1 {
      assert SizeOf(writers, head + 1, head + 1) == 0;
    } else {
      MembersWithin(writers, head, n - 1, limit);
      assert Joins(writers, head, head + (n - 1), limit);
      SizeOnEnd(writers, head, head + n - 1);
    }
  }

  // ---- The protocol ----

  /** InsertInto: consecutive sequence numbers from `first`. */
  function NumberedFrom(first: nat, ops: seq<Op>): seq<Entry> {
    seq(|ops|, i requires 0 <= i < |ops| => EntryOf(ops[i], first + i))
  }

  /** The fate of a member of a group: its batch has its share of the group's numbers. */
  ghost predicate IsFate(fates: seq<Fate>, writers: seq<Writer>, head: nat, id: nat, first: nat, applied: bool,
                         synced: bool)
    requires head <= id < |writers| && id < |fates|
  {
    fates[id] == Fate(first + |OpsOf(writers, head, id - head)|, |BatchOps(writers[id])|, applied, synced)
  }

  /** The fates of the `n` writers after those already dealt with. */
  ghost predicate Fates(fates: seq<Fate>, fates': seq<Fate>, writers: seq<Writer>, n: nat, first: nat, applied: bool,
                        synced: bool) {
    && fates <= fates' && |fates'| == |fates| + n <= |writers|
    && forall id: nat | |fates| <= id < |fates'| :: IsFate(fates', writers, |fates|, id, first, applied, synced)
  }

  function Acknowledged(writers: seq<Writer>, from: nat, n: nat, ack: Ack): seq<Writer>
    requires from + n <= |writers|
  {
    seq(|writers|, i requires 0 <= i < |writers| =>
      if from <= i < from + n then writers[i].(ack := Some(ack)) else writers[i])
  }

  ghost predicate Next(s: State, s': State, step: Step) {
    s.head <= |s.writers| &&
    match step
    case Enqueue(batch, bytes, sync) => s' == s.(writers := s.writers + [Writer(batch, bytes, sync, None)])
    case Lead => s.phase.NoLeader? && s.head < |s.writers| && s' == s.(phase := MakingRoom)
    case Room(ok) =>
      && s.phase.MakingRoom? && s.head < |s.writers| && (s.bgError ==> !ok)
      && if ok && s.writers[s.head].batch.Some? then
           s'.phase.Logging? && IsGroup(s.writers, s.head, s'.phase.members)
           && s' == s.(phase := Logging(s'.phase.members, s.lastSequence + 1,
               OpsOf(s.writers, s.head, s'.phase.members)))
         else
           s' == s.(phase := Waking(1, StatusOf(ok), s.lastSequence),
               fates := s.fates + [Fate(s.lastSequence + 1, 0, false, false)])
    case Commit(outcome) =>
      && s.phase.Logging? && 0 < s.phase.members && s.head + s.phase.members <= |s.writers| && s.phase.first > 0
      && (outcome.SyncFails? ==> s.writers[s.head].sync)
      && var n, first, ops, ok := s.phase.members, s.phase.first, s.phase.ops, outcome.Logged?;
         && Fates(s.fates, s'.fates, s.writers, n, first, ok, ok && s.writers[s.head].sync)
         && s' == s.(log := if outcome.AppendFails? then s.log else s.log + [Record(first, ops)],
                  durable := if ok && s.writers[s.head].sync then |s.log| + 1 else s.durable,
                  mem := s.mem + EntriesIf(ok, first, ops),
                  bgError := s.bgError || outcome.SyncFails?,
                  fates := s'.fates,
                  phase := Waking(n, StatusOf(ok), first + |ops| - 1))
    case Wake =>
      && s.phase.Waking? && s.head + s.phase.members <= |s.writers|
      && s' == s.(writers := Acknowledged(s.writers, s.head, s.phase.members, Ack(s.phase.status, s.head)),
                  head := s.head + s.phase.members, lastSequence := s.phase.last, phase := NoLeader)
  }

  function StatusOf(ok: bool): Status {
    if ok then Ok else Error
  }

  // ---- What every step keeps ----

  /** Writer `i + 1` takes its numbers from where writer `i` stopped. */
  ghost predicate Follows(fates: seq<Fate>, i: nat)
    requires i + 1 < |fates|
  {
    fates[i + 1].first == fates[i].first + fates[i].count
  }

  /** In queue order, the writers take the sequence numbers 1 to `last`, each from where the one before it stopped. */
  ghost predicate Chained(fates: seq<Fate>, last: nat) {
    && (forall i: nat | i + 1 < |fates| :: Follows(fates, i))
    && (if fates == [] then last == 0 else fates[0].first == 1
                                           && last + 1 == fates[|fates| - 1].first + fates[|fates| - 1].count)
  }

  /** A batch that was applied took as many numbers as it has operations. */
  ghost predicate Counted(fates: seq<Fate>, writers: seq<Writer>) {
    |fates| <= |writers| && forall i: nat | i < |fates| :: CountedAt(fates[i], writers, i)
  }

  ghost predicate CountedAt(f: Fate, writers: seq<Writer>, i: nat)
    requires i < |writers|
  {
    f.applied ==> f.count == |BatchOps(writers[i])|
  }

  /** The entries of the first `n` writers' batches, those applied, each once and at its own numbers. */
  ghost function Applied(fates: seq<Fate>, writers: seq<Writer>, n: nat): seq<Entry>
    requires n <= |fates| <= |writers|
  {
    if n == 0 then []
    else Applied(fates, writers, n - 1) + EntriesIf(fates[n - 1].applied, fates[n - 1].first, BatchOps(writers[n - 1]))
  }

  function EntriesIf(applied: bool, first: nat, ops: seq<Op>): seq<Entry> {
    if applied then NumberedFrom(first, ops) else []
  }

  /** A status and a fate agree: Ok for a batch that was applied, and synced if that was asked for; else not applied. */
  ghost predicate Told(fates: seq<Fate>, writers: seq<Writer>, id: nat, st: Status)
    requires id < |fates| && id < |writers|
  {
    && (writers[id].batch.Some? && st.Ok? ==> fates[id].applied && (writers[id].sync ==> fates[id].synced))
    && (st.Error? ==> !fates[id].applied)
  }

  /** What a writer is told is true of it, and is what its leader is told. */
  ghost predicate AckOk(writers: seq<Writer>, fates: seq<Fate>, id: nat)
    requires id < |fates| && id < |writers|
  {
    match writers[id].ack
    case None => true
    case Some(Ack(st, leader)) =>
      && Told(fates, writers, id, st)
      && leader <= id && writers[leader].ack == Some(Ack(st, leader)) && (writers[id].sync ==> writers[leader].sync)
  }

  /** The numbers given out, counting those of the group in hand. */
  ghost function Last(s: State): nat {
    if s.phase.Waking? then s.phase.last else s.lastSequence
  }

  /** How many writers have been dealt with. */
  ghost function Dealt(s: State): nat {
    if s.phase.Waking? then s.head + s.phase.members else s.head
  }

  /** A group of `n`: none waits for a sync that its leader does not do. */
  ghost predicate Members(writers: seq<Writer>, head: nat, n: nat) {
    0 < n && head + n <= |writers| && forall i | head <= i < head + n :: writers[i].sync ==> writers[head].sync
  }

  ghost predicate PhaseOk(s: State)
    requires s.head <= |s.writers| && |s.fates| == Dealt(s)
  {
    match s.phase
    case NoLeader => true
    case MakingRoom => s.head < |s.writers|
    case Logging(n, first, ops) => Members(s.writers, s.head, n) && first == s.lastSequence + 1
      && ops == OpsOf(s.writers, s.head, n)
    case Waking(n, st, last) => Members(s.writers, s.head, n) && forall i | s.head <= i < s.head + n ::
        Told(s.fates, s.writers, i, st)
  }

  /** The sequence numbers and the memtable account for exactly the batches applied. */
  ghost predicate Books(fates: seq<Fate>, writers: seq<Writer>, mem: seq<Entry>, last: nat) {
    Chained(fates, last) && Counted(fates, writers) && mem == Applied(fates, writers, |fates|)
  }

  /** The record holds these operations at these sequence numbers. */
  ghost predicate Holds(r: Record, first: nat, ops: seq<Op>) {
    r.first <= first && first - r.first + |ops| <= |r.ops| && r.ops[first - r.first..first - r.first + |ops|] == ops
  }

  /** A batch that was applied is in the log at its own numbers, in a synced record if it counts as synced. */
  ghost predicate LoggedAt(f: Fate, ops: seq<Op>, log: seq<Record>, durable: nat) {
    f.applied ==> exists j: nat :: j < |log| && Holds(log[j], f.first, ops) && (f.synced ==> j < durable)
  }

  ghost predicate InLog(fates: seq<Fate>, writers: seq<Writer>, log: seq<Record>, durable: nat) {
    |fates| <= |writers| && durable <= |log| && forall i: nat | i < |fates| ::
        LoggedAt(fates[i], BatchOps(writers[i]), log, durable)
  }

  ghost predicate Inv(s: State) {
    && s.head <= |s.writers| && (forall id | 0 <= id < |s.writers| :: s.writers[id].ack.Some? <==> id < s.head)
    && |s.fates| == Dealt(s) && PhaseOk(s)
    && Books(s.fates, s.writers, s.mem, Last(s)) && InLog(s.fates, s.writers, s.log, s.durable)
    && forall id | 0 <= id < s.head :: AckOk(s.writers, s.fates, id)
  }

  /** Batches do not change. */
  ghost predicate SameBatches(ws: seq<Writer>, ws': seq<Writer>) {
    |ws| <= |ws'| && forall i | 0 <= i < |ws| :: ws'[i].batch == ws[i].batch && ws'[i].sync == ws[i].sync
  }

  lemma {:induction false} AppliedStays(fates: seq<Fate>, ws: seq<Writer>, fates': seq<Fate>, ws': seq<Writer>, n: nat)
    requires n <= |fates| <= |ws| && |fates'| <= |ws'| && fates <= fates' && SameBatches(ws, ws')
    ensures Applied(fates', ws', n) == Applied(fates, ws, n)
  {
    if n > 0 {
      AppliedStays(fates, ws, fates', ws', n - 1);
    }
  }

  lemma BooksStay(fates: seq<Fate>, ws: seq<Writer>, ws': seq<Writer>, mem: seq<Entry>, last: nat)
    requires Books(fates, ws, mem, last) && SameBatches(ws, ws')
    ensures Books(fates, ws', mem, last)
  {
    AppliedStays(fates, ws, fates, ws', |fates|);
  }

  lemma LogStays(fates: seq<Fate>, ws: seq<Writer>, ws': seq<Writer>, log: seq<Record>, durable: nat)
    requires InLog(fates, ws, log, durable) && SameBatches(ws, ws')
    ensures InLog(fates, ws', log, durable)
  {
    forall i: nat | i < |fates| ensures LoggedAt(fates[i], BatchOps(ws'[i]), log, durable) {
      assert LoggedAt(fates[i], BatchOps(ws[i]), log, durable);
    }
  }

  lemma LogSkips(fates: seq<Fate>, writers: seq<Writer>, log: seq<Record>, durable: nat, f: Fate)
    requires InLog(fates, writers, log, durable) && |fates| < |writers| && !f.applied
    ensures InLog(fates + [f], writers, log, durable)
  {
    var fates' := fates + [f];
    forall i: nat | i < |fates'| ensures LoggedAt(fates'[i], BatchOps(writers[i]), log, durable) {
      if i < |fates| {
        assert LoggedAt(fates[i], BatchOps(writers[i]), log, durable);
      }
    }
  }

  lemma {:induction false} OpsStay(ws: seq<Writer>, ws': seq<Writer>, head: nat, n: nat)
    requires SameBatches(ws, ws') && head + n <= |ws|
    ensures OpsOf(ws', head, n) == OpsOf(ws, head, n)
  {
    if n > 0 {
      OpsStay(ws, ws', head, n - 1);
    }
  }

  lemma EnqueueKeeps(s: State, s': State, step: Step)
    requires Inv(s) && step.Enqueue? && Next(s, s', step)
    ensures Inv(s')
  {
    BooksStay(s.fates, s.writers, s'.writers, s.mem, Last(s));
    LogStays(s.fates, s.writers, s'.writers, s.log, s.durable);
    if s.phase.Logging? {
      OpsStay(s.writers, s'.writers, s.head, s.phase.members);
    }
    if s.phase.Waking? {
      forall i | s.head <= i < s.head + s.phase.members ensures Told(s.fates, s'.writers, i, s.phase.status) {
        assert Told(s.fates, s.writers, i, s.phase.status);
      }
    }
    forall id | 0 <= id < s'.head ensures AckOk(s'.writers, s'.fates, id) {
      assert AckOk(s.writers, s.fates, id);
    }
  }

  lemma LeadKeeps(s: State, s': State)
    requires Inv(s) && Next(s, s', Lead)
    ensures Inv(s')
  {
  }

  // ---- Making room ----

  lemma AcksStay(writers: seq<Writer>, fates: seq<Fate>, fates': seq<Fate>, head: nat)
    requires head <= |fates| && head <= |writers| && fates <= fates' && forall id | 0 <= id < head ::
             AckOk(writers, fates, id)
    ensures forall id | 0 <= id < head :: AckOk(writers, fates', id)
  {
    forall id | 0 <= id < head ensures AckOk(writers, fates', id) {
      assert AckOk(writers, fates, id);
    }
  }

  lemma RoomKeeps(s: State, s': State, step: Step)
    requires Inv(s) && step.Room? && Next(s, s', step)
    ensures Inv(s')
  {
    if s'.phase.Logging? {
      GroupIsMembers(s.writers, s.head, s'.phase.members);
    } else {
      RoomSkips(s, s', step);
    }
  }

  lemma RoomSkips(s: State, s': State, step: Step)
    requires Inv(s) && step.Room? && Next(s, s', step) && s'.phase.Waking?
    ensures Inv(s')
  {
    BooksSkip(s.fates, s.writers, s.mem, s.lastSequence);
    LogSkips(s.fates, s.writers, s.log, s.durable, Fate(s.lastSequence + 1, 0, false, false));
    AcksStay(s.writers, s.fates, s'.fates, s.head);
  }

  lemma GroupIsMembers(writers: seq<Writer>, head: nat, n: nat)
    requires IsGroup(writers, head, n)
    ensures Members(writers, head, n)
  {
    forall i | head <= i < head + n ensures writers[i].sync ==> writers[head].sync {
      if i > head {
        assert !Stops(writers, head, i - head);
      }
    }
  }

  /** A writer that gets no numbers. */
  lemma BooksSkip(fates: seq<Fate>, writers: seq<Writer>, mem: seq<Entry>, last: nat)
    requires Books(fates, writers, mem, last) && |fates| < |writers|
    ensures Books(fates + [Fate(last + 1, 0, false, false)], writers, mem, last)
  {
    var fates' := fates + [Fate(last + 1, 0, false, false)];
    forall i: nat | i + 1 < |fates'| ensures Follows(fates', i) {
      if i + 1 < |fates| {
        assert Follows(fates, i);
      }
    }
    AppliedStays(fates, writers, fates', writers, |fates|);
    assert mem + [] == mem;
  }

  // ---- Committing ----

  /** A group's fates carry the chain on. */
  lemma GroupChains(fates: seq<Fate>, fates': seq<Fate>, writers: seq<Writer>, n: nat, first: nat, applied: bool,
                    synced: bool)
    requires 0 < first && Chained(fates, first - 1) && 0 < n && Fates(fates, fates', writers, n, first, applied, synced)
    ensures Chained(fates', first - 1 + |OpsOf(writers, |fates|, n)|)
  {
    forall i: nat | i + 1 < |fates'| ensures Follows(fates', i) {
      if i + 1 >= |fates| {
        assert IsFate(fates', writers, |fates|, i + 1, first, applied, synced);
      }
      if i >= |fates| {
        assert IsFate(fates', writers, |fates|, i, first, applied, synced);
        NextOps(writers, |fates|, i - |fates|);
      } else if i + 1 < |fates| {
        assert Follows(fates, i);
      }
    }
    assert IsFate(fates', writers, |fates|, |fates|, first, applied, synced)
           && IsFate(fates', writers, |fates|, |fates| + n - 1, first, applied, synced);
    NextOps(writers, |fates|, n - 1);
  }

  lemma NextOps(writers: seq<Writer>, head: nat, n: nat)
    requires head + n < |writers|
    ensures OpsOf(writers, head, n + 1) == OpsOf(writers, head, n) + BatchOps(writers[head + n])
  {
  }

  /** The entries of the first `k` of a group that is applied are those of their operations. */
  lemma {:induction false} GroupEntries(fates': seq<Fate>, writers: seq<Writer>, head: nat, before: seq<Entry>,
                                        first: nat,
                                        applied: bool, synced: bool, k: nat)
    requires head + k <= |fates'| <= |writers| && before == Applied(fates', writers, head)
    requires forall id: nat | head <= id < head + k :: IsFate(fates', writers, head, id, first, applied, synced)
    ensures Applied(fates', writers, head + k) == before + EntriesIf(applied, first, OpsOf(writers, head, k))
  {
    if k == 0 {
      NoEntries(before, applied, first);
    } else {
      var m := k - 1;
      GroupEntries(fates', writers, head, before, first, applied, synced, m);
      assert IsFate(fates', writers, head, head + m, first, applied, synced);
      NextEntries(fates', writers, head, m, before, first, applied, synced);
    }
  }

  lemma NoEntries(es: seq<Entry>, applied: bool, first: nat)
    ensures es + EntriesIf(applied, first, []) == es
  {
  }

  lemma NextEntries(fates': seq<Fate>, writers: seq<Writer>, head: nat, k: nat, before: seq<Entry>, first: nat,
                    applied: bool, synced: bool)
    requires head + k < |fates'| <= |writers| && IsFate(fates', writers, head, head + k, first, applied, synced)
    requires Applied(fates', writers, head + k) == before + EntriesIf(applied, first, OpsOf(writers, head, k))
    ensures Applied(fates', writers, head + k + 1) == before + EntriesIf(applied, first, OpsOf(writers, head, k + 1))
  {
    OneMoreEntry(fates', writers, head + k, before, OpsOf(writers, head, k), first);
    NextOps(writers, head, k);
  }

  lemma OneMoreEntry(fates: seq<Fate>, writers: seq<Writer>, id: nat, before: seq<Entry>, ops: seq<Op>, first: nat)
    requires id < |fates| <= |writers| && fates[id].first == first + |ops|
    requires Applied(fates, writers, id) == before + EntriesIf(fates[id].applied, first, ops)
    ensures Applied(fates, writers, id + 1) == before + EntriesIf(fates[id].applied, first, ops + BatchOps(writers[id]))
  {
    if fates[id].applied {
      NumberedJoin(first, ops, BatchOps(writers[id]));
      Assoc(before, NumberedFrom(first, ops), NumberedFrom(first + |ops|, BatchOps(writers[id])));
    }
  }

  lemma NumberedJoin(first: nat, a: seq<Op>, b: seq<Op>)
    ensures NumberedFrom(first, a + b) == NumberedFrom(first, a) + NumberedFrom(first + |a|, b)
  {
  }

  lemma CommitBooks(s: State, s': State, step: Step)
    requires s.head <= |s.writers| && |s.fates| == Dealt(s) && PhaseOk(s)
             && Books(s.fates, s.writers, s.mem, s.lastSequence)
    requires step.Commit? && Next(s, s', step)
    ensures Books(s'.fates, s'.writers, s'.mem, Last(s'))
  {
    var ok := step.outcome.Logged?;
    BooksGroup(s.fates, s'.fates, s.writers, s.mem, s.phase.members, s.lastSequence, ok, ok && s.writers[s.head].sync);
  }

  ghost predicate StretchAt(ops: seq<Op>, at: nat, batch: seq<Op>) {
    at + |batch| <= |ops| && ops[at..at + |batch|] == batch
  }

  lemma AtFront(a: seq<Op>, b: seq<Op>, at: nat, batch: seq<Op>)
    requires StretchAt(a, at, batch)
    ensures StretchAt(a + b, at, batch)
  {
  }

  lemma AtBack(a: seq<Op>, b: seq<Op>)
    ensures StretchAt(a + b, |a|, b)
  {
  }

  /** The batch of a member is a stretch of the group's operations. */
  lemma {:induction false} BatchInGroup(writers: seq<Writer>, head: nat, n: nat, k: nat)
    requires k < n && head + n <= |writers|
    ensures StretchAt(OpsOf(writers, head, n), |OpsOf(writers, head, k)|, BatchOps(writers[head + k]))
    decreases n
  {
    var before, last := OpsOf(writers, head, n - 1), BatchOps(writers[head + n - 1]);
    if k < n - 1 {
      BatchInGroup(writers, head, n - 1, k);
      AtFront(before, last, |OpsOf(writers, head, k)|, BatchOps(writers[head + k]));
    } else {
      AtBack(before, last);
    }
  }

  lemma LoggedStays(f: Fate, ops: seq<Op>, log: seq<Record>, durable: nat, log': seq<Record>, durable': nat)
    requires LoggedAt(f, ops, log, durable) && log <= log' && durable <= durable'
    ensures LoggedAt(f, ops, log', durable')
  {
    if f.applied {
      var j: nat :| j < |log| && Holds(log[j], f.first, ops) && (f.synced ==> j < durable);
      assert log'[j] == log[j];
    }
  }

  /** A member of a group that is applied is in the group's record, the last one. */
  lemma MemberLogged(fates': seq<Fate>, writers: seq<Writer>, head: nat, n: nat, id: nat, first: nat, synced: bool,
                     log: seq<Record>)
    requires head <= id < head + n <= |writers| && id < |fates'|
             && IsFate(fates', writers, head, id, first, true, synced)
    ensures LoggedAt(fates'[id], BatchOps(writers[id]), log + [Record(first, OpsOf(writers, head, n))],
              if synced then |log| + 1 else 0)
  {
    var r := Record(first, OpsOf(writers, head, n));
    BatchInGroup(writers, head, n, id - head);
    assert (log + [r])[|log|] == r && Holds(r, fates'[id].first, BatchOps(writers[id]));
  }

  lemma CommitLog(s: State, s': State, step: Step)
    requires s.head <= |s.writers| && |s.fates| == Dealt(s) && PhaseOk(s) && InLog(s.fates, s.writers, s.log, s.durable)
    requires step.Commit? && Next(s, s', step)
    ensures InLog(s'.fates, s'.writers, s'.log, s'.durable)
  {
    var n, first, ok := s.phase.members, s.phase.first, step.outcome.Logged?;
    GroupLogged(s.fates, s'.fates, s.writers, n, first, ok, ok
      && s.writers[s.head].sync, s.log, s.durable, s'.log, s'.durable);
  }

  lemma GroupLogged(fates: seq<Fate>, fates': seq<Fate>, writers: seq<Writer>, n: nat, first: nat, ok: bool,
                    synced: bool,
                    log: seq<Record>, durable: nat, log': seq<Record>, durable': nat)
    requires InLog(fates, writers, log, durable) && Fates(fates, fates', writers, n, first, ok, synced)
             && (synced ==> ok)
    requires log <= log' && (ok ==> log' == log + [Record(first, OpsOf(writers, |fates|, n))])
    requires durable' == if synced then |log| + 1 else durable
    ensures InLog(fates', writers, log', durable')
  {
    forall i: nat | i < |fates'| ensures LoggedAt(fates'[i], BatchOps(writers[i]), log', durable') {
      if i < |fates| {
        LoggedStays(fates[i], BatchOps(writers[i]), log, durable, log', durable');
      } else {
        assert IsFate(fates', writers, |fates|, i, first, ok, synced);
        if ok {
          MemberLogged(fates', writers, |fates|, n, i, first, synced, log);
        }
      }
    }
  }

  lemma CommitPhase(s: State, s': State, step: Step)
    requires s.head <= |s.writers| && |s.fates| == Dealt(s) && PhaseOk(s) && step.Commit? && Next(s, s', step)
    ensures |s'.fates| == Dealt(s') && PhaseOk(s')
  {
    MembersTold(s.fates, s'.fates, s.writers, s.phase.members, s.phase.first, step.outcome.Logged?);
  }

  lemma CommitKeeps(s: State, s': State, step: Step)
    requires Inv(s) && step.Commit? && Next(s, s', step)
    ensures Inv(s')
  {
    CommitBooks(s, s', step);
    CommitLog(s, s', step);
    CommitPhase(s, s', step);
    AcksStay(s.writers, s.fates, s'.fates, s.head);
  }

  lemma BooksGroup(fates: seq<Fate>, fates': seq<Fate>, writers: seq<Writer>, mem: seq<Entry>, n: nat, last: nat,
                   ok: bool, synced: bool)
    requires Books(fates, writers, mem, last) && 0 < n && Fates(fates, fates', writers, n, last + 1, ok, synced)
    ensures Books(fates', writers, mem + EntriesIf(ok, last + 1, OpsOf(writers, |fates|, n)),
              last + |OpsOf(writers, |fates|, n)|)
  {
    GroupChains(fates, fates', writers, n, last + 1, ok, synced);
    AppliedStays(fates, writers, fates', writers, |fates|);
    GroupEntries(fates', writers, |fates|, mem, last + 1, ok, synced, n);
    GroupCounts(fates, fates', writers, n, last + 1, ok, synced);
  }

  lemma GroupCounts(fates: seq<Fate>, fates': seq<Fate>, writers: seq<Writer>, n: nat, first: nat, ok: bool,
                    synced: bool)
    requires Counted(fates, writers) && Fates(fates, fates', writers, n, first, ok, synced)
    ensures Counted(fates', writers)
  {
    forall i: nat | i < |fates'| ensures CountedAt(fates'[i], writers, i) {
      if i < |fates| {
        assert CountedAt(fates[i], writers, i);
      } else {
        assert IsFate(fates', writers, |fates|, i, first, ok, synced);
      }
    }
  }

  /** Each member is told what came of the group. */
  lemma MembersTold(fates: seq<Fate>, fates': seq<Fate>, writers: seq<Writer>, n: nat, first: nat, ok: bool)
    requires Members(writers, |fates|, n) && Fates(fates, fates', writers, n, first, ok, ok && writers[|fates|].sync)
    ensures forall i | |fates| <= i < |fates| + n :: Told(fates', writers, i, StatusOf(ok))
  {
    forall i | |fates| <= i < |fates| + n ensures Told(fates', writers, i, StatusOf(ok)) {
      assert IsFate(fates', writers, |fates|, i, first, ok, ok && writers[|fates|].sync);
    }
  }

  // ---- Waking the group ----

  lemma WakeAcks(s: State, s': State, id: nat)
    requires Inv(s) && Next(s, s', Wake) && id < s'.head
    ensures AckOk(s'.writers, s'.fates, id)
  {
    if id < s.head {
      assert AckOk(s.writers, s.fates, id);
    } else {
      assert Told(s.fates, s.writers, id, s.phase.status);
    }
  }

  lemma WakeKeeps(s: State, s': State)
    requires Inv(s) && Next(s, s', Wake)
    ensures Inv(s')
  {
    BooksStay(s.fates, s.writers, s'.writers, s.mem, Last(s));
    LogStays(s.fates, s.writers, s'.writers, s.log, s.durable);
    forall id | 0 <= id < s'.head ensures AckOk(s'.writers, s'.fates, id) {
      WakeAcks(s, s', id);
    }
  }

  lemma StepKeeps(s: State, s': State, step: Step)
    requires Inv(s) && Next(s, s', step)
    ensures Inv(s')
  {
    match step
    case Enqueue(_, _, _) => EnqueueKeeps(s, s', step);
    case Lead => LeadKeeps(s, s');
    case Room(_) => RoomKeeps(s, s', step);
    case Commit(_) => CommitKeeps(s, s', step);
    case Wake => WakeKeeps(s, s');
  }

  // ---- Whole runs ----

  ghost predicate Init(s: State) {
    s == State([], 0, NoLeader, 0, false, [], 0, [], [])
  }

  ghost predicate Run(ss: seq<State>, steps: seq<Step>) {
    |ss| == |steps| + 1 && Init(ss[0]) && forall i | 0 <= i < |steps| :: Next(ss[i], ss[i + 1], steps[i])
  }

  lemma {:induction false} RunKeeps(ss: seq<State>, steps: seq<Step>, n: nat)
    requires Run(ss, steps) && n < |ss|
    ensures Inv(ss[n])
  {
    if n > 0 {
      RunKeeps(ss, steps, n - 1);
      StepKeeps(ss[n - 1], ss[n], steps[n - 1]);
    }
  }

  /** In every state of every run: the memtable holds the applied batches, each once, in queue order; their sequence
      numbers follow one another; and a writer acknowledged without error had its batch applied and is in a record of
      the log, a synced one if it asked for that, through a leader that was told the same and that syncs if it does. */
  lemma RunCommits(ss: seq<State>, steps: seq<Step>, n: nat, id: nat)
    requires Run(ss, steps) && n < |ss| && id < |ss[n].writers| && ss[n].writers[id].ack.Some?
    ensures var s := ss[n];
            && |s.fates| <= |s.writers| && id < |s.fates| && s.mem == Applied(s.fates, s.writers, |s.fates|)
            && Chained(s.fates, Last(s))
            && var w := s.writers[id]; var Ack(st, leader) := w.ack.value;
               && (w.batch.Some? ==> (st.Ok? <==> s.fates[id].applied))
               && (s.fates[id].applied ==>
                     exists a, b :: s.mem == (a + NumberedFrom(s.fates[id].first, BatchOps(w))) + b)
               && (w.batch.Some? && st.Ok? ==>
                     exists j: nat :: j < |s.log| && Holds(s.log[j], s.fates[id].first, BatchOps(w))
                                      && (w.sync ==> j < s.durable))
               && leader <= id && s.writers[leader].ack == Some(Ack(st, leader)) && (w.sync ==> s.writers[leader].sync)
  {
    RunKeeps(ss, steps, n);
    var s := ss[n];
    assert AckOk(s.writers, s.fates, id);
    assert LoggedAt(s.fates[id], BatchOps(s.writers[id]), s.log, s.durable);
    if s.fates[id].applied {
      var a, b := BlockOf(s.fates, s.writers, id, |s.fates|);
    }
  }

  /** The entries of a batch that was applied lie together. */
  lemma {:induction false} BlockOf(fates: seq<Fate>, writers: seq<Writer>, id: nat, n: nat)
    returns (a: seq<Entry>, b: seq<Entry>)
    requires id < n <= |fates| <= |writers| && fates[id].applied
    ensures Applied(fates, writers, n) == (a + NumberedFrom(fates[id].first, BatchOps(writers[id]))) + b
    decreases n
  {
    if id == n - 1 {
      a, b := Applied(fates, writers, id), [];
    } else {
      a, b := BlockOf(fates, writers, id, n - 1);
      var last := EntriesIf(fates[n - 1].applied, fates[n - 1].first, BatchOps(writers[n - 1]));
      Assoc(a + NumberedFrom(fates[id].first, BatchOps(writers[id])), b, last);
      b := b + last;
    }
  }
}
