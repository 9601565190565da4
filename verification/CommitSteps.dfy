/** The writer queue and the engine: a group committed without error is one Write step (db/db_impl.cc:1201-1237). */
module CommitSteps {
  import opened DbFormat
  import opened History
  import opened Engine
  import opened EngineBasics
  import EngineTheorems
  import Queue = GroupCommit

  lemma NumberedIsBatch(first: nat, ops: seq<Op>)
    ensures ToSet(Queue.NumberedFrom(first, ops)) == BatchEntries(first, ops)
  {
    var s := Queue.NumberedFrom(first, ops);
    forall e ensures e in ToSet(s) <==> e in BatchEntries(first, ops) {
      if e in BatchEntries(first, ops) {
        var i :| 0 <= i < |ops| && e == EntryOf(ops[i], first + i);
        assert s[i] == e;
      }
    }
  }

  /** The engine after the group's operations are written. */
  function Written(w: World, ops: seq<Op>): World
    requires w.db.disk.logs != []
  {
    w.(db := AfterWrite(w.db, ops), hist := w.hist + ops)
  }

  /** From any state of the engine with the same last sequence number, committing a group is the Write step of the
      group's operations: the same record in the log, the same entries in the memtable, the same last number after. */
  lemma CommitIsWrite(s: Queue.State, s': Queue.State, w: World)
    requires Queue.Inv(s) && Queue.Next(s, s', Queue.Commit(Queue.Logged)) && Contents(w) && w.db.disk.logs != []
    requires w.db.lastSequence == s.lastSequence && Queue.Last(s') < MAX_SEQUENCE
    ensures Next(w, Write(s.phase.ops), Written(w, s.phase.ops))
    ensures var w' := Written(w, s.phase.ops); var r := Record(s.lastSequence + 1, s.phase.ops);
            && s'.log == s.log + [r] && w'.db.disk.logs == Appended(w.db.disk.logs, r)
            && s.mem <= s'.mem && ToSet(w'.db.mem) == ToSet(w.db.mem) + ToSet(s'.mem[|s.mem|..])
            && w'.db.lastSequence == Queue.Last(s')
  {
    MemoryIsBelow(w);
    BatchInMemory(w.db.mem, s.lastSequence + 1, s.phase.ops);
    Grown(s.mem, Queue.NumberedFrom(s.lastSequence + 1, s.phase.ops));
  }

  lemma Grown(a: seq<Entry>, b: seq<Entry>)
    ensures a <= a + b && (a + b)[|a|..] == b
  {
  }

  lemma BatchInMemory(mem: seq<Entry>, first: nat, ops: seq<Op>)
    requires Sorted(mem) && forall x | x in mem :: x.key.sequence < first
    ensures ToSet(AddAll(mem, first, ops)) == ToSet(mem) + ToSet(Queue.NumberedFrom(first, ops))
  {
    AddAllOk(mem, first, ops);
    NumberedIsBatch(first, ops);
  }

  /** The logs with a record more in the last one. */
  function Appended(logs: seq<Log>, r: Record): seq<Log>
    requires logs != []
  {
    var n := |logs| - 1;
    logs[n := logs[n].(records := logs[n].records + [r])]
  }

  lemma MemoryIsBelow(w: World)
    requires Contents(w)
    ensures Sorted(w.db.mem) && forall x | x in w.db.mem :: x.key.sequence < w.db.lastSequence + 1
  {
    forall x | x in w.db.mem ensures x.key.sequence < w.db.lastSequence + 1 {
      assert x in ToSet(w.db.mem);
      RangeEntry(w.hist, w.switched, |w.hist|, x);
    }
  }

  // ---- Whole runs ----

  /** The engine has been given exactly what the queue has committed. */
  ghost predicate Same(s: Queue.State, w: World) {
    && EngineTheorems.Reachable(w) && w.db.lastSequence == Queue.Last(s) && w.switched == 0
    && w.db.disk.logs == [Log(3, s.log)] && ToSet(w.db.mem) == ToSet(s.mem)
  }

  lemma LastGrows(s: Queue.State, s': Queue.State, step: Queue.Step)
    requires Queue.Inv(s) && Queue.Next(s, s', step)
    ensures Queue.Last(s) <= Queue.Last(s')
  {
  }

  lemma SameStarts(s: Queue.State)
    requires Queue.Init(s)
    ensures Same(s, NewWorld())
  {
    EngineTheorems.NewIsReachable();
  }

  lemma SameCommits(s: Queue.State, s': Queue.State, w: World) returns (w': World)
    requires Queue.Inv(s) && Queue.Next(s, s', Queue.Commit(Queue.Logged)) && Same(s, w)
             && Queue.Last(s') < MAX_SEQUENCE
    ensures Same(s', w')
  {
    EngineTheorems.ReachableKeeps(w);
    CommitIsWrite(s, s', w);
    w' := Written(w, s.phase.ops);
    EngineTheorems.ReachableOn(w, Write(s.phase.ops), w');
    assert s'.mem == s.mem + s'.mem[|s.mem|..];
  }

  lemma SameOtherwise(s: Queue.State, s': Queue.State, step: Queue.Step, w: World)
    requires Queue.Inv(s) && Queue.Next(s, s', step) && !step.Commit? && Same(s, w)
    ensures Same(s', w)
  {
  }

  /** No commit before the `n`th state fails. */
  ghost predicate NoneFails(steps: seq<Queue.Step>, n: nat) {
    forall i | 0 <= i < n && i < |steps| :: steps[i].Commit? ==> steps[i].outcome.Logged?
  }

  lemma {:induction false} RunIsSame(ss: seq<Queue.State>, steps: seq<Queue.Step>, n: nat) returns (w: World)
    requires Queue.Run(ss, steps) && n < |ss| && NoneFails(steps, n) && Queue.Last(ss[n]) < MAX_SEQUENCE
    ensures Same(ss[n], w)
    decreases n
  {
    if n == 0 {
      w := NewWorld();
      SameStarts(ss[0]);
    } else {
      var s, s', step := QueueStep(ss, steps, n - 1);
      LastGrows(s, s', step);
      var u := RunIsSame(ss, steps, n - 1);
      if step.Commit? {
        w := SameCommits(s, s', u);
      } else {
        w := u;
        SameOtherwise(s, s', step, u);
      }
    }
  }

  lemma QueueStep(ss: seq<Queue.State>, steps: seq<Queue.Step>, i: nat)
    returns (s: Queue.State, s': Queue.State, step: Queue.Step)
    requires Queue.Run(ss, steps) && i < |steps|
    ensures s == ss[i] && s' == ss[i + 1] && step == steps[i] && Queue.Inv(s) && Queue.Next(s, s', step)
  {
    Queue.RunKeeps(ss, steps, i);
    s, s', step := ss[i], ss[i + 1], steps[i];
  }

  lemma SameOp(a: Op, b: Op, n: nat)
    requires EntryOf(a, n) == EntryOf(b, n)
    ensures a == b
  {
  }

  /** A batch that was applied is a stretch of the engine's history, at its own sequence numbers. */
  ghost predicate InHistory(hist: seq<Op>, first: nat, ops: seq<Op>) {
    0 < first && first - 1 + |ops| <= |hist| && hist[first - 1..first - 1 + |ops|] == ops
  }

  lemma OneInHistory(mem: seq<Entry>, hist: seq<Op>, first: nat, ops: seq<Op>, a: seq<Entry>, b: seq<Entry>, k: nat)
    requires mem == (a + Queue.NumberedFrom(first, ops)) + b && ToSet(mem) <= Range(hist, 0, |hist|) && k < |ops|
    ensures 0 < first + k <= |hist| && hist[first + k - 1] == ops[k]
  {
    var e := EntryOf(ops[k], first + k);
    assert Queue.NumberedFrom(first, ops)[k] == e && mem[|a| + k] == e;
    assert e in ToSet(mem);
    RangeEntry(hist, 0, |hist|, e);
    SameOp(hist[first + k - 1], ops[k], first + k);
  }

  lemma AppliedInHistory(mem: seq<Entry>, hist: seq<Op>, first: nat, ops: seq<Op>, a: seq<Entry>, b: seq<Entry>)
    requires mem == (a + Queue.NumberedFrom(first, ops)) + b && ToSet(mem) <= Range(hist, 0, |hist|) && ops != []
    ensures InHistory(hist, first, ops)
  {
    OneInHistory(mem, hist, first, ops, a, b, 0);
    OneInHistory(mem, hist, first, ops, a, b, |ops| - 1);
    forall k: nat | k < |ops| ensures hist[first - 1..first - 1 + |ops|][k] == ops[k] {
      OneInHistory(mem, hist, first, ops, a, b, k);
    }
  }

  /** A run of the queue in which no commit fails is a run of the engine: what the writers put in, in queue order, is
      the history the engine's theorems are about. */
  lemma RunIsHistory(ss: seq<Queue.State>, steps: seq<Queue.Step>, n: nat) returns (w: World)
    requires Queue.Run(ss, steps) && n < |ss| && NoneFails(steps, n) && Queue.Last(ss[n]) < MAX_SEQUENCE
    ensures EngineTheorems.Reachable(w) && |w.hist| == Queue.Last(ss[n]) && w.db.disk.logs == [Log(3, ss[n].log)]
    ensures |ss[n].fates| <= |ss[n].writers|
    ensures forall id: nat | id < |ss[n].fates| && ss[n].fates[id].applied && Queue.BatchOps(ss[n].writers[id]) != [] ::
              InHistory(w.hist, ss[n].fates[id].first, Queue.BatchOps(ss[n].writers[id]))
  {
    var s := ss[n];
    w := RunIsSame(ss, steps, n);
    Queue.RunKeeps(ss, steps, n);
    EngineTheorems.ReachableKeeps(w);
    forall id: nat | id < |s.fates| && s.fates[id].applied && Queue.BatchOps(s.writers[id]) != []
      ensures InHistory(w.hist, s.fates[id].first, Queue.BatchOps(s.writers[id]))
    {
      var a, b := Queue.BlockOf(s.fates, s.writers, id, |s.fates|);
      AppliedInHistory(s.mem, w.hist, s.fates[id].first, Queue.BatchOps(s.writers[id]), a, b);
    }
  }
}
