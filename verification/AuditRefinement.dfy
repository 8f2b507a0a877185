/** The drainer of `AuditLog`, undisturbed, is one of the runs of the audit protocol
    (`engine/audit.py`). */
module AuditRefinement {
  import opened AuditChain
  import AuditBatching
  import opened AuditLine
  import opened AuditLog
  import opened AuditProtocol
  import opened AuditRuns
  import opened Basics

  function Repeat(step: Step, n: nat): seq<Step> {
    if n == 0 then [] else [step] + Repeat(step, n - 1)
  }

  function Committed(s: State): Tables {
    Tables(s.pending, s.log, s.nextId)
  }

  lemma {:induction false} RunConcat(scheme: Scheme, s: State, a: seq<Step>, b: seq<Step>)
    ensures Run(scheme, s, a + b) == Run(scheme, Run(scheme, s, a), b)
    decreases |a|
  {
    if a == [] {
      assert a + b == b;
    } else {
      assert (a + b)[1..] == a[1..] + b;
      RunConcat(scheme, Apply(scheme, s, a[0]), a[1..], b);
    }
  }

  lemma {:induction false} InsertsChain(scheme: Scheme, s: State, n: nat)
    requires s.drainer.Open? && s.drainer.phase.Chaining?
    requires s.drainer.phase.done + n == |s.drainer.phase.batch|
    ensures
      var t := Run(scheme, s, Repeat(InsertNext, n));
      var Chaining(batch, done, prev) := s.drainer.phase;
      && t.pending == s.pending && t.log == s.log && t.entered == s.entered && t.nextId == s.nextId + n
      && t.drainer.Open? && t.drainer.deleted == s.drainer.deleted
      && t.drainer.rows == s.drainer.rows + ChainRows(scheme, prev, batch[done..], s.nextId)
      && t.drainer.phase.Chaining? && t.drainer.phase.batch == batch && t.drainer.phase.done == |batch|
    decreases n
  {
    var Chaining(batch, done, prev) := s.drainer.phase;
    if n == 0 {
      assert batch[done..] == [] && s.drainer.rows + [] == s.drainer.rows;
    } else {
      var u := Apply(scheme, s, InsertNext);
      InsertsChain(scheme, u, n - 1);
      assert Repeat(InsertNext, n)[1..] == Repeat(InsertNext, n - 1);
      assert batch[done..][1..] == batch[done + 1..];
    }
  }

  function DrainSteps(batchSize: nat, n: nat): seq<Step> {
    [Begin, Select(batchSize), Lookup] + (Repeat(InsertNext, n) + [Delete, Commit])
  }

  /** Lock, select and look up. */
  lemma OpeningSteps(scheme: Scheme, s: State, batchSize: nat)
    requires Ordered(s.pending) && s.drainer.Idle? && batchSize >= 1 && s.pending != []
    ensures
      var batch := s.pending[..Min(batchSize, |s.pending|)];
      Run(scheme, s, [Begin, Select(batchSize), Lookup])
        == s.(drainer := Open([], [], {}, Chaining(batch, 0, LatestLink(s.log))))
  {
    NoneDeleted(s.pending);
    assert s.log + [] == s.log;
    ThreeSteps(scheme, s, Begin, Select(batchSize), Lookup);
  }

  /** `AuditLog.Drained`, what `AuditStore.Drain` computes, is what the machine
      reaches when no step of another session falls in between. */
  lemma DrainedIsARun(scheme: Scheme, s: State, batchSize: nat)
    requires Ordered(s.pending) && s.drainer.Idle? && batchSize >= 1 && s.pending != []
    ensures
      var n := Min(batchSize, |s.pending|);
      var t := Run(scheme, s, DrainSteps(batchSize, n));
      Committed(t) == Drained(scheme, Committed(s), batchSize) && t.drainer.Idle? && t.entered == s.entered
  {
    var n := Min(batchSize, |s.pending|);
    var batch := s.pending[..n];
    var open := s.(drainer := Open([], [], {}, Chaining(batch, 0, LatestLink(s.log))));
    OpeningSteps(scheme, s, batchSize);
    RunConcat(scheme, s, [Begin, Select(batchSize), Lookup], Repeat(InsertNext, n) + [Delete, Commit]);
    RunConcat(scheme, open, Repeat(InsertNext, n), [Delete, Commit]);
    InsertsChain(scheme, open, n);
    var u := Run(scheme, open, Repeat(InsertNext, n));
    assert batch[0..] == batch;
    TwoSteps(scheme, u, Delete, Commit);
    assert {} + Ids(batch) == Ids(batch);
    WithoutBatch(s.pending, n);
    assert [] + ChainRows(scheme, LatestLink(s.log), batch, s.nextId)
        == ChainRows(scheme, LatestLink(s.log), batch, s.nextId);
  }

  lemma {:induction false} NoneDeleted(queue: Queue)
    ensures Without(queue, {}) == queue
    decreases |queue|
  {
    if queue != [] {
      NoneDeleted(queue[1..]);
    }
  }

  lemma TwoSteps(scheme: Scheme, s: State, a: Step, b: Step)
    ensures Run(scheme, s, [a, b]) == Apply(scheme, Apply(scheme, s, a), b)
  {
    assert [a, b][1..] == [b] && [b][1..] == [];
    assert Run(scheme, Apply(scheme, s, a), [b]) == Run(scheme, Apply(scheme, Apply(scheme, s, a), b), []);
  }

  lemma ThreeSteps(scheme: Scheme, s: State, a: Step, b: Step, c: Step)
    ensures Run(scheme, s, [a, b, c]) == Apply(scheme, Apply(scheme, Apply(scheme, s, a), b), c)
  {
    assert [a, b, c][1..] == [b, c];
    TwoSteps(scheme, Apply(scheme, s, a), b, c);
  }

  /** Whatever the interleaving, the committed log is well kept. */
  lemma RunsAreWellKept(scheme: Scheme, steps: seq<Step>)
    requires scheme.Valid()
    ensures AuditBatching.WellKept(scheme, Committed(Run(scheme, INITIAL, steps)))
  {
    var s := Run(scheme, INITIAL, steps);
    LogIsLinked(scheme, steps);
    InitialInv(scheme);
    RunKeeps(scheme, INITIAL, steps);
    assert forall i | 0 <= i < |s.log| :: Seen(s)[i] == s.log[i];
    forall i | 0 <= i < |s.log| ensures IsHashed(scheme, s.log[i]) {
      LinkedRow(scheme, s.log, s.heads, i);
    }
  }
}
