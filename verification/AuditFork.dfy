/** A run of the audit log's protocol that forks the chain (`engine/audit.py`). */
module AuditFork {
  import opened AuditChain
  import opened AuditLog
  import opened AuditProtocol
  import opened AuditRefinement
  import AuditBatching

  /** Two entries are drained together, then a third one on its own. */
  function ForkingRun(p0: PendingRow, p1: PendingRow, p2: PendingRow): seq<Step> {
    [Enqueue(p0), Enqueue(p1)] + DrainSteps(2, 2) + [Enqueue(p2)] + DrainSteps(1, 1)
  }

  lemma FirstDrain(scheme: Scheme, p0: PendingRow, p1: PendingRow) returns (s: State)
    requires p0.id.number < p1.id.number && p1.data.createdAt < p0.data.createdAt
    ensures s == Run(scheme, INITIAL, [Enqueue(p0), Enqueue(p1)] + DrainSteps(2, 2))
    ensures
      var r0 := ChainRow(scheme, Genesis, p0, 0);
      Committed(s) == Tables([], [r0, ChainRow(scheme, After(r0.rowHash), p1, 1)], 2)
    ensures s.drainer.Idle? && s.entered.Keys == {p0.id, p1.id}
  {
    var queued := Run(scheme, INITIAL, [Enqueue(p0), Enqueue(p1)]);
    TwoSteps(scheme, INITIAL, Enqueue(p0), Enqueue(p1));
    assert Insert([], p0) == [p0] && [p0][1..] == [] && Insert([p0], p1) == [p0] + Insert([], p1) == [p0, p1];
    assert queued.pending == [p0, p1];
    DrainedIsARun(scheme, queued, 2);
    RunConcat(scheme, INITIAL, [Enqueue(p0), Enqueue(p1)], DrainSteps(2, 2));
    AuditBatching.ChainOfTwo(scheme, p0, p1);
    assert [p0, p1][..2] == [p0, p1] && [p0, p1][2..] == [];
    s := Run(scheme, INITIAL, [Enqueue(p0), Enqueue(p1)] + DrainSteps(2, 2));
  }

  lemma SecondDrain(scheme: Scheme, s: State, p2: PendingRow)
    requires s.pending == [] && s.drainer.Idle? && p2.id !in s.entered
    ensures
      Run(scheme, s, [Enqueue(p2)] + DrainSteps(1, 1)).log
        == s.log + [ChainRow(scheme, LatestLink(s.log), p2, s.nextId)]
  {
    var queued := Apply(scheme, s, Enqueue(p2));
    RunConcat(scheme, s, [Enqueue(p2)], DrainSteps(1, 1));
    assert [Enqueue(p2)][1..] == [];
    assert Run(scheme, s, [Enqueue(p2)]) == queued;
    DrainedIsARun(scheme, queued, 1);
    AuditBatching.ChainOfOne(scheme, LatestLink(s.log), p2, s.nextId);
    assert [p2][..1] == [p2];
  }

  /** When created_at falls between the first two entries, the third row is linked
      past the second, and the log verifies exactly when the texts of the first two
      rows collide. */
  lemma FallingTimesFork(scheme: Scheme, p0: PendingRow, p1: PendingRow, p2: PendingRow)
    requires scheme.Valid()
    requires p0.id.number < p1.id.number < p2.id.number && p1.data.createdAt < p0.data.createdAt
    ensures
      var log := Run(scheme, INITIAL, ForkingRun(p0, p1, p2)).log;
      && |log| == 3
      && log[1].prevHash == log[2].prevHash == After(log[0].rowHash)
      && (Verifies(scheme, log) <==> RowsCollide(scheme, log[0], log[1]))
  {
    var s := FirstDrain(scheme, p0, p1);
    SecondDrain(scheme, s, p2);
    RunConcat(scheme, INITIAL, [Enqueue(p0), Enqueue(p1)] + DrainSteps(2, 2), [Enqueue(p2)] + DrainSteps(1, 1));
    assert ForkingRun(p0, p1, p2)
      == ([Enqueue(p0), Enqueue(p1)] + DrainSteps(2, 2)) + ([Enqueue(p2)] + DrainSteps(1, 1));
    AuditBatching.ChainOfTwo(scheme, p0, p1);
    var r0 := ChainRow(scheme, Genesis, p0, 0);
    var r1 := ChainRow(scheme, After(r0.rowHash), p1, 1);
    var r2 := ChainRow(scheme, After(r0.rowHash), p2, 2);
    ThreeRows(scheme, r0, r1, r2);
    assert s.log + [r2] == [r0, r1, r2];
  }

  lemma ThreeRows(scheme: Scheme, r0: LogRow, r1: LogRow, r2: LogRow)
    requires scheme.Valid() && r0.prevHash == Genesis && r1.prevHash == r2.prevHash == After(r0.rowHash)
    requires forall r | r in [r0, r1, r2] :: r.rowHash == RowHash(scheme, r.prevHash, r.data)
    ensures Verifies(scheme, [r0, r1, r2]) <==> RowsCollide(scheme, r0, r1)
  {
    var log := [r0, r1, r2];
    RowHashBinds(scheme, r0.prevHash, r0.data, r1.prevHash, r1.data);
    assert LinkTo(log, 0) == Genesis && LinkTo(log, 1) == After(r0.rowHash) && LinkTo(log, 2) == After(r1.rowHash);
    assert log[0] in log && log[1] in log && log[2] in log;
    if Verifies(scheme, log) {
      assert log[2].prevHash == LinkTo(log, 2);
    }
  }
}
