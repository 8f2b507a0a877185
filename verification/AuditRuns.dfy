/** What holds after every run of the audit protocol (`engine/audit.py`). */
module AuditRuns {
  import opened AuditChain
  import opened AuditLog
  import opened AuditProtocol

  /** Whatever the interleaving, every reachable state satisfies the invariant. */
  lemma {:induction false} RunKeeps(scheme: Scheme, s: State, steps: seq<Step>)
    requires Inv(scheme, s)
    ensures Inv(scheme, Run(scheme, s, steps))
    decreases |steps|
  {
    if steps != [] {
      StepKeeps(scheme, s, steps[0]);
      RunKeeps(scheme, Apply(scheme, s, steps[0]), steps[1..]);
    }
  }

  lemma InitialInv(scheme: Scheme)
    ensures Inv(scheme, INITIAL)
  {
    assert Linked(scheme, [], []);
  }

  // ----- what it means

  /** Over every interleaving: each committed entry is either still pending or
      chained by exactly one row that carries its data, never both. */
  lemma EveryEntryOnce(scheme: Scheme, steps: seq<Step>, id: PendingId)
    ensures
      var s := Run(scheme, INITIAL, steps);
      && (id in s.entered <==> id in Ids(s.pending) || id in Sources(s.log))
      && !(id in Ids(s.pending) && id in Sources(s.log))
      && (forall i, j | 0 <= i < j < |s.log| :: s.log[i].source != s.log[j].source)
      && (forall i | 0 <= i < |s.log| ::
          s.log[i].source in s.entered && s.log[i].data == s.entered[s.log[i].source].data)
      && (forall p | p in s.pending :: p.id in s.entered && s.entered[p.id] == p)
  {
    InitialInv(scheme);
    RunKeeps(scheme, INITIAL, steps);
    var s := Run(scheme, INITIAL, steps);
    assert forall i | 0 <= i < |s.log| :: Seen(s)[i] == s.log[i];
  }

  /** Over every interleaving: only the first row lacks a prev_hash, and every
      other one is the row hash of an earlier row. */
  lemma LinksPointBack(scheme: Scheme, steps: seq<Step>, i: nat)
    requires i < |Run(scheme, INITIAL, steps).log|
    ensures
      var log := Run(scheme, INITIAL, steps).log;
      && log[i].rowHash == RowHash(scheme, log[i].prevHash, log[i].data)
      && (log[i].prevHash.Genesis? <==> i == 0)
      && (i > 0 ==> exists j | 0 <= j < i :: log[i].prevHash == After(log[j].rowHash))
  {
    var s := Run(scheme, INITIAL, steps);
    LogIsLinked(scheme, steps);
    assert LinkedAt(scheme, s.log, s.heads[i], i);
    if i > 0 {
      assert s.log[..i] != [];
      LatestIsMaximal(s.log[..i]);
      var j :| 0 <= j < i && s.log[..i][j] == Latest(s.log[..i]);
      assert s.log[j].rowHash == Latest(s.log[..i]).rowHash;
    }
  }

  lemma LogIsLinked(scheme: Scheme, steps: seq<Step>)
    ensures
      var s := Run(scheme, INITIAL, steps);
      Linked(scheme, s.log, s.heads) && IdsAscend(s.log)
  {
    InitialInv(scheme);
    RunKeeps(scheme, INITIAL, steps);
    var s := Run(scheme, INITIAL, steps);
    LinkedPrefix(scheme, Seen(s), SeenHeads(s), |s.log|);
    assert s.log == Seen(s)[..|s.log|] && s.heads == SeenHeads(s)[..|s.log|];
    assert forall i | 0 <= i < |s.log| :: Seen(s)[i] == s.log[i];
  }

  // ----- rollback

  predicate IsDrainerStep(step: Step) {
    step.Select? || step.Lookup? || step.InsertNext? || step.Delete?
  }

  /** Until it ends, a transaction changes nothing but its own view and the sequence. */
  lemma {:induction false} OpenTransaction(scheme: Scheme, s: State, steps: seq<Step>)
    requires s.drainer.Open? && forall i | 0 <= i < |steps| :: IsDrainerStep(steps[i])
    ensures
      var t := Run(scheme, s, steps);
      t.drainer.Open? && t == s.(drainer := t.drainer, nextId := t.nextId) && t.nextId >= s.nextId
    decreases |steps|
  {
    if steps != [] {
      assert IsDrainerStep(steps[0]);
      var next := Apply(scheme, s, steps[0]);
      assert next.drainer.Open? && next == s.(drainer := next.drainer, nextId := next.nextId);
      assert forall i | 0 <= i < |steps[1..]| :: steps[1..][i] == steps[i + 1];
      OpenTransaction(scheme, next, steps[1..]);
    }
  }

  /** A transaction that is rolled back, whatever it did, leaves the tables as they were;
      only ids of the sequence are gone. */
  lemma RollbackUndoes(scheme: Scheme, s: State, steps: seq<Step>)
    requires s.drainer.Idle? && forall i | 0 <= i < |steps| :: IsDrainerStep(steps[i])
    ensures
      var t := Apply(scheme, Run(scheme, Apply(scheme, s, Begin), steps), Rollback);
      t == s.(nextId := t.nextId) && t.nextId >= s.nextId
  {
    OpenTransaction(scheme, Apply(scheme, s, Begin), steps);
  }
}
