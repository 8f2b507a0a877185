/** When the log that the audit protocol builds (`engine/audit.py`) verifies as one
    line of links. */
module AuditLine {
  import opened AuditChain
  import opened AuditLog
  import opened AuditProtocol
  import opened AuditRuns

  /** Every lookup happened while the newest row was also the last one. */
  predicate LookedUpInStep(log: seq<LogRow>, heads: seq<bool>)
    requires |heads| == |log|
  {
    forall i | 0 <= i < |log| && heads[i] :: LastIsLatest(log[..i])
  }

  lemma InStepVerifies(scheme: Scheme, log: seq<LogRow>, heads: seq<bool>)
    requires Linked(scheme, log, heads) && IdsAscend(log) && LookedUpInStep(log, heads)
    ensures Verifies(scheme, log)
  {
    forall i | 0 <= i < |log|
      ensures log[i].prevHash == LinkTo(log, i)
      ensures log[i].rowHash == RowHash(scheme, log[i].prevHash, log[i].data)
    {
      assert LinkedAt(scheme, log, heads[i], i);
      if heads[i] && i > 0 {
        LatestWhenLast(log[..i]);
        assert log[..i][|log[..i]| - 1] == log[i - 1];
      }
    }
  }

  /** The rows of a linked log are hashes of their texts, and their links are
      digests. */
  lemma LinkedRow(scheme: Scheme, log: seq<LogRow>, heads: seq<bool>, i: nat)
    requires scheme.Valid() && Linked(scheme, log, heads) && i < |log|
    ensures IsHashed(scheme, log[i])
  {
    assert LinkedAt(scheme, log, heads[i], i);
    if heads[i] && i > 0 {
      LatestIsMaximal(log[..i]);
      var j :| 0 <= j < i && log[..i][j] == Latest(log[..i]);
      assert LinkedAt(scheme, log, heads[j], j);
    } else if i > 0 {
      assert LinkedAt(scheme, log, heads[i - 1], i - 1);
    }
  }

  /** A lookup before row `i` keeps the line unbroken: it found the last row, or a
      row whose text collides with the last row's. */
  ghost predicate LookupFits(scheme: Scheme, log: seq<LogRow>, i: nat)
    requires i <= |log|
  {
    LastIsLatest(log[..i]) || (i > 0 && RowsCollide(scheme, Latest(log[..i]), log[i - 1]))
  }

  lemma HeadFits(scheme: Scheme, log: seq<LogRow>, heads: seq<bool>, i: nat)
    requires scheme.Valid() && Linked(scheme, log, heads) && IdsAscend(log) && i < |log| && heads[i]
    ensures log[i].prevHash == LinkTo(log, i) <==> LookupFits(scheme, log, i)
  {
    var front := log[..i];
    assert LinkedAt(scheme, log, heads[i], i);
    if i > 0 {
      forall k | 0 <= k < |front| ensures IsHashed(scheme, front[k]) {
        LinkedRow(scheme, log, heads, k);
      }
      LatestCarriesLastHash(scheme, front);
    }
  }

  /** In a line that verifies, a lookup out of step found a row whose text collides
      with the last row's. */
  lemma OutOfStepForks(scheme: Scheme, log: seq<LogRow>, heads: seq<bool>, i: nat)
    requires scheme.Valid() && Linked(scheme, log, heads) && IdsAscend(log) && Verifies(scheme, log)
    requires i < |log| && heads[i] && !LastIsLatest(log[..i])
    ensures i > 0 && RowsCollide(scheme, Latest(log[..i]), log[i - 1])
  {
    assert log[i].prevHash == LinkTo(log, i);
    HeadFits(scheme, log, heads, i);
  }

  /** Over every interleaving: the log verifies as one line exactly when each lookup
      fitted, that is, found no row with a later created_at than the last one or
      one whose text collides with the last one's. */
  lemma VerifiesIffLookupsFit(scheme: Scheme, steps: seq<Step>)
    requires scheme.Valid()
    ensures
      var s := Run(scheme, INITIAL, steps);
      && |s.heads| == |s.log|
      && (Verifies(scheme, s.log) <==> forall i | 0 <= i < |s.log| && s.heads[i] :: LookupFits(scheme, s.log, i))
  {
    var s := Run(scheme, INITIAL, steps);
    LogIsLinked(scheme, steps);
    forall i | 0 <= i < |s.log|
      ensures s.log[i].prevHash == LinkTo(s.log, i) <==> s.heads[i] ==> LookupFits(scheme, s.log, i)
      ensures s.log[i].rowHash == RowHash(scheme, s.log[i].prevHash, s.log[i].data)
    {
      assert LinkedAt(scheme, s.log, s.heads[i], i);
      if s.heads[i] {
        HeadFits(scheme, s.log, s.heads, i);
      }
    }
    if Verifies(scheme, s.log) {
      forall i | 0 <= i < |s.log| && s.heads[i] ensures LookupFits(scheme, s.log, i) {
        assert s.log[i].prevHash == LinkTo(s.log, i);
      }
    }
  }

  /** No two rows of the log were hashed from colliding texts. */
  ghost predicate Collisionless(scheme: Scheme, log: seq<LogRow>) {
    forall i, j | 0 <= i < |log| && 0 <= j < |log| :: !RowsCollide(scheme, log[i], log[j])
  }

  /** So a log without collisions of its own verifies exactly when every lookup was
      in step. */
  lemma VerifiesIffInStep(scheme: Scheme, steps: seq<Step>)
    requires scheme.Valid()
    ensures
      var s := Run(scheme, INITIAL, steps);
      && |s.heads| == |s.log|
      && (Collisionless(scheme, s.log) ==> (Verifies(scheme, s.log) <==> LookedUpInStep(s.log, s.heads)))
  {
    var s := Run(scheme, INITIAL, steps);
    VerifiesIffLookupsFit(scheme, steps);
    forall i | 0 <= i < |s.log| && s.heads[i] && Collisionless(scheme, s.log)
      ensures LookupFits(scheme, s.log, i) <==> LastIsLatest(s.log[..i])
    {
      if i > 0 {
        LatestIsMaximal(s.log[..i]);
        var j :| 0 <= j < i && s.log[..i][j] == Latest(s.log[..i]);
        assert !RowsCollide(scheme, s.log[j], s.log[i - 1]);
      }
    }
  }

  predicate TimesNeverFall(log: seq<LogRow>) {
    forall i, j | 0 <= i < j < |log| :: log[i].data.createdAt <= log[j].data.createdAt
  }

  /** In particular, rows appended in non-decreasing created_at form one line. */
  lemma OrderedAppendsVerify(scheme: Scheme, steps: seq<Step>)
    requires TimesNeverFall(Run(scheme, INITIAL, steps).log)
    ensures Verifies(scheme, Run(scheme, INITIAL, steps).log)
  {
    var s := Run(scheme, INITIAL, steps);
    LogIsLinked(scheme, steps);
    InStepVerifies(scheme, s.log, s.heads);
  }
}
