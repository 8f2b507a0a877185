/** Whether the batch size of `flush_audit_chain` shows in the log. */
module AuditBatching {
  import opened AuditChain
  import opened AuditFlush
  import opened Basics
  import opened AuditLog

  // ----- rows in step

  predicate TimesAscend(rows: seq<PendingRow>) {
    forall i, j | 0 <= i < j < |rows| :: rows[i].data.createdAt <= rows[j].data.createdAt
  }

  /** created_at never decreases from the log to the queue and along the queue. */
  ghost predicate InStep(log: seq<LogRow>, q: seq<PendingRow>, id: nat) {
    && IdsAscend(log)
    && (forall i | 0 <= i < |log| :: log[i].id < id)
    && TimesAscend(q)
    && (forall i, j | 0 <= i < |log| && 0 <= j < |q| :: log[i].data.createdAt <= q[j].data.createdAt)
  }

  lemma {:induction false} ChainKeepsRow(scheme: Scheme, prev: Link, rows: seq<PendingRow>, id: nat, i: nat)
    requires i < |rows|
    ensures
      var r := ChainRows(scheme, prev, rows, id)[i];
      r.id == id + i && r.data == rows[i].data && r.source == rows[i].id && r.context == rows[i].context
  {
    ChainRowsAt(scheme, prev, rows, id, i);
  }

  /** A batch in step keeps the log in step with what is left. */
  lemma {:induction false} StaysInStep(scheme: Scheme, log: seq<LogRow>, q: seq<PendingRow>, id: nat, k: nat)
    requires InStep(log, q, id) && k <= |q|
    ensures InStep(log + ChainRows(scheme, LatestLink(log), q[..k], id), q[k..], id + k)
  {
    var chained := ChainRows(scheme, LatestLink(log), q[..k], id);
    var after := log + chained;
    forall i: nat | i < k
      ensures chained[i].id == id + i && chained[i].data == q[i].data
    {
      ChainKeepsRow(scheme, LatestLink(log), q[..k], id, i);
    }
    forall i, j | 0 <= i < j < |after|
      ensures after[i].id < after[j].id
    {
      assert i >= |log| ==> after[i] == chained[i - |log|];
      assert j >= |log| ==> after[j] == chained[j - |log|];
    }
    forall i | 0 <= i < |after|
      ensures after[i].id < id + k
      ensures forall j | 0 <= j < |q[k..]| :: after[i].data.createdAt <= q[k..][j].data.createdAt
    {
      assert i >= |log| ==> after[i] == chained[i - |log|];
    }
  }

  /** After a batch in step, the drainer's next lookup finds the row it just wrote. */
  lemma LookupFindsOwnRow(scheme: Scheme, log: seq<LogRow>, q: seq<PendingRow>, id: nat, k: nat)
    requires InStep(log, q, id) && 0 < k <= |q|
    ensures
      var chained := ChainRows(scheme, LatestLink(log), q[..k], id);
      LatestLink(log + chained) == LinkAfter(LatestLink(log), chained)
  {
    var chained := ChainRows(scheme, LatestLink(log), q[..k], id);
    var after := log + chained;
    StaysInStep(scheme, log, q, id, k);
    ChainKeepsRow(scheme, LatestLink(log), q[..k], id, k - 1);
    forall i | 0 <= i < |after|
      ensures after[i].data.createdAt <= after[|after| - 1].data.createdAt
    {
      if i >= |log| {
        ChainKeepsRow(scheme, LatestLink(log), q[..k], id, i - |log|);
        assert after[i] == chained[i - |log|];
      }
    }
    LatestWhenLast(after);
  }

  /** A lookup between two batches in step fits. */
  lemma InStepFits(scheme: Scheme, t: Tables, n: nat, batchSize: nat, j: nat)
    requires InStep(t.log, t.pending, t.nextId) && batchSize > 0 && j > 0 && n <= |t.pending|
    ensures LookupFitsAfter(t.log, ChainRows(scheme, LatestLink(t.log), t.pending[..n], t.nextId), batchSize, j)
  {
    var k := batchSize * j;
    if k < n {
      PassSplit(scheme, LatestLink(t.log), t.pending[..n], t.nextId, k);
      assert t.pending[..n][..k] == t.pending[..k];
      LookupFindsOwnRow(scheme, t.log, t.pending, t.nextId, k);
    }
  }

  /** With created_at in step with the ids, flushing in batches of any size
      appends the rows one pass over the queue would: the first
      min(pending, batch_size * max_iterations) of them. */
  lemma {:induction false} BatchSizeDoesNotShow(scheme: Scheme, t: Tables, batchSize: nat, iterations: nat)
    requires InStep(t.log, t.pending, t.nextId) && batchSize >= 1
    ensures
      var n := Min(batchSize * iterations, |t.pending|);
      var f := Flushed(scheme, t, batchSize, iterations);
      && f.log == t.log + ChainRows(scheme, LatestLink(t.log), t.pending[..n], t.nextId)
      && |f.log| == |t.log| + n
      && f.pending == t.pending[n..]
  {
    BatchSizeDoesNotShowIff(scheme, t, batchSize, iterations);
    forall j: nat | 0 < j < iterations
      ensures
        var n := Min(batchSize * iterations, |t.pending|);
        LookupFitsAfter(t.log, ChainRows(scheme, LatestLink(t.log), t.pending[..n], t.nextId), batchSize, j)
    {
      InStepFits(scheme, t, Min(batchSize * iterations, |t.pending|), batchSize, j);
    }
  }

  // ----- the condition in terms of created_at

  /** What every log built by drains is: hashed row by row, with ascending ids. */
  ghost predicate WellKept(scheme: Scheme, t: Tables) {
    && (forall i | 0 <= i < |t.log| :: IsHashed(scheme, t.log[i]))
    && IdsAscend(t.log)
    && (forall i | 0 <= i < |t.log| :: t.log[i].id < t.nextId)
  }

  /** No row of the log and no entry before the `m`-th has a later created_at than
      the `m`-th entry. */
  predicate NewestAt(t: Tables, m: nat)
    requires 0 < m <= |t.pending|
  {
    && (forall i | 0 <= i < |t.log| :: t.log[i].data.createdAt <= t.pending[m - 1].data.createdAt)
    && (forall i | 0 <= i < m :: t.pending[i].data.createdAt <= t.pending[m - 1].data.createdAt)
  }

  lemma PrefixRow(scheme: Scheme, t: Tables, m: nat, i: nat)
    requires scheme.Valid() && WellKept(scheme, t) && i < m <= |t.pending|
    ensures
      var r := ChainRows(scheme, LatestLink(t.log), t.pending[..m], t.nextId)[i];
      r.id == t.nextId + i && r.data == t.pending[i].data && IsHashed(scheme, r)
  {
    ChainKeepsRow(scheme, LatestLink(t.log), t.pending[..m], t.nextId, i);
    ChainedIsHashed(scheme, t.log, t.pending[..m], t.nextId, i);
  }

  /** Rows with the next ids keep a log well kept. */
  lemma AppendKeeps(scheme: Scheme, log: seq<LogRow>, more: seq<LogRow>, id: nat)
    requires forall i | 0 <= i < |log| :: IsHashed(scheme, log[i]) && log[i].id < id
    requires IdsAscend(log) && forall i | 0 <= i < |more| :: IsHashed(scheme, more[i]) && more[i].id == id + i
    ensures IdsAscend(log + more) && forall i | 0 <= i < |log + more| :: IsHashed(scheme, (log + more)[i])
  {
  }

  lemma LatestOfAppended(log: seq<LogRow>, more: seq<LogRow>, t: Tables, m: nat)
    requires log == t.log && 0 < m == |more| <= |t.pending|
    requires forall i | 0 <= i < m :: more[i].data == t.pending[i].data
    ensures LastIsLatest(log + more) <==> NewestAt(t, m)
  {
    var after := log + more;
    assert after[|after| - 1] == more[m - 1];
    assert forall i | 0 <= i < |log| :: after[i] == log[i];
    assert forall i | 0 <= i < m :: after[|log| + i] == more[i];
  }

  /** The log after the first `m` rows of a pass is well kept, and its last row is its
      latest exactly when the `m`-th entry is the newest. */
  lemma AfterPrefix(scheme: Scheme, t: Tables, m: nat)
    requires scheme.Valid() && WellKept(scheme, t) && 0 < m <= |t.pending|
    ensures
      var after := t.log + ChainRows(scheme, LatestLink(t.log), t.pending[..m], t.nextId);
      && (forall i | 0 <= i < |after| :: IsHashed(scheme, after[i]))
      && IdsAscend(after) && (LastIsLatest(after) <==> NewestAt(t, m))
  {
    var chained := ChainRows(scheme, LatestLink(t.log), t.pending[..m], t.nextId);
    forall i: nat | i < m
      ensures chained[i].id == t.nextId + i && chained[i].data == t.pending[i].data && IsHashed(scheme, chained[i])
    {
      PrefixRow(scheme, t, m, i);
    }
    AppendKeeps(scheme, t.log, chained, t.nextId);
    LatestOfAppended(t.log, chained, t, m);
  }

  lemma ChainedIsHashed(scheme: Scheme, log: seq<LogRow>, rows: seq<PendingRow>, id: nat, i: nat)
    requires scheme.Valid() && i < |rows| && forall k | 0 <= k < |log| :: IsHashed(scheme, log[k])
    ensures IsHashed(scheme, ChainRows(scheme, LatestLink(log), rows, id)[i])
  {
    var chained := ChainRows(scheme, LatestLink(log), rows, id);
    ChainRowsAt(scheme, LatestLink(log), rows, id, i);
    if i > 0 {
      ChainRowsAt(scheme, LatestLink(log), rows, id, i - 1);
      assert chained[..i][i - 1] == chained[i - 1];
    } else if log != [] {
      LatestIsMaximal(log);
      assert IsHashed(scheme, Latest(log));
    }
  }

  /** Between two batches the newest entry so far was drained last, or the row found
      instead collides with it. */
  ghost predicate NewestLast(scheme: Scheme, t: Tables, pass: seq<LogRow>, batchSize: nat, j: nat) {
    0 < batchSize * j < |pass| <= |t.pending| ==>
      || NewestAt(t, batchSize * j)
      || RowsCollide(scheme, Latest(t.log + pass[..batchSize * j]), pass[batchSize * j - 1])
  }

  /** At one boundary, for the first `k` rows of the pass. */
  lemma BoundaryFits(scheme: Scheme, t: Tables, head: seq<LogRow>, k: nat)
    requires scheme.Valid() && WellKept(scheme, t) && 0 < k <= |t.pending|
    requires head == ChainRows(scheme, LatestLink(t.log), t.pending[..k], t.nextId)
    ensures LatestLink(t.log + head) == LinkAfter(LatestLink(t.log), head) <==>
      NewestAt(t, k) || RowsCollide(scheme, Latest(t.log + head), head[k - 1])
  {
    AfterPrefix(scheme, t, k);
    LastLinkFits(scheme, t.log, head);
  }

  lemma {:induction false} LastLinkFits(scheme: Scheme, log: seq<LogRow>, head: seq<LogRow>)
    requires scheme.Valid() && head != [] && IdsAscend(log + head)
    requires forall i | 0 <= i < |log + head| :: IsHashed(scheme, (log + head)[i])
    ensures LatestLink(log + head) == LinkAfter(LatestLink(log), head) <==>
      LastIsLatest(log + head) || RowsCollide(scheme, Latest(log + head), head[|head| - 1])
  {
    LatestCarriesLastHash(scheme, log + head);
    assert (log + head)[|log| + |head| - 1] == head[|head| - 1];
  }

  lemma FitsIffNewestLast(scheme: Scheme, t: Tables, n: nat, pass: seq<LogRow>, batchSize: nat, j: nat)
    requires scheme.Valid() && WellKept(scheme, t) && n <= |t.pending| && batchSize > 0 && j > 0
    requires pass == ChainRows(scheme, LatestLink(t.log), t.pending[..n], t.nextId)
    ensures LookupFitsAfter(t.log, pass, batchSize, j) <==> NewestLast(scheme, t, pass, batchSize, j)
  {
    var k := batchSize * j;
    assert k > 0;
    if k < n {
      PassSplit(scheme, LatestLink(t.log), t.pending[..n], t.nextId, k);
      assert t.pending[..n][..k] == t.pending[..k];
      BoundaryFits(scheme, t, pass[..k], k);
    }
  }

  /** For every well-kept log and every queue: the batches of a flush do not show
      exactly when each of them but the last ends with the newest entry so far, up to
      a collision with the row that is found instead. */
  lemma BatchSizeDoesNotShowIffNewest(scheme: Scheme, t: Tables, batchSize: nat, iterations: nat)
    requires scheme.Valid() && WellKept(scheme, t) && batchSize > 0
    ensures
      var pass := ChainRows(scheme, LatestLink(t.log), t.pending[..Min(batchSize * iterations, |t.pending|)], t.nextId);
      Flushed(scheme, t, batchSize, iterations).log == t.log + pass <==>
      forall j: nat | 0 < j < iterations :: NewestLast(scheme, t, pass, batchSize, j)
  {
    var n := Min(batchSize * iterations, |t.pending|);
    var pass := ChainRows(scheme, LatestLink(t.log), t.pending[..n], t.nextId);
    BatchSizeDoesNotShowIff(scheme, t, batchSize, iterations);
    forall j: nat | 0 < j < iterations
      ensures LookupFitsAfter(t.log, pass, batchSize, j) <==> NewestLast(scheme, t, pass, batchSize, j)
    {
      FitsIffNewestLast(scheme, t, n, pass, batchSize, j);
    }
  }

  // ----- a queue out of step

  /** A queue whose batch size shows: drained two at a time, the third row is
      linked to the first one, drained three at a time to the second, and these are
      the same link exactly when the first two rows' texts collide. */
  lemma BatchSizeCanShow(scheme: Scheme, p0: PendingRow, p1: PendingRow, p2: PendingRow)
    requires scheme.Valid()
    requires p1.data.createdAt < p0.data.createdAt
    ensures
      var t := Tables([p0, p1, p2], [], 0);
      Flushed(scheme, t, 2, 2).log == Flushed(scheme, t, 3, 1).log <==>
      scheme.Collision(Preimage(scheme, Genesis, p0.data),
        Preimage(scheme, After(RowHash(scheme, Genesis, p0.data)), p1.data))
  {
    var r0 := ChainRow(scheme, Genesis, p0, 0);
    var r1 := ChainRow(scheme, After(r0.rowHash), p1, 1);
    var r2, r2' := ChainRow(scheme, After(r0.rowHash), p2, 2), ChainRow(scheme, After(r1.rowHash), p2, 2);
    TwoAtATime(scheme, p0, p1, p2);
    ThreeAtATime(scheme, p0, p1, p2);
    assert [r0, r1, r2][2] == r2 && [r0, r1, r2'][2] == r2';
    RowHashBinds(scheme, Genesis, p0.data, After(r0.rowHash), p1.data);
  }

  /** The second lookup finds the first row again. */
  lemma TwoAtATime(scheme: Scheme, p0: PendingRow, p1: PendingRow, p2: PendingRow)
    requires p1.data.createdAt < p0.data.createdAt
    ensures
      var r0 := ChainRow(scheme, Genesis, p0, 0);
      var r1 := ChainRow(scheme, After(r0.rowHash), p1, 1);
      Flushed(scheme, Tables([p0, p1, p2], [], 0), 2, 2).log == [r0, r1, ChainRow(scheme, After(r0.rowHash), p2, 2)]
  {
    var r0 := ChainRow(scheme, Genesis, p0, 0);
    var r1 := ChainRow(scheme, After(r0.rowHash), p1, 1);
    var t, u := Tables([p0, p1, p2], [], 0), Tables([p2], [r0, r1], 2);
    ChainOfTwo(scheme, p0, p1);
    assert [p0, p1, p2][..2] == [p0, p1] && [p0, p1, p2][2..] == [p2] && [] + [r0, r1] == [r0, r1];
    assert Drained(scheme, t, 2) == u;
    ChainOfOne(scheme, After(r0.rowHash), p2, 2);
    assert [p2][..1] == [p2] && [p2][1..] == [];
    assert Drained(scheme, u, 2).log == [r0, r1] + [ChainRow(scheme, After(r0.rowHash), p2, 2)];
    assert Flushed(scheme, t, 2, 2) == Flushed(scheme, u, 2, 1) == Drained(scheme, u, 2);
  }

  lemma ThreeAtATime(scheme: Scheme, p0: PendingRow, p1: PendingRow, p2: PendingRow)
    requires p1.data.createdAt < p0.data.createdAt
    ensures
      var r0 := ChainRow(scheme, Genesis, p0, 0);
      var r1 := ChainRow(scheme, After(r0.rowHash), p1, 1);
      Flushed(scheme, Tables([p0, p1, p2], [], 0), 3, 1).log == [r0, r1, ChainRow(scheme, After(r1.rowHash), p2, 2)]
  {
    var r0 := ChainRow(scheme, Genesis, p0, 0);
    var r1 := ChainRow(scheme, After(r0.rowHash), p1, 1);
    var t, q := Tables([p0, p1, p2], [], 0), [p0, p1, p2];
    ChainOfTwo(scheme, p0, p1);
    ChainOfOne(scheme, After(r1.rowHash), p2, 2);
    assert q[..3] == q && q == [p0, p1] + [p2] && q[3..] == [];
    ChainRowsConcat(scheme, Genesis, [p0, p1], [p2], 0);
    assert Flushed(scheme, t, 3, 1) == Drained(scheme, t, 3);
    assert [] + ([r0, r1] + [ChainRow(scheme, After(r1.rowHash), p2, 2)])
        == [r0, r1, ChainRow(scheme, After(r1.rowHash), p2, 2)];
  }

  lemma ChainOfOne(scheme: Scheme, prev: Link, p: PendingRow, id: nat)
    ensures ChainRows(scheme, prev, [p], id) == [ChainRow(scheme, prev, p, id)]
  {
    assert [p][1..] == [];
  }

  lemma ChainOfTwo(scheme: Scheme, p0: PendingRow, p1: PendingRow)
    requires p1.data.createdAt < p0.data.createdAt
    ensures
      var r0 := ChainRow(scheme, Genesis, p0, 0);
      var r1 := ChainRow(scheme, After(r0.rowHash), p1, 1);
      && ChainRows(scheme, Genesis, [p0, p1], 0) == [r0, r1]
      && LatestLink([r0, r1]) == After(r0.rowHash)
  {
    var r0 := ChainRow(scheme, Genesis, p0, 0);
    var r1 := ChainRow(scheme, After(r0.rowHash), p1, 1);
    assert [p0, p1][1..] == [p1] && [p1][1..] == [];
    assert ChainRows(scheme, After(r0.rowHash), [p1], 1) == [r1] + [];
    assert [r0, r1][..1] == [r0];
    assert Latest([r0]) == r0;
  }
}
