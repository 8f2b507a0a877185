/** The pending queue and its drainer (`engine/audit.py`), for one tenant: every
    statement of the source filters on the tenant's org_id. */
module AuditLog {
  import opened AuditChain
  import opened Basics

  /** A row of audit_log_pending; `id` comes from a sequence when the producer
      inserts, `createdAt` from the start of the producer's transaction. */
  datatype PendingRow = PendingRow(id: PendingId, data: RowData, context: string)

  /** The tenant's pending rows as its (org_id, id) index lists them. */
  type Queue = seq<PendingRow>

  predicate Ordered(queue: Queue) {
    forall i, j | 0 <= i < j < |queue| :: queue[i].id.number < queue[j].id.number
  }

  /** INSERT: ids come from a sequence, but commits need not follow id order. */
  function Insert(queue: Queue, row: PendingRow): Queue {
    if queue == [] || row.id.number < queue[0].id.number then [row] + queue
    else [queue[0]] + Insert(queue[1..], row)
  }

  /** DELETE ... WHERE id = ANY(ids) */
  function Without(queue: Queue, ids: set<PendingId>): Queue {
    if queue == [] then []
    else (if queue[0].id in ids then [] else [queue[0]]) + Without(queue[1..], ids)
  }

  function Ids(rows: seq<PendingRow>): set<PendingId> {
    set i | 0 <= i < |rows| :: rows[i].id
  }

  /** ORDER BY id LIMIT batch_size */
  function Batch(queue: Queue, batchSize: nat): seq<PendingRow> {
    queue[..Min(batchSize, |queue|)]
  }

  lemma {:induction false} WithoutPrefix(queue: Queue, ids: set<PendingId>, k: nat)
    requires k <= |queue|
    requires forall i | 0 <= i < k :: queue[i].id in ids
    requires forall i | k <= i < |queue| :: queue[i].id !in ids
    ensures Without(queue, ids) == queue[k..]
    decreases |queue|
  {
    if queue != [] {
      WithoutPrefix(queue[1..], ids, if k > 0 then k - 1 else 0);
    }
  }

  /** Deleting the batch leaves the rest of the queue. */
  lemma {:induction false} WithoutBatch(queue: Queue, k: nat)
    requires Ordered(queue) && k <= |queue|
    ensures Without(queue, Ids(queue[..k])) == queue[k..]
  {
    forall i | 0 <= i < |queue|
      ensures queue[i].id in Ids(queue[..k]) <==> i < k
    {
      if i < k {
        assert queue[..k][i].id == queue[i].id;
      } else {
        assert forall m | 0 <= m < k :: queue[..k][m].id.number < queue[i].id.number;
      }
    }
    WithoutPrefix(queue, Ids(queue[..k]), k);
  }

  // ----- ORDER BY created_at DESC, id DESC LIMIT 1

  predicate Newer(a: LogRow, b: LogRow) {
    a.data.createdAt > b.data.createdAt || (a.data.createdAt == b.data.createdAt && a.id > b.id)
  }

  function Latest(log: seq<LogRow>): LogRow
    requires log != []
  {
    var last := log[|log| - 1];
    if |log| == 1 then last
    else
      var best := Latest(log[..|log| - 1]);
      if Newer(last, best) then last else best
  }

  /** `get_latest_hash` */
  function LatestLink(log: seq<LogRow>): Link {
    if log == [] then Genesis else After(Latest(log).rowHash)
  }

  lemma {:induction false} LatestIsMaximal(log: seq<LogRow>)
    requires log != []
    ensures Latest(log) in log
    ensures forall r | r in log :: !Newer(r, Latest(log))
    decreases |log|
  {
    if |log| > 1 {
      var front := log[..|log| - 1];
      LatestIsMaximal(front);
      assert log == front + [log[|log| - 1]];
    }
  }

  predicate IdsAscend(log: seq<LogRow>) {
    forall i, j | 0 <= i < j < |log| :: log[i].id < log[j].id
  }

  /** The last row appended is the one the drainer will link to exactly when no
      earlier row has a later created_at. */
  predicate LastIsLatest(log: seq<LogRow>) {
    log != [] ==> forall i | 0 <= i < |log| :: log[i].data.createdAt <= log[|log| - 1].data.createdAt
  }

  lemma {:induction false} LatestWhenLast(log: seq<LogRow>)
    requires log != [] && IdsAscend(log)
    ensures Latest(log) == log[|log| - 1] <==> LastIsLatest(log)
  {
    LatestIsMaximal(log);
    if LastIsLatest(log) && |log| > 1 {
      var front := log[..|log| - 1];
      LatestIsMaximal(front);
      var best := Latest(front);
      var i :| 0 <= i < |front| && front[i] == best;
      assert log[i] == best;
    }
    if Latest(log) == log[|log| - 1] {
      forall i | 0 <= i < |log|
        ensures log[i].data.createdAt <= log[|log| - 1].data.createdAt
      {
        assert log[i] in log;
      }
    }
  }

  /** Out of step, the lookup finds a row before the last, with other data. */
  lemma LatestIsEarlier(log: seq<LogRow>) returns (j: nat)
    requires IdsAscend(log) && !LastIsLatest(log)
    ensures j < |log| - 1 && log[j] == Latest(log) && log[j].data != log[|log| - 1].data
  {
    LatestIsMaximal(log);
    LatestWhenLast(log);
    j :| 0 <= j < |log| && log[j] == Latest(log);
    var k :| 0 <= k < |log| && log[k].data.createdAt > log[|log| - 1].data.createdAt;
    assert log[k] in log;
  }

  /** In a log of hashed rows the row found by (created_at, id) carries the last row's hash
      exactly when it is the last row, or its text collides with the last row's. */
  lemma {:induction false} LatestCarriesLastHash(scheme: Scheme, log: seq<LogRow>)
    requires scheme.Valid() && log != [] && IdsAscend(log)
    requires forall i | 0 <= i < |log| :: IsHashed(scheme, log[i])
    ensures Latest(log).rowHash == log[|log| - 1].rowHash <==>
      LastIsLatest(log) || RowsCollide(scheme, Latest(log), log[|log| - 1])
  {
    var last := log[|log| - 1];
    LatestWhenLast(log);
    if !LastIsLatest(log) {
      var j := LatestIsEarlier(log);
      RowHashBinds(scheme, log[j].prevHash, log[j].data, last.prevHash, last.data);
    }
  }

  // ----- chaining

  function ChainRow(scheme: Scheme, prev: Link, p: PendingRow, id: nat): LogRow {
    LogRow(id, p.id, p.data, p.context, prev, RowHash(scheme, prev, p.data))
  }

  /** One fold of the chain over rows, starting from a link. */
  function ChainRows(scheme: Scheme, prev: Link, rows: seq<PendingRow>, id: nat): (chained: seq<LogRow>)
    ensures |chained| == |rows|
    decreases |rows|
  {
    if rows == [] then []
    else
      var r := ChainRow(scheme, prev, rows[0], id);
      [r] + ChainRows(scheme, After(r.rowHash), rows[1..], id + 1)
  }

  function LinkAfter(prev: Link, chained: seq<LogRow>): Link {
    if chained == [] then prev else After(chained[|chained| - 1].rowHash)
  }

  lemma {:induction false} ChainRowsConcat(scheme: Scheme, prev: Link, a: seq<PendingRow>, b: seq<PendingRow>, id: nat)
    ensures ChainRows(scheme, prev, a + b, id)
      == ChainRows(scheme, prev, a, id)
        + ChainRows(scheme, LinkAfter(prev, ChainRows(scheme, prev, a, id)), b, id + |a|)
    decreases |a|
  {
    if a == [] {
      assert a + b == b;
    } else {
      var r := ChainRow(scheme, prev, a[0], id);
      assert (a + b)[1..] == a[1..] + b;
      var link, rest := After(r.rowHash), ChainRows(scheme, After(r.rowHash), a[1..], id + 1);
      ChainRowsConcat(scheme, link, a[1..], b, id + 1);
      assert ChainRows(scheme, prev, a, id) == [r] + rest;
      assert LinkAfter(prev, [r] + rest) == LinkAfter(link, rest);
    }
  }

  lemma {:induction false} ChainRowsAt(scheme: Scheme, prev: Link, rows: seq<PendingRow>, id: nat, i: nat)
    requires i < |rows|
    ensures
      var chained := ChainRows(scheme, prev, rows, id);
      chained[i] == ChainRow(scheme, LinkAfter(prev, chained[..i]), rows[i], id + i)
    decreases |rows|
  {
    if i > 0 {
      var r := ChainRow(scheme, prev, rows[0], id);
      var rest := ChainRows(scheme, After(r.rowHash), rows[1..], id + 1);
      ChainRowsAt(scheme, After(r.rowHash), rows[1..], id + 1, i - 1);
      var chained := ChainRows(scheme, prev, rows, id);
      assert chained[..i] == [r] + rest[..i - 1];
    }
  }

  lemma ChainStep(scheme: Scheme, prev: Link, rows: seq<PendingRow>, id: nat, k: nat)
    requires k < |rows|
    ensures
      var chained := ChainRows(scheme, prev, rows, id);
      var row := ChainRow(scheme, LinkAfter(prev, chained[..k]), rows[k], id + k);
      && chained[..k + 1] == chained[..k] + [row]
      && LinkAfter(prev, chained[..k + 1]) == After(row.rowHash)
      && Ids(rows[..k + 1]) == Ids(rows[..k]) + {rows[k].id}
  {
    ChainRowsAt(scheme, prev, rows, id, k);
    IdsExtend(rows, k);
  }

  // ----- the drainer, undisturbed

  datatype Tables = Tables(pending: Queue, log: seq<LogRow>, nextId: nat)

  function Drained(scheme: Scheme, t: Tables, batchSize: nat): Tables {
    var k := Min(batchSize, |t.pending|);
    Tables(
      t.pending[k..],
      t.log + ChainRows(scheme, LatestLink(t.log), t.pending[..k], t.nextId),
      t.nextId + k)
  }

  lemma NothingDrained(scheme: Scheme, t: Tables, batchSize: nat)
    requires Batch(t.pending, batchSize) == []
    ensures Drained(scheme, t, batchSize) == t
  {
    assert t.log + [] == t.log && t.pending[0..] == t.pending;
  }

  lemma BatchDrained(scheme: Scheme, t: Tables, batchSize: nat)
    requires Ordered(t.pending)
    ensures
      var batch := Batch(t.pending, batchSize);
      var rest := Without(t.pending, Ids(batch));
      && Ordered(rest)
      && Drained(scheme, t, batchSize)
        == Tables(rest, t.log + ChainRows(scheme, LatestLink(t.log), batch, t.nextId), t.nextId + |batch|)
  {
    var k := Min(batchSize, |t.pending|);
    WithoutBatch(t.pending, k);
    SuffixOrdered(t.pending, k);
    assert |t.pending[..k]| == k;
  }

  lemma SuffixOrdered(queue: Queue, k: nat)
    requires Ordered(queue) && k <= |queue|
    ensures Ordered(queue[k..])
  {
    var rest := queue[k..];
    assert forall i | 0 <= i < |rest| :: rest[i] == queue[k + i];
  }

  function Flushed(scheme: Scheme, t: Tables, batchSize: nat, iterations: nat): Tables
    decreases iterations
  {
    if iterations == 0 || Min(batchSize, |t.pending|) == 0 then t
    else Flushed(scheme, Drained(scheme, t, batchSize), batchSize, iterations - 1)
  }

  class AuditStore {
    const scheme: Scheme
    var pending: Queue
    var log: seq<LogRow>
    var nextId: nat

    constructor (scheme: Scheme)
      ensures this.scheme == scheme && State() == Tables([], [], 0)
    {
      this.scheme := scheme;
      pending, log, nextId := [], [], 0;
    }

    function State(): Tables
      reads this
    {
      Tables(pending, log, nextId)
    }

    /** The insert loop: every row is linked to the one before it. */
    method Chain(batch: seq<PendingRow>) returns (drained: set<PendingId>)
      modifies this`log, this`nextId
      ensures log == old(log) + ChainRows(scheme, LatestLink(old(log)), batch, old(nextId))
      ensures nextId == old(nextId) + |batch|
      ensures drained == Ids(batch)
    {
      var prev := LatestLink(log);
      drained := {};
      ghost var start, before, id := prev, log, nextId;
      ghost var all := ChainRows(scheme, start, batch, id);
      var k := 0;
      while k < |batch|
        invariant 0 <= k <= |batch|
        invariant log == before + all[..k] && nextId == id + k
        invariant prev == LinkAfter(start, all[..k])
        invariant drained == Ids(batch[..k])
      {
        ChainStep(scheme, start, batch, id, k);
        var row := ChainRow(scheme, prev, batch[k], nextId);
        log := log + [row];
        nextId := nextId + 1;
        prev := After(row.rowHash);
        drained := drained + {batch[k].id};
        k := k + 1;
      }
      assert batch[..k] == batch && all[..k] == all;
    }

    /** `drain_audit_chain`; `lockFree` is the answer of the advisory try-lock. */
    method Drain(lockFree: bool, batchSize: nat) returns (n: nat)
      requires Ordered(pending)
      modifies this
      ensures Ordered(pending)
      ensures !lockFree ==> n == 0 && unchanged(this)
      ensures lockFree ==>
        && State() == Drained(scheme, old(State()), batchSize)
        && n == Min(batchSize, |old(pending)|)
    {
      if !lockFree {
        return 0;
      }
      var batch := Batch(pending, batchSize);
      n := |batch|;
      if batch == [] {
        NothingDrained(scheme, State(), batchSize);
        return;
      }
      BatchDrained(scheme, State(), batchSize);
      var drained := Chain(batch);
      pending := Without(pending, drained);
    }

    /** `flush_audit_chain` inside one transaction that holds the lock. */
    method Flush(batchSize: nat, maxIterations: nat) returns (total: nat)
      requires Ordered(pending)
      modifies this
      ensures State() == Flushed(scheme, old(State()), batchSize, maxIterations)
      ensures total == |log| - |old(log)|
    {
      total := 0;
      var i := 0;
      while i < maxIterations
        invariant 0 <= i <= maxIterations && Ordered(pending)
        invariant Flushed(scheme, State(), batchSize, maxIterations - i)
            == Flushed(scheme, old(State()), batchSize, maxIterations)
        invariant |log| == |old(log)| + total
      {
        var n := Drain(true, batchSize);
        if n == 0 {
          break;
        }
        total := total + n;
        i := i + 1;
      }
    }
  }

  lemma IdsExtend(rows: seq<PendingRow>, k: nat)
    requires k < |rows|
    ensures Ids(rows[..k + 1]) == Ids(rows[..k]) + {rows[k].id}
  {
    forall x | x in Ids(rows[..k + 1])
      ensures x in Ids(rows[..k]) + {rows[k].id}
    {
      var i: nat :| i < k + 1 && rows[..k + 1][i].id == x;
      if i < k { assert rows[..k][i].id == x; }
    }
    forall x | x in Ids(rows[..k])
      ensures x in Ids(rows[..k + 1])
    {
      var i: nat :| i < k && rows[..k][i].id == x;
      assert rows[..k + 1][i].id == x;
    }
    assert rows[..k + 1][k].id == rows[k].id;
  }
}
