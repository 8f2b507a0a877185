/** Producers and drainers of one tenant's audit log (`engine/audit.py`) as a
    state machine.  A producer's insert is one committed step that may fall
    between any two statements of the drainer.  Drainers hold an advisory lock
    for the whole transaction, so at most one is open; it may drain any number
    of batches and then commits or rolls back. */
module AuditProtocol {
  import opened AuditChain
  import opened AuditLog

  datatype Phase =
    | Between
    | Selected(batch: seq<PendingRow>)
    | Chaining(batch: seq<PendingRow>, done: nat, prev: Link)

  /** The lock holder's uncommitted work.  `heads` marks the rows whose link came
      from a lookup rather than from the row inserted just before. */
  datatype Drainer =
    | Idle
    | Open(rows: seq<LogRow>, heads: seq<bool>, deleted: set<PendingId>, phase: Phase)

  /** The committed tables, the sequence of audit_log, everything ever enqueued,
      and the drainer. */
  datatype State = State(
    pending: Queue, log: seq<LogRow>, heads: seq<bool>, nextId: nat,
    entered: map<PendingId, PendingRow>, drainer: Drainer)

  datatype Step =
    | Enqueue(row: PendingRow)
    | Begin
    | Select(batchSize: nat)
    | Lookup
    | InsertNext
    | Delete
    | Commit
    | Rollback

  const INITIAL := State([], [], [], 0, map[], Idle)

  /** One step.  A step that cannot be taken (the lock is held, the primary key
      exists, another statement is due) leaves the state alone. */
  function Apply(scheme: Scheme, s: State, step: Step): State {
    match step
    case Enqueue(row) =>
      if row.id in s.entered then s
      else s.(pending := Insert(s.pending, row), entered := s.entered[row.id := row])
    case Begin =>
      if s.drainer.Idle? then s.(drainer := Open([], [], {}, Between)) else s
    case Rollback =>
      if s.drainer.Open? then s.(drainer := Idle) else s
    case Commit =>
      if s.drainer.Open? && s.drainer.phase.Between? then
        s.(pending := Without(s.pending, s.drainer.deleted),
           log := s.log + s.drainer.rows,
           heads := s.heads + s.drainer.heads,
           drainer := Idle)
      else s
    case Select(batchSize) =>
      if s.drainer.Open? && s.drainer.phase.Between? then
        var batch := Batch(Without(s.pending, s.drainer.deleted), batchSize);
        if batch == [] then s else s.(drainer := s.drainer.(phase := Selected(batch)))
      else s
    case Lookup =>
      if s.drainer.Open? && s.drainer.phase.Selected? then
        var link := LatestLink(s.log + s.drainer.rows);
        s.(drainer := s.drainer.(phase := Chaining(s.drainer.phase.batch, 0, link)))
      else s
    case InsertNext =>
      if s.drainer.Open? && s.drainer.phase.Chaining? && s.drainer.phase.done < |s.drainer.phase.batch| then
        var Chaining(batch, done, prev) := s.drainer.phase;
        var row := ChainRow(scheme, prev, batch[done], s.nextId);
        s.(nextId := s.nextId + 1,
           drainer := s.drainer.(
             rows := s.drainer.rows + [row],
             heads := s.drainer.heads + [done == 0],
             phase := Chaining(batch, done + 1, After(row.rowHash))))
      else s
    case Delete =>
      if s.drainer.Open? && s.drainer.phase.Chaining? && s.drainer.phase.done >= |s.drainer.phase.batch| then
        s.(drainer := s.drainer.(deleted := s.drainer.deleted + Ids(s.drainer.phase.batch), phase := Between))
      else s
  }

  function Run(scheme: Scheme, s: State, steps: seq<Step>): State
    decreases |steps|
  {
    if steps == [] then s else Run(scheme, Apply(scheme, s, steps[0]), steps[1..])
  }

  // ----- the queue

  lemma {:induction false} InsertMembers(queue: Queue, row: PendingRow)
    ensures forall p :: p in Insert(queue, row) <==> p in queue || p == row
    decreases |queue|
  {
    if queue != [] && row.id.number >= queue[0].id.number {
      InsertMembers(queue[1..], row);
      assert queue == [queue[0]] + queue[1..];
    }
  }

  lemma HeadIsLeast(head: PendingRow, rest: Queue)
    requires Ordered(rest) && forall p | p in rest :: head.id.number < p.id.number
    ensures Ordered([head] + rest)
  {
    assert forall j | 0 <= j < |rest| :: rest[j] in rest;
  }

  lemma {:induction false} InsertAfterHead(queue: Queue, row: PendingRow)
    requires queue != [] && Ordered(queue) && (forall p | p in queue :: p.id != row.id)
    requires row.id.number >= queue[0].id.number && Ordered(Insert(queue[1..], row))
    ensures Ordered([queue[0]] + Insert(queue[1..], row))
  {
    assert queue[0] in queue;
    InsertMembers(queue[1..], row);
    HeadIsLeast(queue[0], Insert(queue[1..], row));
  }

  lemma {:induction false} InsertOrdered(queue: Queue, row: PendingRow)
    requires Ordered(queue) && forall p | p in queue :: p.id != row.id
    ensures Ordered(Insert(queue, row))
    decreases |queue|
  {
    if queue != [] && row.id.number >= queue[0].id.number {
      InsertOrdered(queue[1..], row);
      InsertAfterHead(queue, row);
    }
  }

  lemma {:induction false} WithoutMembers(queue: Queue, ids: set<PendingId>)
    ensures forall p :: p in Without(queue, ids) <==> p in queue && p.id !in ids
    ensures Ordered(queue) ==> Ordered(Without(queue, ids))
    decreases |queue|
  {
    if queue != [] {
      WithoutMembers(queue[1..], ids);
      assert queue == [queue[0]] + queue[1..];
      var rest := Without(queue[1..], ids);
      forall j | 0 <= j < |rest| && Ordered(queue)
        ensures queue[0].id.number < rest[j].id.number
      {
        assert rest[j] in rest;
        var i :| 0 <= i < |queue[1..]| && queue[1..][i] == rest[j];
      }
    }
  }

  // ----- the invariant

  /** The log as the lock holder sees it. */
  function Seen(s: State): seq<LogRow> {
    if s.drainer.Open? then s.log + s.drainer.rows else s.log
  }

  function SeenHeads(s: State): seq<bool> {
    if s.drainer.Open? then s.heads + s.drainer.heads else s.heads
  }

  function Sources(log: seq<LogRow>): set<PendingId> {
    set i | 0 <= i < |log| :: log[i].source
  }

  predicate LinkedAt(scheme: Scheme, log: seq<LogRow>, head: bool, i: nat)
    requires i < |log|
  {
    && log[i].rowHash == RowHash(scheme, log[i].prevHash, log[i].data)
    && (head ==> log[i].prevHash == LatestLink(log[..i]))
    && (!head ==> i > 0 && log[i].prevHash == After(log[i - 1].rowHash))
  }

  predicate Linked(scheme: Scheme, log: seq<LogRow>, heads: seq<bool>) {
    && |heads| == |log|
    && forall i {:trigger LinkedAt(scheme, log, heads[i], i)} | 0 <= i < |log| :: LinkedAt(scheme, log, heads[i], i)
  }

  /** Every row is an entry, chained once. */
  predicate Faithful(log: seq<LogRow>, entered: map<PendingId, PendingRow>) {
    && (forall i | 0 <= i < |log| ::
          && log[i].source in entered
          && log[i].data == entered[log[i].source].data
          && log[i].context == entered[log[i].source].context)
    && (forall i, j | 0 <= i < j < |log| :: log[i].source != log[j].source)
  }

  predicate Numbered(log: seq<LogRow>, nextId: nat) {
    && IdsAscend(log)
    && forall i | 0 <= i < |log| :: log[i].id < nextId
  }

  /** Each committed entry is in exactly one of the two tables. */
  predicate Accounted(s: State) {
    && Ordered(s.pending)
    && (forall p | p in s.pending :: p.id in s.entered && s.entered[p.id] == p)
    && s.entered.Keys == Ids(s.pending) + Sources(s.log)
    && Ids(s.pending) !! Sources(s.log)
  }

  predicate BatchOk(s: State, batch: seq<PendingRow>)
    requires s.drainer.Open?
  {
    && Ordered(batch)
    && forall p | p in batch :: p in s.pending && p.id !in s.drainer.deleted
  }

  predicate DrainerOk(s: State)
    requires s.drainer.Open?
  {
    var d := s.drainer;
    && |d.heads| == |d.rows|
    && d.deleted <= Ids(s.pending)
    && match d.phase
       case Between => Sources(d.rows) == d.deleted
       case Selected(batch) => Sources(d.rows) == d.deleted && BatchOk(s, batch)
       case Chaining(batch, done, prev) =>
         && BatchOk(s, batch) && done <= |batch|
         && Sources(d.rows) == d.deleted + Ids(batch[..done])
         && (done == 0 ==> prev == LatestLink(Seen(s)))
         && (done > 0 ==> d.rows != [] && prev == After(d.rows[|d.rows| - 1].rowHash))
  }

  predicate Inv(scheme: Scheme, s: State) {
    && Linked(scheme, Seen(s), SeenHeads(s))
    && |s.heads| == |s.log|
    && Faithful(Seen(s), s.entered)
    && Numbered(Seen(s), s.nextId)
    && Accounted(s)
    && (s.drainer.Open? ==> DrainerOk(s))
  }

  // ----- preservation, step by step

  lemma InPending(s: State, p: PendingRow)
    requires p in s.pending
    ensures p.id in Ids(s.pending)
  {
    var i :| 0 <= i < |s.pending| && s.pending[i] == p;
  }

  lemma MembersToIds(a: seq<PendingRow>, b: seq<PendingRow>)
    requires forall p | p in a :: p in b
    ensures Ids(a) <= Ids(b)
  {
    forall x | x in Ids(a)
      ensures x in Ids(b)
    {
      var i :| 0 <= i < |a| && a[i].id == x;
      assert a[i] in b;
      var j :| 0 <= j < |b| && b[j] == a[i];
    }
  }

  lemma EnqueueKeeps(scheme: Scheme, s: State, row: PendingRow)
    requires Inv(scheme, s)
    ensures Inv(scheme, Apply(scheme, s, Enqueue(row)))
  {
    var t := Apply(scheme, s, Enqueue(row));
    if row.id !in s.entered {
      InsertMembers(s.pending, row);
      forall p | p in s.pending ensures p.id != row.id { InPending(s, p); }
      InsertOrdered(s.pending, row);
      assert Ids(t.pending) == Ids(s.pending) + {row.id} by {
        MembersToIds(s.pending, t.pending);
        InPending(t, row);
        forall x | x in Ids(t.pending)
          ensures x in Ids(s.pending) + {row.id}
        {
          var i :| 0 <= i < |t.pending| && t.pending[i].id == x;
          assert t.pending[i] in t.pending;
          if t.pending[i] != row { InPending(s, t.pending[i]); }
        }
      }
      assert Seen(t) == Seen(s) && SeenHeads(t) == SeenHeads(s);
      assert Accounted(t);
    }
  }

  lemma BeginKeeps(scheme: Scheme, s: State)
    requires Inv(scheme, s)
    ensures Inv(scheme, Apply(scheme, s, Begin))
  {
    assert s.log + [] == s.log && s.heads + [] == s.heads;
  }

  lemma LinkedPrefix(scheme: Scheme, log: seq<LogRow>, heads: seq<bool>, n: nat)
    requires Linked(scheme, log, heads) && n <= |log|
    ensures Linked(scheme, log[..n], heads[..n])
  {
    forall i | 0 <= i < n
      ensures LinkedAt(scheme, log[..n], heads[..n][i], i)
    {
      assert LinkedAt(scheme, log, heads[i], i);
      assert log[..n][..i] == log[..i];
    }
  }

  lemma RollbackKeeps(scheme: Scheme, s: State)
    requires Inv(scheme, s)
    ensures Inv(scheme, Apply(scheme, s, Rollback))
  {
    var full, heads := Seen(s), SeenHeads(s);
    LinkedPrefix(scheme, full, heads, |s.log|);
    assert s.log == full[..|s.log|] && s.heads == heads[..|s.log|];
    assert forall i | 0 <= i < |s.log| :: full[i] == s.log[i];
  }

  lemma IdsWithout(queue: Queue, ids: set<PendingId>)
    ensures Ids(Without(queue, ids)) == Ids(queue) - ids
  {
    var rest := Without(queue, ids);
    WithoutMembers(queue, ids);
    forall x
      ensures x in Ids(rest) <==> x in Ids(queue) - ids
    {
      if x in Ids(rest) {
        var i :| 0 <= i < |rest| && rest[i].id == x;
        assert rest[i] in rest;
      }
      if x in Ids(queue) - ids {
        var i :| 0 <= i < |queue| && queue[i].id == x;
        assert queue[i] in rest;
      }
    }
  }

  /** Moving entries from the queue to the log. */
  lemma MovingAccounts(s: State, t: State, rows: seq<LogRow>)
    requires Accounted(s) && Sources(rows) <= Ids(s.pending) && t.entered == s.entered
    requires t.pending == Without(s.pending, Sources(rows)) && t.log == s.log + rows
    ensures Accounted(t)
  {
    WithoutMembers(s.pending, Sources(rows));
    IdsWithout(s.pending, Sources(rows));
    SourcesConcat(s.log, rows);
  }

  lemma CommitAccounts(scheme: Scheme, s: State)
    requires Inv(scheme, s) && s.drainer.Open? && s.drainer.phase.Between?
    ensures Accounted(Apply(scheme, s, Commit))
  {
    MovingAccounts(s, Apply(scheme, s, Commit), s.drainer.rows);
  }

  lemma CommitKeeps(scheme: Scheme, s: State)
    requires Inv(scheme, s)
    ensures Inv(scheme, Apply(scheme, s, Commit))
  {
    if s.drainer.Open? && s.drainer.phase.Between? {
      var t := Apply(scheme, s, Commit);
      assert Seen(t) == Seen(s) && SeenHeads(t) == SeenHeads(s);
      CommitAccounts(scheme, s);
    }
  }

  lemma SourcesConcat(a: seq<LogRow>, b: seq<LogRow>)
    ensures Sources(a + b) == Sources(a) + Sources(b)
  {
    forall x | x in Sources(a) + Sources(b)
      ensures x in Sources(a + b)
    {
      if x in Sources(a) {
        var i :| 0 <= i < |a| && a[i].source == x;
        assert (a + b)[i].source == x;
      } else {
        var i :| 0 <= i < |b| && b[i].source == x;
        assert (a + b)[|a| + i].source == x;
      }
    }
  }

  lemma SelectKeeps(scheme: Scheme, s: State, batchSize: nat)
    requires Inv(scheme, s)
    ensures Inv(scheme, Apply(scheme, s, Select(batchSize)))
  {
    var t := Apply(scheme, s, Select(batchSize));
    if t != s {
      WithoutMembers(s.pending, s.drainer.deleted);
      assert forall p | p in t.drainer.phase.batch :: p in Without(s.pending, s.drainer.deleted);
      assert Seen(t) == Seen(s) && SeenHeads(t) == SeenHeads(s);
    }
  }

  lemma LookupKeeps(scheme: Scheme, s: State)
    requires Inv(scheme, s)
    ensures Inv(scheme, Apply(scheme, s, Lookup))
  {
    var t := Apply(scheme, s, Lookup);
    if t != s {
      assert Seen(t) == Seen(s) && SeenHeads(t) == SeenHeads(s);
      assert Ids(t.drainer.phase.batch[..0]) == {};
    }
  }

  lemma DeleteKeeps(scheme: Scheme, s: State)
    requires Inv(scheme, s)
    ensures Inv(scheme, Apply(scheme, s, Delete))
  {
    var t := Apply(scheme, s, Delete);
    if s.drainer.Open? && s.drainer.phase.Chaining? && s.drainer.phase.done >= |s.drainer.phase.batch| {
      assert Seen(t) == Seen(s) && SeenHeads(t) == SeenHeads(s);
      var batch := s.drainer.phase.batch;
      assert batch[..s.drainer.phase.done] == batch;
      MembersToIds(batch, s.pending);
    }
  }

  /** The row about to be inserted is still pending and not yet chained. */
  lemma NextIsUnchained(scheme: Scheme, s: State)
    requires Inv(scheme, s) && s.drainer.Open? && s.drainer.phase.Chaining?
    requires s.drainer.phase.done < |s.drainer.phase.batch|
    ensures
      var p := s.drainer.phase.batch[s.drainer.phase.done];
      p.id in s.entered && s.entered[p.id] == p && p.id !in Sources(Seen(s))
  {
    var batch, done := s.drainer.phase.batch, s.drainer.phase.done;
    var p := batch[done];
    assert p in batch;
    InPending(s, p);
    SourcesConcat(s.log, s.drainer.rows);
    assert forall i | 0 <= i < done :: batch[..done][i].id.number < p.id.number;
  }

  lemma LinkedExtend(scheme: Scheme, log: seq<LogRow>, heads: seq<bool>, row: LogRow, head: bool)
    requires Linked(scheme, log, heads)
    requires row.rowHash == RowHash(scheme, row.prevHash, row.data)
    requires head ==> row.prevHash == LatestLink(log)
    requires !head ==> log != [] && row.prevHash == After(log[|log| - 1].rowHash)
    ensures Linked(scheme, log + [row], heads + [head])
  {
    var full, marks := log + [row], heads + [head];
    forall i | 0 <= i < |full|
      ensures LinkedAt(scheme, full, marks[i], i)
    {
      if i < |log| {
        assert LinkedAt(scheme, log, heads[i], i);
        assert full[..i] == log[..i];
      } else {
        assert full[..i] == log;
      }
    }
  }

  lemma InsertKeeps(scheme: Scheme, s: State)
    requires Inv(scheme, s)
    ensures Inv(scheme, Apply(scheme, s, InsertNext))
  {
    if s.drainer.Open? && s.drainer.phase.Chaining? && s.drainer.phase.done < |s.drainer.phase.batch| {
      InsertKeepsLog(scheme, s);
      InsertKeepsDrainer(scheme, s);
    }
  }

  lemma InsertKeepsLog(scheme: Scheme, s: State)
    requires Inv(scheme, s) && s.drainer.Open?
    requires s.drainer.phase.Chaining? && s.drainer.phase.done < |s.drainer.phase.batch|
    ensures
      var t := Apply(scheme, s, InsertNext);
      Linked(scheme, Seen(t), SeenHeads(t)) && Faithful(Seen(t), t.entered) && Numbered(Seen(t), t.nextId)
  {
    var t := Apply(scheme, s, InsertNext);
    var Chaining(batch, done, prev) := s.drainer.phase;
    var row := ChainRow(scheme, prev, batch[done], s.nextId);
    NextIsUnchained(scheme, s);
    assert Seen(t) == Seen(s) + [row] && SeenHeads(t) == SeenHeads(s) + [done == 0];
    LinkedExtend(scheme, Seen(s), SeenHeads(s), row, done == 0);
    FaithfulExtend(Seen(s), s.entered, row);
    NumberedExtend(Seen(s), s.nextId, row);
  }

  lemma NumberedExtend(log: seq<LogRow>, nextId: nat, row: LogRow)
    requires Numbered(log, nextId) && row.id == nextId
    ensures Numbered(log + [row], nextId + 1)
  {
  }

  lemma InsertKeepsDrainer(scheme: Scheme, s: State)
    requires s.drainer.Open? && DrainerOk(s)
    requires s.drainer.phase.Chaining? && s.drainer.phase.done < |s.drainer.phase.batch|
    ensures DrainerOk(Apply(scheme, s, InsertNext))
  {
    var Chaining(batch, done, prev) := s.drainer.phase;
    var row := ChainRow(scheme, prev, batch[done], s.nextId);
    SourcesConcat(s.drainer.rows, [row]);
    assert Sources([row]) == {row.source} by { assert [row][0].source == row.source; }
    IdsExtend(batch, done);
  }

  lemma FaithfulExtend(log: seq<LogRow>, entered: map<PendingId, PendingRow>, row: LogRow)
    requires Faithful(log, entered) && row.source in entered && row.source !in Sources(log)
    requires row.data == entered[row.source].data && row.context == entered[row.source].context
    ensures Faithful(log + [row], entered)
  {
    forall i | 0 <= i < |log|
      ensures log[i].source != row.source
    {
      assert log[i].source in Sources(log);
    }
  }

  lemma {:induction false} StepKeeps(scheme: Scheme, s: State, step: Step)
    requires Inv(scheme, s)
    ensures Inv(scheme, Apply(scheme, s, step))
  {
    match step
    case Enqueue(row) => EnqueueKeeps(scheme, s, row);
    case Begin => BeginKeeps(scheme, s);
    case Select(batchSize) => SelectKeeps(scheme, s, batchSize);
    case Lookup => LookupKeeps(scheme, s);
    case InsertNext => InsertKeeps(scheme, s);
    case Delete => DeleteKeeps(scheme, s);
    case Commit => CommitKeeps(scheme, s);
    case Rollback => RollbackKeeps(scheme, s);
  }
}
