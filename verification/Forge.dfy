/** The retain stage of the Forge (`forge/pipeline.py`, `distill/graph_writer.py`)
    under crashes and re-runs: one transaction per source memory. */
module Forge {
  import opened Graph

  /** What `_load_memory_content` and the chunker make of a memory. */
  datatype Content = Missing | Blank | Text(chunks: nat)

  /** What `not s` and `s.strip()` can tell apart. */
  datatype Summary = Empty | Whitespace | Words(text: string)

  /** Where the transaction is interrupted: nowhere, before it looks at anything,
      before it writes, or when it has written so many memos. */
  datatype Crash = NoCrash | AtStart | Early | After(writes: nat)

  /** Everything one pass over a memory gets from outside: its content, what the
      model extracts, the fallback summary, and the point of failure. */
  datatype Attempt = Attempt(content: Content, entities: seq<string>, extracted: Summary, rolled: Summary, crash: Crash)

  datatype Body = Entity(content: string) | SummaryOf(text: string)

  datatype Memo = Memo(id: nat, job: Id, source: Id, transaction: nat, body: Body)

  datatype Provenance = Provenance(memo: nat, job: Id, source: Id)

  /** The committed tables, the next memo id and the next transaction. */
  datatype Tables = Tables(memos: seq<Memo>, provenance: seq<Provenance>, nextId: nat, nextTransaction: nat)

  const EMPTY := Tables([], [], 0, 0)

  // ----- one memory

  predicate AlreadyDistilled(t: Tables, job: Id, source: Id) {
    exists i | 0 <= i < |t.provenance| :: t.provenance[i].job == job && t.provenance[i].source == source
  }

  lemma DistilledIffRow(t: Tables, job: Id, source: Id)
    ensures AlreadyDistilled(t, job, source) <==> exists p | p in t.provenance :: p.job == job && p.source == source
  {
    if AlreadyDistilled(t, job, source) {
      var i :| 0 <= i < |t.provenance| && t.provenance[i].job == job && t.provenance[i].source == source;
      assert t.provenance[i] in t.provenance;
    }
  }

  /** The summary after the optional rolling pass. */
  function FinalSummary(a: Attempt, includeSummary: bool): Summary {
    if !includeSummary then Empty
    else if a.extracted.Empty? then a.rolled
    else a.extracted
  }

  function EntityBodies(entities: seq<string>): seq<Body> {
    if entities == [] then [] else EntityBodies(entities[..|entities| - 1]) + [Entity(entities[|entities| - 1])]
  }

  /** The memos `write_distill_result` writes for a result. */
  function Written(a: Attempt, includeSummary: bool): seq<Body> {
    var s := FinalSummary(a, includeSummary);
    EntityBodies(a.entities) + if s.Words? then [SummaryOf(s.text)] else []
  }

  /** What a pass writes: the entities in order, and then the summary if there is to be
      one, the extracted one unless that is empty, and it is not blank. */
  lemma {:induction false} WrittenIs(a: Attempt, includeSummary: bool)
    ensures |Written(a, includeSummary)| >= |a.entities|
    ensures forall i | 0 <= i < |a.entities| :: Written(a, includeSummary)[i] == Entity(a.entities[i])
    ensures Written(a, includeSummary)[|a.entities|..] ==
      if includeSummary && a.extracted.Words? then [SummaryOf(a.extracted.text)]
      else if includeSummary && a.extracted.Empty? && a.rolled.Words? then [SummaryOf(a.rolled.text)]
      else []
  {
    EntitiesInOrder(a.entities);
  }

  lemma {:induction false} EntitiesInOrder(entities: seq<string>)
    ensures |EntityBodies(entities)| == |entities|
    ensures forall i | 0 <= i < |entities| :: EntityBodies(entities)[i] == Entity(entities[i])
    decreases |entities|
  {
    if entities != [] {
      EntitiesInOrder(entities[..|entities| - 1]);
    }
  }

  /** One memo and its provenance row. */
  function Added(t: Tables, job: Id, source: Id, body: Body): Tables {
    t.(memos := t.memos + [Memo(t.nextId, job, source, t.nextTransaction, body)],
       provenance := t.provenance + [Provenance(t.nextId, job, source)],
       nextId := t.nextId + 1)
  }

  function AddedAll(t: Tables, job: Id, source: Id, bodies: seq<Body>): Tables {
    if bodies == [] then t
    else Added(AddedAll(t, job, source, bodies[..|bodies| - 1]), job, source, bodies[|bodies| - 1])
  }

  predicate HasText(c: Content) {
    c.Text? && c.chunks > 0
  }

  /** The attempt reaches its commit. */
  predicate Commits(a: Attempt) {
    HasText(a.content) && a.crash.NoCrash?
  }

  function AfterMemory(t: Tables, job: Id, source: Id, a: Attempt, includeSummary: bool): Tables {
    if AlreadyDistilled(t, job, source) || !Commits(a) then t
    else AddedAll(t, job, source, Written(a, includeSummary)).(nextTransaction := t.nextTransaction + 1)
  }

  datatype Outcome = Skipped | Processed(memosWritten: nat) | Raised

  function OutcomeOf(t: Tables, job: Id, source: Id, a: Attempt, includeSummary: bool): Outcome {
    if a.crash.AtStart? then Raised
    else if AlreadyDistilled(t, job, source) || !HasText(a.content) then Skipped
    else if a.crash.NoCrash? then Processed(|Written(a, includeSummary)|)
    else Raised
  }

  // ----- one run

  /** The tables after a run over the memories, which the first exception ends. */
  function AfterRun(t: Tables, job: Id, sources: seq<Id>, attempts: seq<Attempt>, includeSummary: bool): Tables
    requires |attempts| == |sources|
    decreases |sources|
  {
    if sources == [] || OutcomeOf(t, job, sources[0], attempts[0], includeSummary).Raised? then t
    else
      var first := AfterMemory(t, job, sources[0], attempts[0], includeSummary);
      AfterRun(first, job, sources[1..], attempts[1..], includeSummary)
  }

  /** One pass over a memory that does not raise. */
  predicate Passes(t: Tables, t': Tables, job: Id, source: Id, a: Attempt, includeSummary: bool) {
    !OutcomeOf(t, job, source, a, includeSummary).Raised? && t' == AfterMemory(t, job, source, a, includeSummary)
  }

  predicate PassAt(
      states: seq<Tables>, job: Id, sources: seq<Id>, attempts: seq<Attempt>, includeSummary: bool, i: nat)
    requires |attempts| == |sources| && i < |sources| && i + 1 < |states|
  {
    Passes(states[i], states[i + 1], job, sources[i], attempts[i], includeSummary)
  }

  /** The tables before each of the first passes of a run, none of which raises, and
      after the last of them. */
  ghost predicate AreStates(
      states: seq<Tables>, job: Id, sources: seq<Id>, attempts: seq<Attempt>, includeSummary: bool)
    requires |attempts| == |sources|
  {
    && 0 < |states| <= |sources| + 1
    && forall i: nat | i + 1 < |states| :: PassAt(states, job, sources, attempts, includeSummary, i)
  }

  /** The run is over after these passes: none is left, or the next one raises. */
  ghost predicate IsOver(
      states: seq<Tables>, job: Id, sources: seq<Id>, attempts: seq<Attempt>, includeSummary: bool)
    requires |attempts| == |sources| && 0 < |states| <= |sources| + 1
  {
    var n := |states| - 1;
    n == |sources| || OutcomeOf(states[n], job, sources[n], attempts[n], includeSummary).Raised?
  }

  /** How many of the first `n` passes are processed rather than skipped. */
  ghost function ProcessedIn(
      states: seq<Tables>, job: Id, sources: seq<Id>, attempts: seq<Attempt>, includeSummary: bool, n: nat): nat
    requires |attempts| == |sources| && n <= |sources| && n <= |states|
  {
    if n == 0 then 0
    else
      ProcessedIn(states, job, sources, attempts, includeSummary, n - 1)
      + if OutcomeOf(states[n - 1], job, sources[n - 1], attempts[n - 1], includeSummary).Processed? then 1 else 0
  }

  /** The first exception ends a run, and keeps what was committed before it. */
  lemma {:induction false} RunStopsAtFirst(
      states: seq<Tables>, job: Id, sources: seq<Id>, attempts: seq<Attempt>, includeSummary: bool)
    requires |attempts| == |sources| && AreStates(states, job, sources, attempts, includeSummary)
    requires IsOver(states, job, sources, attempts, includeSummary)
    ensures AfterRun(states[0], job, sources, attempts, includeSummary) == states[|states| - 1]
    decreases |states|
  {
    if |states| > 1 {
      assert PassAt(states, job, sources, attempts, includeSummary, 0);
      LaterStates(states, job, sources, attempts, includeSummary);
      RunStopsAtFirst(states[1..], job, sources[1..], attempts[1..], includeSummary);
    }
  }

  lemma LaterStates(states: seq<Tables>, job: Id, sources: seq<Id>, attempts: seq<Attempt>, includeSummary: bool)
    requires |attempts| == |sources| && AreStates(states, job, sources, attempts, includeSummary) && |states| > 1
    ensures AreStates(states[1..], job, sources[1..], attempts[1..], includeSummary)
  {
    forall i: nat | i + 1 < |states[1..]|
      ensures PassAt(states[1..], job, sources[1..], attempts[1..], includeSummary, i)
    {
      assert PassAt(states, job, sources, attempts, includeSummary, i + 1);
    }
  }

  lemma {:induction false} ProcessedInPrefix(
      states: seq<Tables>, next: Tables, job: Id, sources: seq<Id>, attempts: seq<Attempt>, includeSummary: bool,
      n: nat)
    requires |attempts| == |sources| && n <= |sources| && n <= |states|
    ensures ProcessedIn(states + [next], job, sources, attempts, includeSummary, n)
        == ProcessedIn(states, job, sources, attempts, includeSummary, n)
    decreases n
  {
    if n > 0 {
      ProcessedInPrefix(states, next, job, sources, attempts, includeSummary, n - 1);
    }
  }

  lemma OneMorePass(
      states: seq<Tables>, next: Tables, job: Id, sources: seq<Id>, attempts: seq<Attempt>, includeSummary: bool)
    requires |attempts| == |sources| && AreStates(states, job, sources, attempts, includeSummary)
    requires |states| <= |sources|
    requires
      var n := |states| - 1;
      Passes(states[n], next, job, sources[n], attempts[n], includeSummary)
    ensures AreStates(states + [next], job, sources, attempts, includeSummary)
  {
    forall i: nat | i + 1 < |states + [next]|
      ensures PassAt(states + [next], job, sources, attempts, includeSummary, i)
    {
      assert i + 1 < |states| ==> PassAt(states, job, sources, attempts, includeSummary, i);
    }
  }

  class Pipeline {
    var tables: Tables
    const includeSummary: bool

    constructor (includeSummary: bool)
      ensures tables == EMPTY && this.includeSummary == includeSummary
    {
      tables := EMPTY;
      this.includeSummary := includeSummary;
    }

    /** `write_distill_result` on the transaction's own view of the tables; stops
        where the crash does. */
    method WriteDistillResult(job: Id, source: Id, a: Attempt, view: Tables)
      returns (written: Tables, count: nat, crashed: bool)
      ensures crashed <==> a.crash.After?
      ensures count ==
        if crashed && a.crash.writes < |Written(a, includeSummary)| then a.crash.writes
        else |Written(a, includeSummary)|
      ensures written == AddedAll(view, job, source, Written(a, includeSummary)[..count])
    {
      var bodies := Written(a, includeSummary);
      written, count := view, 0;
      while count < |bodies| && a.crash != After(count)
        invariant count <= |bodies| && (a.crash.After? && a.crash.writes < |bodies| ==> count <= a.crash.writes)
        invariant written == AddedAll(view, job, source, bodies[..count])
      {
        assert bodies[..count + 1][..count] == bodies[..count];
        written := Added(written, job, source, bodies[count]);
        count := count + 1;
      }
      crashed := a.crash.After?;
      assert bodies[..|bodies|] == bodies;
    }

    /** `_process_memory`: committed as a whole or not at all. */
    method ProcessMemory(job: Id, source: Id, a: Attempt) returns (outcome: Outcome)
      modifies this
      ensures tables == AfterMemory(old(tables), job, source, a, includeSummary)
      ensures outcome == OutcomeOf(old(tables), job, source, a, includeSummary)
      ensures !a.crash.AtStart? ==>
        (outcome == Skipped <==>
          || (exists p | p in old(tables).provenance :: p.job == job && p.source == source)
          || a.content.Missing? || a.content.Blank? || a.content == Text(0))
      ensures a.crash.AtStart? ==> outcome == Raised
      ensures outcome.Processed? ==> a.crash.NoCrash? && outcome.memosWritten == |Written(a, includeSummary)|
      ensures !outcome.Processed? ==> tables == old(tables)
    {
      assert AlreadyDistilled(tables, job, source) <==>
        exists p | p in tables.provenance :: p.job == job && p.source == source by {
        DistilledIffRow(tables, job, source);
      }
      if a.crash.AtStart? {
        return Raised;
      }
      if AlreadyDistilled(tables, job, source) {
        return Skipped;
      }
      if a.content.Missing? || a.content.Blank? {
        return Skipped;
      }
      if a.content.chunks == 0 {
        return Skipped;
      }
      if a.crash.Early? {
        return Raised;
      }
      var view, count, crashed := WriteDistillResult(job, source, a, tables);
      if crashed {
        return Raised;
      }
      assert Written(a, includeSummary)[..count] == Written(a, includeSummary);
      tables := view.(nextTransaction := tables.nextTransaction + 1);
      outcome := Processed(count);
    }

    /** The per-memory loop of `run`, with its counters. */
    method Run(job: Id, sources: seq<Id>, attempts: seq<Attempt>)
      returns (completed: bool, processed: nat, skipped: nat, memosWritten: nat, ghost states: seq<Tables>)
      requires |attempts| == |sources|
      modifies this
      ensures tables == AfterRun(old(tables), job, sources, attempts, includeSummary)
      ensures AreStates(states, job, sources, attempts, includeSummary)
      ensures IsOver(states, job, sources, attempts, includeSummary)
      ensures states[0] == old(tables) && states[|states| - 1] == tables
      ensures completed <==> |states| == |sources| + 1
      ensures processed == ProcessedIn(states, job, sources, attempts, includeSummary, |states| - 1)
      ensures processed + skipped == |states| - 1
      ensures |tables.memos| == |old(tables).memos| + memosWritten
      ensures if completed then processed + skipped == |sources| else processed + skipped < |sources|
      ensures completed ==> forall i | 0 <= i < |sources| ::
          Settled(tables, job, sources[i], attempts[i], includeSummary)
    {
      completed, processed, skipped, memosWritten := true, 0, 0, 0;
      states := [tables];
      for i := 0 to |sources|
        invariant processed + skipped == i
        invariant |states| == i + 1 && states[0] == old(tables) && states[i] == tables
        invariant AreStates(states, job, sources, attempts, includeSummary)
        invariant processed == ProcessedIn(states, job, sources, attempts, includeSummary, i)
        invariant |tables.memos| == |old(tables).memos| + memosWritten
      {
        ghost var was := tables;
        var outcome := ProcessMemory(job, sources[i], attempts[i]);
        if outcome.Raised? {
          completed := false;
          RunStopsAtFirst(states, job, sources, attempts, includeSummary);
          return;
        }
        OneMorePass(states, tables, job, sources, attempts, includeSummary);
        ProcessedInPrefix(states, tables, job, sources, attempts, includeSummary, i);
        AddedAllCounts(was, job, sources[i], Written(attempts[i], includeSummary));
        states := states + [tables];
        if outcome.Skipped? {
          skipped := skipped + 1;
        } else {
          processed := processed + 1;
          memosWritten := memosWritten + outcome.memosWritten;
        }
      }
      RunStopsAtFirst(states, job, sources, attempts, includeSummary);
      forall i | 0 <= i < |sources|
        ensures Settled(tables, job, sources[i], attempts[i], includeSummary)
      {
        SettledLater(states, job, sources, attempts, includeSummary, i, |sources|);
      }
    }
  }

  /** A memory that a run has been over is settled from then on. */
  lemma {:induction false} SettledLater(
      states: seq<Tables>, job: Id, sources: seq<Id>, attempts: seq<Attempt>, includeSummary: bool, i: nat, n: nat)
    requires |attempts| == |sources| && AreStates(states, job, sources, attempts, includeSummary)
    requires i < n < |states|
    ensures Settled(states[n], job, sources[i], attempts[i], includeSummary)
    decreases n
  {
    assert PassAt(states, job, sources, attempts, includeSummary, n - 1);
    if i == n - 1 {
      StepSettles(states[i], job, sources[i], attempts[i], includeSummary);
    } else {
      SettledLater(states, job, sources, attempts, includeSummary, i, n - 1);
      if AlreadyDistilled(states[n - 1], job, sources[i]) {
        StaysDistilled(states[n - 1], job, sources[n - 1], attempts[n - 1], includeSummary, sources[i]);
      }
    }
  }

  lemma {:induction false} AddedAllCounts(t: Tables, job: Id, source: Id, bodies: seq<Body>)
    ensures |AddedAll(t, job, source, bodies).memos| == |t.memos| + |bodies|
    ensures bodies != [] ==> AlreadyDistilled(AddedAll(t, job, source, bodies), job, source)
    decreases |bodies|
  {
    if bodies != [] {
      var front := AddedAll(t, job, source, bodies[..|bodies| - 1]);
      AddedAllCounts(t, job, source, bodies[..|bodies| - 1]);
      assert Added(front, job, source, bodies[|bodies| - 1]).provenance[|front.provenance|]
          == Provenance(front.nextId, job, source);
    }
  }

  /** The memory has its memos, or there was nothing to write for it. */
  predicate Settled(t: Tables, job: Id, source: Id, a: Attempt, includeSummary: bool) {
    AlreadyDistilled(t, job, source) || !HasText(a.content) || Written(a, includeSummary) == []
  }

  lemma StepSettles(t: Tables, job: Id, source: Id, a: Attempt, includeSummary: bool)
    requires !OutcomeOf(t, job, source, a, includeSummary).Raised?
    ensures Settled(AfterMemory(t, job, source, a, includeSummary), job, source, a, includeSummary)
  {
    AddedAllCounts(t, job, source, Written(a, includeSummary));
  }

  lemma {:induction false} ProvenanceGrows(t: Tables, job: Id, source: Id, bodies: seq<Body>)
    ensures t.provenance <= AddedAll(t, job, source, bodies).provenance
    decreases |bodies|
  {
    if bodies != [] {
      ProvenanceGrows(t, job, source, bodies[..|bodies| - 1]);
    }
  }

  lemma StaysDistilled(t: Tables, job: Id, source: Id, a: Attempt, includeSummary: bool, other: Id)
    requires AlreadyDistilled(t, job, other)
    ensures AlreadyDistilled(AfterMemory(t, job, source, a, includeSummary), job, other)
  {
    ProvenanceGrows(t, job, source, Written(a, includeSummary));
    var i :| 0 <= i < |t.provenance| && t.provenance[i].job == job && t.provenance[i].source == other;
    assert AfterMemory(t, job, source, a, includeSummary).provenance[i] == t.provenance[i];
  }
}
