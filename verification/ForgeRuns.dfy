/** Any sequence of Forge runs, each cut short anywhere: what the tables hold for a
    job and a source memory. */
module ForgeRuns {
  import opened Graph
  import opened Forge

  /** One pass over one memory. */
  datatype Pass = Pass(job: Id, source: Id, attempt: Attempt)

  datatype RunInput = RunInput(job: Id, sources: seq<Id>, attempts: seq<Attempt>)

  predicate WellFormed(r: RunInput) {
    |r.attempts| == |r.sources|
  }

  predicate AllWellFormed(runs: seq<RunInput>) {
    forall i | 0 <= i < |runs| :: WellFormed(runs[i])
  }

  /** The tables after one run after the other. */
  function History(t: Tables, runs: seq<RunInput>, includeSummary: bool): Tables
    requires AllWellFormed(runs)
  {
    if runs == [] then t
    else
      var last := runs[|runs| - 1];
      AfterRun(History(t, runs[..|runs| - 1], includeSummary), last.job, last.sources, last.attempts, includeSummary)
  }

  function Apply(t: Tables, p: Pass, includeSummary: bool): Tables {
    AfterMemory(t, p.job, p.source, p.attempt, includeSummary)
  }

  function ApplyAll(t: Tables, passes: seq<Pass>, includeSummary: bool): Tables {
    if passes == [] then t
    else Apply(ApplyAll(t, passes[..|passes| - 1], includeSummary), passes[|passes| - 1], includeSummary)
  }

  /** The passes a run gets to make before it is over or stopped. */
  function RunPasses(t: Tables, job: Id, sources: seq<Id>, attempts: seq<Attempt>, includeSummary: bool): seq<Pass>
    requires |attempts| == |sources|
    decreases |sources|
  {
    if sources == [] || OutcomeOf(t, job, sources[0], attempts[0], includeSummary).Raised? then []
    else
      [Pass(job, sources[0], attempts[0])]
      + RunPasses(AfterMemory(t, job, sources[0], attempts[0], includeSummary), job, sources[1..], attempts[1..],
        includeSummary)
  }

  function HistoryPasses(t: Tables, runs: seq<RunInput>, includeSummary: bool): seq<Pass>
    requires AllWellFormed(runs)
  {
    if runs == [] then []
    else
      var front, last := runs[..|runs| - 1], runs[|runs| - 1];
      HistoryPasses(t, front, includeSummary)
      + RunPasses(History(t, front, includeSummary), last.job, last.sources, last.attempts, includeSummary)
  }

  lemma {:induction false} ApplyConcat(t: Tables, a: seq<Pass>, b: seq<Pass>, includeSummary: bool)
    ensures ApplyAll(t, a + b, includeSummary) == ApplyAll(ApplyAll(t, a, includeSummary), b, includeSummary)
    decreases |b|
  {
    if b == [] {
      assert a + b == a;
    } else {
      ApplyConcat(t, a, b[..|b| - 1], includeSummary);
      assert (a + b)[..|a + b| - 1] == a + b[..|b| - 1];
    }
  }

  lemma {:induction false} RunIsItsPasses(
      t: Tables, job: Id, sources: seq<Id>, attempts: seq<Attempt>, includeSummary: bool)
    requires |attempts| == |sources|
    ensures AfterRun(t, job, sources, attempts, includeSummary)
        == ApplyAll(t, RunPasses(t, job, sources, attempts, includeSummary), includeSummary)
    decreases |sources|
  {
    if sources != [] && !OutcomeOf(t, job, sources[0], attempts[0], includeSummary).Raised? {
      var first := Pass(job, sources[0], attempts[0]);
      var next := AfterMemory(t, job, sources[0], attempts[0], includeSummary);
      RunIsItsPasses(next, job, sources[1..], attempts[1..], includeSummary);
      ApplyConcat(t, [first], RunPasses(next, job, sources[1..], attempts[1..], includeSummary), includeSummary);
      assert [first][..0] == [];
      assert ApplyAll(t, [first], includeSummary) == next;
    }
  }

  /** A history is the sequence of the passes its runs got to make. */
  lemma {:induction false} HistoryIsItsPasses(t: Tables, runs: seq<RunInput>, includeSummary: bool)
    requires AllWellFormed(runs)
    ensures History(t, runs, includeSummary) == ApplyAll(t, HistoryPasses(t, runs, includeSummary), includeSummary)
    decreases |runs|
  {
    if runs != [] {
      var front, last := runs[..|runs| - 1], runs[|runs| - 1];
      var before := History(t, front, includeSummary);
      HistoryIsItsPasses(t, front, includeSummary);
      RunIsItsPasses(before, last.job, last.sources, last.attempts, includeSummary);
      ApplyConcat(t, HistoryPasses(t, front, includeSummary),
        RunPasses(before, last.job, last.sources, last.attempts, includeSummary), includeSummary);
    }
  }

  // ----- the invariant

  /** Every memo has one provenance row, in the order of writing. */
  predicate Paired(t: Tables) {
    && |t.provenance| == |t.memos|
    && forall i | 0 <= i < |t.memos| :: t.provenance[i] == Provenance(t.memos[i].id, t.memos[i].job, t.memos[i].source)
  }

  predicate SamePair(m: Memo, n: Memo) {
    m.job == n.job && m.source == n.source
  }

  /** Memo ids are unique, and the memos of one job and source come from one
      transaction. */
  predicate OneTransaction(t: Tables) {
    && (forall i | 0 <= i < |t.memos| :: t.memos[i].id < t.nextId && t.memos[i].transaction < t.nextTransaction)
    && (forall i, j | 0 <= i < j < |t.memos| :: t.memos[i].id != t.memos[j].id)
    && (forall i, j | 0 <= i < j < |t.memos| && SamePair(t.memos[i], t.memos[j]) ::
        t.memos[i].transaction == t.memos[j].transaction)
  }

  predicate Inv(t: Tables) {
    Paired(t) && OneTransaction(t)
  }

  /** While a transaction adds memos: what it adds carries its number, and none of
      the committed memos has its job and source. */
  predicate Adding(before: Tables, t: Tables, job: Id, source: Id) {
    && Paired(t)
    && before.memos <= t.memos
    && before.nextTransaction == t.nextTransaction
    && (forall i | 0 <= i < |t.memos| :: t.memos[i].id < t.nextId && t.memos[i].transaction <= t.nextTransaction)
    && (forall i, j | 0 <= i < j < |t.memos| :: t.memos[i].id != t.memos[j].id)
    && (forall i | |before.memos| <= i < |t.memos| ::
          t.memos[i].job == job && t.memos[i].source == source && t.memos[i].transaction == t.nextTransaction)
  }

  lemma {:induction false} AddedAllAdds(before: Tables, job: Id, source: Id, bodies: seq<Body>)
    requires Inv(before)
    ensures Adding(before, AddedAll(before, job, source, bodies), job, source)
    decreases |bodies|
  {
    if bodies != [] {
      AddedAllAdds(before, job, source, bodies[..|bodies| - 1]);
    }
  }

  lemma PassKeeps(t: Tables, p: Pass, includeSummary: bool)
    requires Inv(t)
    ensures Inv(Apply(t, p, includeSummary))
  {
    if !AlreadyDistilled(t, p.job, p.source) && Commits(p.attempt) {
      var bodies := Written(p.attempt, includeSummary);
      var after := AddedAll(t, p.job, p.source, bodies);
      AddedAllAdds(t, p.job, p.source, bodies);
      forall i | 0 <= i < |t.memos| ensures !(t.memos[i].job == p.job && t.memos[i].source == p.source) {
        assert t.provenance[i].job == t.memos[i].job && t.provenance[i].source == t.memos[i].source;
      }
      forall i, j | 0 <= i < j < |after.memos| && SamePair(after.memos[i], after.memos[j])
        ensures after.memos[i].transaction == after.memos[j].transaction
      {
        assert i < |t.memos| ==> after.memos[i] == t.memos[i];
        assert j < |t.memos| ==> after.memos[j] == t.memos[j];
      }
    }
  }

  lemma {:induction false} PassesKeep(t: Tables, passes: seq<Pass>, includeSummary: bool)
    requires Inv(t)
    ensures Inv(ApplyAll(t, passes, includeSummary))
    decreases |passes|
  {
    if passes != [] {
      PassesKeep(t, passes[..|passes| - 1], includeSummary);
      PassKeeps(ApplyAll(t, passes[..|passes| - 1], includeSummary), passes[|passes| - 1], includeSummary);
    }
  }

  function MemoCount(memos: seq<Memo>, job: Id, source: Id): nat {
    if memos == [] then 0
    else
      var m := memos[|memos| - 1];
      MemoCount(memos[..|memos| - 1], job, source) + if m.job == job && m.source == source then 1 else 0
  }

  function ProvenanceCount(rows: seq<Provenance>, job: Id, source: Id): nat {
    if rows == [] then 0
    else
      var r := rows[|rows| - 1];
      ProvenanceCount(rows[..|rows| - 1], job, source) + if r.job == job && r.source == source then 1 else 0
  }

  lemma {:induction false} PairedCounts(t: Tables, n: nat, job: Id, source: Id)
    requires Paired(t) && n <= |t.memos|
    ensures MemoCount(t.memos[..n], job, source) == ProvenanceCount(t.provenance[..n], job, source)
    decreases n
  {
    if n > 0 {
      PairedCounts(t, n - 1, job, source);
      assert t.memos[..n][..n - 1] == t.memos[..n - 1] && t.provenance[..n][..n - 1] == t.provenance[..n - 1];
    }
  }

  /** Over any history, the memos of a job and source come from one transaction and
      are as many as the provenance rows. */
  lemma {:induction false} HistoryKeeps(runs: seq<RunInput>, includeSummary: bool, job: Id, source: Id)
    requires AllWellFormed(runs)
    ensures
      var t := History(EMPTY, runs, includeSummary);
      Inv(t) && MemoCount(t.memos, job, source) == ProvenanceCount(t.provenance, job, source)
  {
    var t := History(EMPTY, runs, includeSummary);
    HistoryIsItsPasses(EMPTY, runs, includeSummary);
    PassesKeep(EMPTY, HistoryPasses(EMPTY, runs, includeSummary), includeSummary);
    PairedCounts(t, |t.memos|, job, source);
    assert t.memos[..|t.memos|] == t.memos && t.provenance[..|t.provenance|] == t.provenance;
  }

  // ----- whose memos they are

  /** The bodies of the memos of a job and source, in the order of writing. */
  function Bodies(memos: seq<Memo>, job: Id, source: Id): seq<Body> {
    if memos == [] then []
    else
      var m := memos[|memos| - 1];
      Bodies(memos[..|memos| - 1], job, source) + if m.job == job && m.source == source then [m.body] else []
  }

  /** What the first pass for the job and source that commits any memo wrote. */
  function FirstCommit(passes: seq<Pass>, job: Id, source: Id, includeSummary: bool): seq<Body> {
    if passes == [] then []
    else
      var before, p := FirstCommit(passes[..|passes| - 1], job, source, includeSummary), passes[|passes| - 1];
      if before == [] && p.job == job && p.source == source && Commits(p.attempt)
      then Written(p.attempt, includeSummary) else before
  }

  lemma {:induction false} DistilledIff(t: Tables, n: nat, job: Id, source: Id)
    requires Paired(t) && n <= |t.memos|
    ensures
      Bodies(t.memos[..n], job, source) != [] <==>
        exists i :: 0 <= i < n && t.provenance[i].job == job && t.provenance[i].source == source
    decreases n
  {
    if n > 0 {
      DistilledIff(t, n - 1, job, source);
      assert t.memos[..n][..n - 1] == t.memos[..n - 1];
      assert t.provenance[n - 1] == Provenance(t.memos[n - 1].id, t.memos[n - 1].job, t.memos[n - 1].source);
    }
  }

  lemma {:induction false} AddedBodies(t: Tables, j: Id, s: Id, bodies: seq<Body>, after: Tables, job: Id, source: Id)
    requires after == AddedAll(t, j, s, bodies)
    ensures Bodies(after.memos, job, source)
        == Bodies(t.memos, job, source) + if j == job && s == source then bodies else []
    decreases |bodies|
  {
    if bodies != [] {
      var front, body := bodies[..|bodies| - 1], bodies[|bodies| - 1];
      var before := AddedAll(t, j, s, front);
      AddedBodies(t, j, s, front, before, job, source);
      OneMoreBody(before, j, s, body, after, job, source);
      AppendIf(Bodies(t.memos, job, source), front, body, bodies, j == job && s == source);
    }
  }

  lemma AppendIf(x: seq<Body>, front: seq<Body>, body: Body, bodies: seq<Body>, same: bool)
    requires bodies == front + [body]
    ensures (x + if same then front else []) + (if same then [body] else []) == x + if same then bodies else []
  {
  }

  lemma OneMoreBody(t: Tables, j: Id, s: Id, body: Body, after: Tables, job: Id, source: Id)
    requires after == Added(t, j, s, body)
    ensures Bodies(after.memos, job, source)
        == Bodies(t.memos, job, source) + if j == job && s == source then [body] else []
  {
    assert after.memos[..|after.memos| - 1] == t.memos;
  }

  lemma PassBodies(t: Tables, p: Pass, includeSummary: bool, job: Id, source: Id)
    requires Inv(t)
    ensures
      var before := Bodies(t.memos, job, source);
      Bodies(Apply(t, p, includeSummary).memos, job, source)
        == if before == [] && p.job == job && p.source == source && Commits(p.attempt)
          then Written(p.attempt, includeSummary) else before
  {
    DistilledIff(t, |t.memos|, p.job, p.source);
    assert t.memos[..|t.memos|] == t.memos;
    var bodies := Written(p.attempt, includeSummary);
    AddedBodies(t, p.job, p.source, bodies, AddedAll(t, p.job, p.source, bodies), job, source);
  }

  /** A job and source have exactly the memos of the first pass that committed any:
      all of them, and none from another pass. */
  lemma {:induction false} FirstCommitStands(passes: seq<Pass>, includeSummary: bool, job: Id, source: Id)
    ensures Bodies(ApplyAll(EMPTY, passes, includeSummary).memos, job, source)
        == FirstCommit(passes, job, source, includeSummary)
    decreases |passes|
  {
    if passes != [] {
      var front, p := passes[..|passes| - 1], passes[|passes| - 1];
      FirstCommitStands(front, includeSummary, job, source);
      PassesKeep(EMPTY, front, includeSummary);
      PassBodies(ApplyAll(EMPTY, front, includeSummary), p, includeSummary, job, source);
    }
  }

  lemma {:induction false} HistoryHoldsFirstCommit(runs: seq<RunInput>, includeSummary: bool, job: Id, source: Id)
    requires AllWellFormed(runs)
    ensures
      Bodies(History(EMPTY, runs, includeSummary).memos, job, source)
        == FirstCommit(HistoryPasses(EMPTY, runs, includeSummary), job, source, includeSummary)
  {
    HistoryIsItsPasses(EMPTY, runs, includeSummary);
    FirstCommitStands(HistoryPasses(EMPTY, runs, includeSummary), includeSummary, job, source);
  }

  /** A pass writes exactly when the job has no memo for the source yet, the pass
      commits, and it has something to write. */
  lemma PassWritesIff(t: Tables, p: Pass, includeSummary: bool)
    requires Inv(t)
    ensures
      Apply(t, p, includeSummary).memos != t.memos <==>
        Bodies(t.memos, p.job, p.source) == [] && Commits(p.attempt) && Written(p.attempt, includeSummary) != []
  {
    PassBodies(t, p, includeSummary, p.job, p.source);
    DistilledIff(t, |t.memos|, p.job, p.source);
    assert t.memos[..|t.memos|] == t.memos;
    AddedAllCounts(t, p.job, p.source, Written(p.attempt, includeSummary));
  }

  /** An attempt that commits one entity. */
  function OneEntity(content: string): Attempt {
    Attempt(Text(1), [content], Empty, Empty, NoCrash)
  }

  lemma OneEntityIsWritten(content: string, includeSummary: bool)
    ensures Written(OneEntity(content), includeSummary) == [Entity(content)]
  {
    assert [content][..0] == [];
    assert EntityBodies([content]) == [Entity(content)];
  }

  /** Going over a memory again can never write anything exactly when the job has
      memos for it. */
  lemma RepeatIsNoOpIff(t: Tables, job: Id, source: Id, includeSummary: bool)
    requires Inv(t)
    ensures
      (forall a :: Apply(t, Pass(job, source, a), includeSummary).memos == t.memos) <==>
        Bodies(t.memos, job, source) != []
  {
    forall a
      ensures Apply(t, Pass(job, source, a), includeSummary).memos == t.memos <== Bodies(t.memos, job, source) != []
    {
      PassWritesIff(t, Pass(job, source, a), includeSummary);
    }
    var p := Pass(job, source, OneEntity(""));
    OneEntityIsWritten("", includeSummary);
    PassWritesIff(t, p, includeSummary);
    assert Apply(t, p, includeSummary).memos == t.memos <==> Bodies(t.memos, job, source) != [];
  }

  /** After any passes, the next one over a memory is skipped exactly when an earlier
      pass of the job committed memos for it, or there is no text to work on. */
  lemma {:induction false} SkippedIff(passes: seq<Pass>, p: Pass, includeSummary: bool)
    requires !p.attempt.crash.AtStart?
    ensures
      OutcomeOf(ApplyAll(EMPTY, passes, includeSummary), p.job, p.source, p.attempt, includeSummary).Skipped? <==>
        || FirstCommit(passes, p.job, p.source, includeSummary) != []
        || p.attempt.content.Missing? || p.attempt.content.Blank? || p.attempt.content == Text(0)
  {
    PassesKeep(EMPTY, passes, includeSummary);
    FirstCommitStands(passes, includeSummary, p.job, p.source);
    HasBodiesIff(ApplyAll(EMPTY, passes, includeSummary), p.job, p.source);
  }

  /** The same after any history of runs. */
  lemma {:induction false} SkippedAfterHistoryIff(runs: seq<RunInput>, p: Pass, includeSummary: bool)
    requires AllWellFormed(runs) && !p.attempt.crash.AtStart?
    ensures
      OutcomeOf(History(EMPTY, runs, includeSummary), p.job, p.source, p.attempt, includeSummary).Skipped? <==>
        || FirstCommit(HistoryPasses(EMPTY, runs, includeSummary), p.job, p.source, includeSummary) != []
        || p.attempt.content.Missing? || p.attempt.content.Blank? || p.attempt.content == Text(0)
  {
    HistoryIsItsPasses(EMPTY, runs, includeSummary);
    SkippedIff(HistoryPasses(EMPTY, runs, includeSummary), p, includeSummary);
  }

  lemma HasBodiesIff(t: Tables, job: Id, source: Id)
    requires Inv(t)
    ensures AlreadyDistilled(t, job, source) <==> Bodies(t.memos, job, source) != []
  {
    DistilledIff(t, |t.memos|, job, source);
    assert t.memos[..|t.memos|] == t.memos;
  }

  lemma OneMemoryRun(t: Tables, job: Id, source: Id, a: Attempt, includeSummary: bool)
    ensures AfterRun(t, job, [source], [a], includeSummary) == AfterMemory(t, job, source, a, includeSummary)
  {
    assert [source][1..] == [] && [a][1..] == [];
    assert AfterRun(AfterMemory(t, job, source, a, includeSummary), job, [], [], includeSummary)
        == AfterMemory(t, job, source, a, includeSummary);
  }

  /** A re-run that is not skipped: the first run extracts nothing and completes, the
      second is processed again and writes. */
  lemma EmptyExtractionIsRepeated(job: Id, source: Id, content: string, includeSummary: bool)
    ensures
      var nothing := Attempt(Text(1), [], Empty, Empty, NoCrash);
      var first := History(EMPTY, [RunInput(job, [source], [nothing])], includeSummary);
      && OutcomeOf(EMPTY, job, source, nothing, includeSummary) == Processed(0)
      && first.memos == []
      && OutcomeOf(first, job, source, OneEntity(content), includeSummary) == Processed(1)
      && Bodies(AfterMemory(first, job, source, OneEntity(content), includeSummary).memos, job, source)
          == [Entity(content)]
  {
    var nothing := Attempt(Text(1), [], Empty, Empty, NoCrash);
    var runs := [RunInput(job, [source], [nothing])];
    var first := History(EMPTY, runs, includeSummary);
    assert Written(nothing, includeSummary) == [];
    assert AfterMemory(EMPTY, job, source, nothing, includeSummary) == Tables([], [], 0, 1);
    assert runs[..0] == [] && History(EMPTY, [], includeSummary) == EMPTY;
    OneMemoryRun(EMPTY, job, source, nothing, includeSummary);
    assert first == Tables([], [], 0, 1);
    OneEntityIsWritten(content, includeSummary);
    PassBodies(first, Pass(job, source, OneEntity(content)), includeSummary, job, source);
  }
}
