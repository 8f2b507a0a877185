/** Every interleaving of the batcher's atomic steps (`engine/recall_batch.py`):
    bumps, snapshot swaps by the drain loop or by `flush_pending`, the update of
    one tenant in any of the snapshots in flight, and shutdown. */
module BatcherProtocol {
  import opened Graph
  import opened Batcher

  /** Where the drain loop is between two awaits. */
  datatype Loop =
    | NotStarted
    | Created
    | Waiting
    | Flushing(flight: nat)
    | Ended

  /** `dropped` counts what was lost for each memory.  A flight is what is left of
      a snapshot. */
  datatype State = State(
    stored: Deltas, pending: Deltas, flights: seq<Deltas>, dropped: Deltas, loop: Loop, closed: bool)

  datatype Step =
    | Bump(org: Id, ids: seq<Id>)
    | FlushPending
    | Start
    | Wake
    | Commit(flight: nat, org: Id)
    | Fail(flight: nat, org: Id)
    | Finish
    | Close
    | Cancel

  function Initial(stored: Deltas): State {
    State(stored, map[], [], map k | k in stored :: 0, NotStarted, false)
  }

  function Swap(s: State): State {
    s.(pending := map[], flights := s.flights + [s.pending])
  }

  /** The top of the drain loop. */
  function Top(s: State): State {
    s.(loop := if s.closed then Ended else Waiting)
  }

  function Landed(s: State, i: nat, org: Id, committed: bool): State
    requires i < |s.flights|
  {
    var f := s.flights[i];
    s.(stored := if committed then Credit(s.stored, f, org) else s.stored,
       dropped := if committed then s.dropped else Credit(s.dropped, f, org),
       flights := s.flights[i := Without(f, org)])
  }

  /** Everything a flight still holds is lost. */
  function Abandoned(s: State, i: nat): State
    requires i < |s.flights|
  {
    s.(dropped := Flushed(s.dropped, s.flights[i], {}), flights := s.flights[i := map[]])
  }

  /** One step; a step that cannot be taken leaves the state alone. */
  function Apply(s: State, step: Step): State {
    match step
    case Bump(org, ids) =>
      if s.closed then s
      else
        var loop := if s.loop.NotStarted? || s.loop.Ended? then Created else s.loop;
        s.(pending := Bumped(s.pending, org, ids), loop := loop)
    case FlushPending => if s.pending == map[] then s else Swap(s)
    case Start => if s.loop.Created? then Top(s) else s
    case Wake =>
      if !s.loop.Waiting? then s
      else if s.pending == map[] then Top(s)
      else Swap(s).(loop := Flushing(|s.flights|))
    case Commit(i, org) => if i < |s.flights| then Landed(s, i, org, true) else s
    case Fail(i, org) => if i < |s.flights| then Landed(s, i, org, false) else s
    case Finish =>
      if s.loop.Flushing? && s.loop.flight < |s.flights| && s.flights[s.loop.flight] == map[] then Top(s) else s
    case Close => s.(closed := true)
    case Cancel =>
      if !s.closed || s.loop.NotStarted? then s
      else if s.loop.Flushing? && s.loop.flight < |s.flights| then Abandoned(s, s.loop.flight).(loop := Ended)
      else s.(loop := Ended)
  }

  function Run(s: State, steps: seq<Step>): State {
    if steps == [] then s else Apply(Run(s, steps[..|steps| - 1]), steps[|steps| - 1])
  }

  // ----- conservation

  function InFlight(flights: seq<Deltas>, k: Key): nat {
    if flights == [] then 0 else InFlight(flights[..|flights| - 1], k) + Get(flights[|flights| - 1], k)
  }

  lemma {:induction false} InFlightUpdate(flights: seq<Deltas>, i: nat, f: Deltas, k: Key)
    requires i < |flights|
    ensures InFlight(flights[i := f], k) == InFlight(flights, k) - Get(flights[i], k) + Get(f, k)
    decreases |flights|
  {
    var n := |flights| - 1;
    if i < n {
      InFlightUpdate(flights[..n], i, f, k);
      assert flights[i := f][..n] == flights[..n][i := f];
    } else {
      assert flights[i := f][..n] == flights[..n];
    }
  }

  lemma InFlightAppend(flights: seq<Deltas>, f: Deltas, k: Key)
    ensures InFlight(flights + [f], k) == InFlight(flights, k) + Get(f, k)
  {
    assert (flights + [f])[..|flights|] == flights;
  }

  function Balance(s: State, k: Key): nat {
    Get(s.stored, k) + Get(s.pending, k) + InFlight(s.flights, k) + Get(s.dropped, k)
  }

  /** The books are kept for the memories that exist. */
  predicate SameMemories(s: State) {
    s.dropped.Keys == s.stored.Keys
  }

  /** The bumps a step brings for one memory. */
  function Accepted(s: State, step: Step, k: Key): nat {
    if step.Bump? && !s.closed && step.org == k.org then Count(step.ids, k.memory) else 0
  }

  lemma LandedBalances(s: State, i: nat, org: Id, committed: bool, k: Key)
    requires SameMemories(s) && k in s.stored && i < |s.flights|
    ensures Balance(Landed(s, i, org, committed), k) == Balance(s, k)
  {
    InFlightUpdate(s.flights, i, Without(s.flights[i], org), k);
  }

  lemma AbandonedBalances(s: State, i: nat, k: Key)
    requires SameMemories(s) && k in s.stored && i < |s.flights|
    ensures Balance(Abandoned(s, i), k) == Balance(s, k)
  {
    InFlightUpdate(s.flights, i, map[], k);
  }

  /** A step leaves the memories alone and accounts for the bumps it accepts. */
  predicate Conserves(s: State, step: Step, k: Key)
    requires SameMemories(s) && k in s.stored
  {
    var s' := Apply(s, step);
    SameMemories(s') && s'.stored.Keys == s.stored.Keys && Balance(s', k) == Balance(s, k) + Accepted(s, step, k)
  }

  lemma BumpConserves(s: State, org: Id, ids: seq<Id>, k: Key)
    requires SameMemories(s) && k in s.stored
    ensures Conserves(s, Bump(org, ids), k)
  {
    BumpedCounts(s.pending, org, ids, k);
  }

  lemma SwapConserves(s: State, step: Step, k: Key)
    requires SameMemories(s) && k in s.stored && (step.FlushPending? || step.Wake?)
    ensures Conserves(s, step, k)
  {
    InFlightAppend(s.flights, s.pending, k);
  }

  lemma LandingConserves(s: State, step: Step, k: Key)
    requires SameMemories(s) && k in s.stored && (step.Commit? || step.Fail?)
    ensures Conserves(s, step, k)
  {
    if step.flight < |s.flights| {
      LandedBalances(s, step.flight, step.org, step.Commit?, k);
    }
  }

  lemma CancelConserves(s: State, k: Key)
    requires SameMemories(s) && k in s.stored
    ensures Conserves(s, Cancel, k)
  {
    if s.loop.Flushing? && s.loop.flight < |s.flights| {
      AbandonedBalances(s, s.loop.flight, k);
    }
  }

  lemma StepConserves(s: State, step: Step, k: Key)
    requires SameMemories(s) && k in s.stored
    ensures Conserves(s, step, k)
  {
    match step
    case Bump(org, ids) => BumpConserves(s, org, ids, k);
    case FlushPending => SwapConserves(s, step, k);
    case Wake => SwapConserves(s, step, k);
    case Commit(_, _) => LandingConserves(s, step, k);
    case Fail(_, _) => LandingConserves(s, step, k);
    case Cancel => CancelConserves(s, k);
    case _ =>
  }

  datatype Call = Call(org: Id, ids: seq<Id>)

  /** The calls of `bump` that come before the batcher is closed. */
  function Calls(closed: bool, steps: seq<Step>): seq<Call> {
    if steps == [] then []
    else
      var front, last := steps[..|steps| - 1], steps[|steps| - 1];
      Calls(closed, front) + if last.Bump? && !closed && Close !in front then [Call(last.org, last.ids)] else []
  }

  /** How often the calls name one memory. */
  function Hits(calls: seq<Call>, k: Key): nat {
    if calls == [] then 0
    else
      var last := calls[|calls| - 1];
      Hits(calls[..|calls| - 1], k) + if last.org == k.org then Count(last.ids, k.memory) else 0
  }

  lemma StepCloses(s: State, step: Step)
    ensures Apply(s, step).closed <==> s.closed || step == Close
  {
  }

  lemma {:induction false} ClosedByClose(s: State, steps: seq<Step>)
    ensures Run(s, steps).closed <==> s.closed || Close in steps
    decreases |steps|
  {
    if steps != [] {
      var front, last := steps[..|steps| - 1], steps[|steps| - 1];
      ClosedByClose(s, front);
      StepCloses(Run(s, front), last);
      assert steps == front + [last];
    }
  }

  /** Over every run, what is stored, pending, in flight or lost for an existing
      memory adds up to the initial count and the accepted bumps. */
  lemma {:induction false} RunConserves(s: State, steps: seq<Step>, k: Key)
    requires SameMemories(s) && k in s.stored
    ensures var s' := Run(s, steps);
            SameMemories(s') && s'.stored.Keys == s.stored.Keys
              && Balance(s', k) == Balance(s, k) + Hits(Calls(s.closed, steps), k)
    decreases |steps|
  {
    if steps != [] {
      var front, last := steps[..|steps| - 1], steps[|steps| - 1];
      RunConserves(s, front, k);
      ClosedByClose(s, front);
      StepConserves(Run(s, front), last, k);
      HitsOneMore(s.closed, steps, k);
    }
  }

  /** What the last step brings to the calls. */
  lemma HitsOneMore(closed: bool, steps: seq<Step>, k: Key)
    requires steps != []
    ensures
      var front, last := steps[..|steps| - 1], steps[|steps| - 1];
      Hits(Calls(closed, steps), k) == Hits(Calls(closed, front), k)
        + if last.Bump? && !closed && Close !in front && last.org == k.org then Count(last.ids, k.memory) else 0
  {
    var before, calls := Calls(closed, steps[..|steps| - 1]), Calls(closed, steps);
    if calls != before {
      assert calls[..|calls| - 1] == before;
    }
  }

  // ----- without failures

  predicate Failure(step: Step) {
    step.Fail? || step.Cancel?
  }

  predicate NoFailure(steps: seq<Step>) {
    forall i | 0 <= i < |steps| :: !Failure(steps[i])
  }

  /** Nothing is buffered and no snapshot has entries left. */
  predicate Drained(s: State) {
    s.pending == map[] && forall i | 0 <= i < |s.flights| :: s.flights[i] == map[]
  }

  lemma {:induction false} NothingInFlight(flights: seq<Deltas>, k: Key)
    requires forall i | 0 <= i < |flights| :: flights[i] == map[]
    ensures InFlight(flights, k) == 0
    decreases |flights|
  {
    if flights != [] {
      NothingInFlight(flights[..|flights| - 1], k);
    }
  }

  lemma {:induction false} NothingDropped(s: State, steps: seq<Step>)
    requires NoFailure(steps)
    ensures Run(s, steps).dropped == s.dropped
    decreases |steps|
  {
    if steps != [] {
      var front := steps[..|steps| - 1];
      assert forall i | 0 <= i < |front| :: front[i] == steps[i];
      NothingDropped(s, front);
      assert !Failure(steps[|steps| - 1]);
    }
  }

  /** A drained batcher that had no failure has stored every accepted bump. */
  lemma {:induction false} DrainedStoresAll(stored: Deltas, steps: seq<Step>, k: Key)
    requires k in stored && NoFailure(steps) && Drained(Run(Initial(stored), steps))
    ensures
      var s := Run(Initial(stored), steps);
      k in s.stored && s.stored[k] == stored[k] + Hits(Calls(false, steps), k)
  {
    var s := Run(Initial(stored), steps);
    RunConserves(Initial(stored), steps, k);
    NothingDropped(Initial(stored), steps);
    NothingInFlight(s.flights, k);
  }

  /** Every call applied inline instead. */
  function InlineAll(stored: Deltas, calls: seq<Call>): Deltas {
    if calls == [] then stored
    else Inline(InlineAll(stored, calls[..|calls| - 1]), calls[|calls| - 1].org, calls[|calls| - 1].ids)
  }

  /** No call lists the memory twice. */
  predicate ListedOnce(calls: seq<Call>, k: Key) {
    forall i | 0 <= i < |calls| :: calls[i].org == k.org ==> Count(calls[i].ids, k.memory) <= 1
  }

  /** The inline updates count calls, the batcher counts list entries. */
  lemma {:induction false} InlineCounts(stored: Deltas, calls: seq<Call>, k: Key)
    requires k in stored
    ensures
      var after := InlineAll(stored, calls);
      && after.Keys == stored.Keys
      && after[k] <= stored[k] + Hits(calls, k)
      && (after[k] == stored[k] + Hits(calls, k) <==> ListedOnce(calls, k))
    decreases |calls|
  {
    if calls != [] {
      var front, last := calls[..|calls| - 1], calls[|calls| - 1];
      InlineCounts(stored, front, k);
      assert last.org == k.org ==> (k.memory in last.ids <==> Count(last.ids, k.memory) > 0);
      assert ListedOnce(calls, k) <==>
          ListedOnce(front, k) && (last.org == k.org ==> Count(last.ids, k.memory) <= 1) by {
        assert forall i | 0 <= i < |front| :: front[i] == calls[i];
      }
    }
  }

  /** A drained batcher without failures agrees with the inline updates on a memory
      exactly when no accepted call lists it twice; otherwise it is ahead. */
  lemma {:induction false} AgreesWithInlineIff(stored: Deltas, steps: seq<Step>, k: Key)
    requires k in stored && NoFailure(steps) && Drained(Run(Initial(stored), steps))
    ensures
      var calls, s := Calls(false, steps), Run(Initial(stored), steps);
      var inline := InlineAll(stored, calls);
      && k in s.stored && k in inline && s.stored[k] >= inline[k]
      && (s.stored[k] == inline[k] <==> ListedOnce(calls, k))
  {
    DrainedStoresAll(stored, steps, k);
    InlineCounts(stored, Calls(false, steps), k);
  }

  function RunTwice(org: Id, a: Id): seq<Step> {
    [Bump(org, [a, a]), Start, Wake] + [Commit(0, org)]
  }

  lemma BumpedTwice(org: Id, a: Id)
    ensures Bumped(map[], org, [a, a]) == map[Key(org, a) := 2]
  {
    assert [a, a][..1] == [a] && [a][..0] == [];
    assert Bumped(map[], org, [a]) == map[Key(org, a) := 1];
  }

  lemma TwiceStored(org: Id, a: Id, n: nat)
    ensures Run(Initial(map[Key(org, a) := n]), RunTwice(org, a))
      == State(map[Key(org, a) := n + 2], map[], [map[]], map[Key(org, a) := 0], Flushing(0), false)
  {
    var k := Key(org, a);
    var s, steps := Initial(map[k := n]), [Bump(org, [a, a]), Start, Wake];
    ThreeSteps(s, Bump(org, [a, a]), Start, Wake);
    BumpedTwice(org, a);
    RunLast(s, steps, Commit(0, org));
    assert Without(map[k := 2], org) == map[];
    assert Credit(map[k := n], map[k := 2], org) == map[k := n + 2];
    assert s.dropped == map[k := 0];
  }

  lemma TwiceCalled(org: Id, a: Id)
    ensures Calls(false, RunTwice(org, a)) == [Call(org, [a, a])]
  {
    var steps := [Bump(org, [a, a]), Start, Wake];
    CallsLast(false, steps, Commit(0, org));
    CallsLast(false, [Bump(org, [a, a]), Start], Wake);
    CallsLast(false, [Bump(org, [a, a])], Start);
    CallsLast(false, [], Bump(org, [a, a]));
    assert [] + [Bump(org, [a, a])] == [Bump(org, [a, a])];
    assert [Bump(org, [a, a])] + [Start] == [Bump(org, [a, a]), Start];
    assert [Bump(org, [a, a]), Start] + [Wake] == steps;
  }

  /** It happens: one call lists a memory twice, the batcher adds two where the
      inline update adds one. */
  lemma ListedTwiceIsAhead(org: Id, a: Id, n: nat)
    ensures
      var stored, steps := map[Key(org, a) := n], RunTwice(org, a);
      var s := Run(Initial(stored), steps);
      && NoFailure(steps) && Drained(s)
      && s.stored == map[Key(org, a) := n + 2]
      && InlineAll(stored, Calls(false, steps)) == map[Key(org, a) := n + 1]
  {
    TwiceStored(org, a, n);
    TwiceCalled(org, a);
    OneCallInline(map[Key(org, a) := n], Call(org, [a, a]));
    assert a in [a, a];
  }

  lemma CallsLast(closed: bool, front: seq<Step>, step: Step)
    ensures Calls(closed, front + [step])
      == Calls(closed, front) + if step.Bump? && !closed && Close !in front then [Call(step.org, step.ids)] else []
  {
    assert (front + [step])[..|front|] == front;
  }

  lemma OneCallInline(stored: Deltas, call: Call)
    ensures InlineAll(stored, [call]) == Inline(stored, call.org, call.ids)
  {
    assert [call][..0] == [];
  }

  // ----- the drain loop

  /** While the batcher is open, buffered bumps have a drain loop that will take them. */
  predicate Served(s: State) {
    && (s.loop.Ended? ==> s.closed)
    && (s.loop.NotStarted? ==> s.pending == map[])
    && (s.loop.Flushing? ==> s.loop.flight < |s.flights|)
  }

  lemma StepServes(s: State, step: Step)
    requires Served(s)
    ensures Served(Apply(s, step))
  {
  }

  lemma {:induction false} RunServes(stored: Deltas, steps: seq<Step>)
    ensures Served(Run(Initial(stored), steps))
    decreases |steps|
  {
    if steps != [] {
      RunServes(stored, steps[..|steps| - 1]);
      StepServes(Run(Initial(stored), steps[..|steps| - 1]), steps[|steps| - 1]);
    }
  }

  /** The loop was cancelled before it could take the buffer. */
  predicate CancelledFirst(steps: seq<Step>) {
    exists i | 0 <= i < |steps| :: steps[i].Cancel? && Wake !in steps[..i]
  }

  lemma CancelledFirstLast(front: seq<Step>, last: Step)
    ensures CancelledFirst(front + [last]) <==> CancelledFirst(front) || (last.Cancel? && Wake !in front)
  {
    var steps := front + [last];
    assert forall i | 0 <= i < |front| :: steps[i] == front[i] && steps[..i] == front[..i];
    assert steps[|front|] == last && steps[..|front|] == front;
  }

  /** What is still buffered after steps taken since closing. */
  function LeftBehind(s: State, steps: seq<Step>): Deltas {
    if FlushPending in steps || (s.loop.Waiting? && Wake in steps && !CancelledFirst(steps)) then map[] else s.pending
  }

  /** Closed, the buffer is taken by a later `flush_pending`, or by a loop that was
      waiting and woke before it was cancelled; nothing else touches it. */
  lemma {:induction false} AfterClose(s: State, steps: seq<Step>)
    requires s.closed
    ensures
      var s' := Run(s, steps);
      && s'.closed && s'.pending == LeftBehind(s, steps)
      && (s'.loop.Waiting? ==> s.loop.Waiting? && Wake !in steps && !CancelledFirst(steps))
      && (s.loop.Waiting? && Wake !in steps && !CancelledFirst(steps) ==> s'.loop.Waiting?)
    decreases |steps|
  {
    if steps != [] {
      var front, last := steps[..|steps| - 1], steps[|steps| - 1];
      assert steps == front + [last];
      AfterClose(s, front);
      CancelledFirstLast(front, last);
      StepAfterClose(Run(s, front), last);
      assert FlushPending in steps <==> FlushPending in front || last == FlushPending;
      assert Wake in steps <==> Wake in front || last == Wake;
    } else {
      assert !CancelledFirst(steps);
    }
  }

  lemma StepAfterClose(s: State, step: Step)
    requires s.closed
    ensures
      var s' := Apply(s, step);
      && s'.closed
      && s'.pending == (if step.FlushPending? || (s.loop.Waiting? && step.Wake?) then map[] else s.pending)
      && (s'.loop.Waiting? <==> s.loop.Waiting? && !step.Wake? && !step.Cancel?)
  {
  }

  /** Bumps accepted before closing stay behind, whatever else happens until the
      loop has ended, exactly when there are some, nobody calls `flush_pending`,
      and the loop was either not waiting at that moment or cancelled before it
      woke. */
  lemma StrandedIff(s: State, steps: seq<Step>)
    requires s.closed && Run(s, steps).loop.Ended?
    ensures Run(s, steps).pending != map[] <==>
      s.pending != map[] && FlushPending !in steps && (!s.loop.Waiting? || CancelledFirst(steps))
  {
    AfterClose(s, steps);
  }

  /** From the middle of a flush: a bump, closing and the end of the flush. */
  lemma StrandedMidFlush(s: State, org: Id, b: Id)
    requires s.loop.Flushing? && s.loop.flight < |s.flights| && s.flights[s.loop.flight] == map[]
    requires s.pending == map[] && !s.closed
    ensures
      var s' := Run(s, [Bump(org, [b]), Close, Finish]);
      s'.loop.Ended? && s'.closed && s'.pending == map[Key(org, b) := 1]
  {
    ThreeSteps(s, Bump(org, [b]), Close, Finish);
    assert [b][..0] == [];
    assert Bumped(map[], org, [b]) == map[Key(org, b) := 1];
  }

  /** It happens: the loop takes a first bump, a second one lands before the flush is
      over, and the batcher is closed. */
  lemma BumpDuringFlushIsStranded(stored: Deltas, org: Id, a: Id, b: Id)
    ensures
      var steps := [Bump(org, [a]), Start, Wake] + [Commit(0, org)] + [Bump(org, [b]), Close, Finish];
      var s' := Run(Initial(stored), steps);
      s'.loop.Ended? && s'.closed && s'.pending == map[Key(org, b) := 1] && NoFailure(steps)
  {
    var s := Initial(stored);
    var flushing := Run(s, [Bump(org, [a]), Start, Wake]);
    ThreeSteps(s, Bump(org, [a]), Start, Wake);
    assert [a][..0] == [];
    assert Bumped(map[], org, [a]) == map[Key(org, a) := 1];
    RunLast(s, [Bump(org, [a]), Start, Wake], Commit(0, org));
    var landed := Apply(flushing, Commit(0, org));
    assert Without(map[Key(org, a) := 1], org) == map[];
    StrandedMidFlush(landed, org, b);
    RunConcat(s, [Bump(org, [a]), Start, Wake] + [Commit(0, org)], [Bump(org, [b]), Close, Finish]);
  }

  lemma ThreeSteps(s: State, a: Step, b: Step, c: Step)
    ensures Run(s, [a, b, c]) == Apply(Apply(Apply(s, a), b), c)
  {
    RunLast(s, [], a);
    RunLast(s, [a], b);
    RunLast(s, [a, b], c);
    assert [] + [a] == [a] && [a] + [b] == [a, b] && [a, b] + [c] == [a, b, c];
  }

  lemma {:induction false} RunConcat(s: State, a: seq<Step>, b: seq<Step>)
    ensures Run(s, a + b) == Run(Run(s, a), b)
    decreases |b|
  {
    if b == [] {
      assert a + b == a;
    } else {
      RunConcat(s, a, b[..|b| - 1]);
      assert (a + b)[..|a + b| - 1] == a + b[..|b| - 1];
    }
  }

  lemma RunLast(s: State, steps: seq<Step>, step: Step)
    ensures Run(s, steps + [step]) == Apply(Run(s, steps), step)
  {
    assert (steps + [step])[..|steps|] == steps;
  }

  /** Cancelling the loop in the middle of a flush loses what is left of its snapshot, and
      nothing else. */
  lemma CancelLosesTheFlight(s: State, k: Key)
    requires SameMemories(s) && s.closed && s.loop.Flushing? && s.loop.flight < |s.flights| && k in s.stored
    ensures
      var t, flight := Apply(s, Cancel), s.flights[s.loop.flight];
      && t.stored == s.stored && t.pending == s.pending && t.loop.Ended?
      && t.dropped[k] == s.dropped[k] + (if k in flight then flight[k] else 0)
      && t.flights == s.flights[s.loop.flight := map[]]
  {
  }

  // ----- an uninterrupted flush is one of the runs

  function OrgStep(flight: nat, org: Id, failing: set<Id>): Step {
    if org in failing then Fail(flight, org) else Commit(flight, org)
  }

  /** The updates of the tenants in `orgs`, one after the other. */
  function OrgSteps(flight: nat, orgs: seq<Id>, failing: set<Id>): seq<Step> {
    if orgs == [] then []
    else
      var org := orgs[|orgs| - 1];
      OrgSteps(flight, orgs[..|orgs| - 1], failing) + [OrgStep(flight, org, failing)]
  }

  /** What the tenants in `orgs` leave of a snapshot, and what they take. */
  function Rest(f: Deltas, orgs: seq<Id>): Deltas {
    map k | k in f && k.org !in orgs :: f[k]
  }

  function Taken(f: Deltas, orgs: seq<Id>): Deltas {
    map k | k in f && k.org in orgs :: f[k]
  }

  lemma TakeOneMore(m: Deltas, f: Deltas, front: seq<Id>, org: Id, failing: set<Id>)
    ensures Without(Rest(f, front), org) == Rest(f, front + [org])
    ensures
      var before, after := Flushed(m, Taken(f, front), failing), Flushed(m, Taken(f, front + [org]), failing);
      after == if org in failing then before else Credit(before, Rest(f, front), org)
  {
    assert forall o :: o in front + [org] <==> o in front || o == org;
  }

  /** `t` is `s` after the updates of the tenants in `orgs`. */
  predicate TookOrgs(s: State, t: State, i: nat, orgs: seq<Id>, failing: set<Id>)
    requires i < |s.flights|
  {
    && t.pending == s.pending
    && t.flights == s.flights[i := Rest(s.flights[i], orgs)]
    && t.stored == Flushed(s.stored, Taken(s.flights[i], orgs), failing)
    && t.loop == s.loop && t.closed == s.closed && (failing == {} ==> t.dropped == s.dropped)
  }

  lemma LandedTakes(s: State, t: State, i: nat, front: seq<Id>, org: Id, failing: set<Id>)
    requires i < |s.flights| && TookOrgs(s, t, i, front, failing)
    ensures TookOrgs(s, Landed(t, i, org, org !in failing), i, front + [org], failing)
  {
    TakeOneMore(s.stored, s.flights[i], front, org, failing);
  }

  lemma TookNone(s: State, i: nat, failing: set<Id>)
    requires i < |s.flights|
    ensures TookOrgs(s, s, i, [], failing)
  {
    var f := s.flights[i];
    assert Rest(f, []) == f && s.stored == Flushed(s.stored, Taken(f, []), failing);
  }

  lemma OrgStepTakes(s: State, t: State, i: nat, front: seq<Id>, org: Id, failing: set<Id>)
    requires i < |s.flights| && TookOrgs(s, t, i, front, failing)
    ensures TookOrgs(s, Apply(t, OrgStep(i, org, failing)), i, front + [org], failing)
  {
    LandedTakes(s, t, i, front, org, failing);
  }

  lemma {:induction false} OrgStepsTake(s: State, i: nat, orgs: seq<Id>, failing: set<Id>, t: State)
    requires i < |s.flights| && t == Run(s, OrgSteps(i, orgs, failing))
    ensures TookOrgs(s, t, i, orgs, failing)
    decreases |orgs|
  {
    if orgs == [] {
      TookNone(s, i, failing);
    } else {
      var front, org := orgs[..|orgs| - 1], orgs[|orgs| - 1];
      var before := Run(s, OrgSteps(i, front, failing));
      OrgStepsTake(s, i, front, failing, before);
      RunLast(s, OrgSteps(i, front, failing), OrgStep(i, org, failing));
      OrgStepTakes(s, before, i, front, org, failing);
      assert orgs == front + [org];
    }
  }

  /** `FlushOnce` does what the run of its steps does, in whatever order the
      tenants come. */
  lemma FlushOnceIsARun(s: State, orgs: seq<Id>, failing: set<Id>)
    requires s.pending != map[] && forall k | k in s.pending :: k.org in orgs
    ensures
      var s' := Run(Apply(s, FlushPending), OrgSteps(|s.flights|, orgs, failing));
      && s'.pending == map[]
      && s'.flights == s.flights + [map[]]
      && s'.stored == Flushed(s.stored, s.pending, failing)
  {
    var swapped := Apply(s, FlushPending);
    OrgStepsTake(swapped, |s.flights|, orgs, failing, Run(swapped, OrgSteps(|s.flights|, orgs, failing)));
    assert Rest(s.pending, orgs) == map[];
    assert Taken(s.pending, orgs) == s.pending;
  }

  // ----- the loop delivers

  /** A step that is the drain loop's own. */
  predicate Own(s: State, step: Step) {
    step.Start? || step.Wake? || step.Finish? || (step.Commit? && s.loop == Flushing(step.flight))
  }

  predicate OwnSteps(s: State, steps: seq<Step>) {
    steps == [] || (OwnSteps(s, steps[..|steps| - 1]) && Own(Run(s, steps[..|steps| - 1]), steps[|steps| - 1]))
  }

  lemma OwnLast(s: State, steps: seq<Step>, step: Step)
    requires OwnSteps(s, steps) && Own(Run(s, steps), step)
    ensures OwnSteps(s, steps + [step])
  {
    assert (steps + [step])[..|steps|] == steps;
  }

  lemma {:induction false} OwnConcat(s: State, a: seq<Step>, b: seq<Step>)
    requires OwnSteps(s, a) && OwnSteps(Run(s, a), b)
    ensures OwnSteps(s, a + b)
    decreases |b|
  {
    if b == [] {
      assert a + b == a;
    } else {
      var front := b[..|b| - 1];
      var last := b[|b| - 1];
      assert b == front + [last] && a + b == (a + front) + [last];
      OwnConcat(s, a, front);
      RunConcat(s, a, front);
      OwnLast(s, a + front, last);
    }
  }

  lemma {:induction false} OrgsOf(f: Deltas) returns (orgs: seq<Id>)
    ensures forall k | k in f :: k.org in orgs
    decreases f.Keys
  {
    orgs := [];
    if f != map[] {
      var k :| k in f;
      var rest := map q | q in f && q != k :: f[q];
      assert rest.Keys == f.Keys - {k};
      var others := OrgsOf(rest);
      orgs := others + [k.org];
      assert forall q | q in f :: q == k || q in rest;
    }
  }

  lemma {:induction false} OrgStepsOwn(s: State, i: nat, orgs: seq<Id>)
    requires i < |s.flights| && s.loop == Flushing(i)
    ensures OwnSteps(s, OrgSteps(i, orgs, {}))
    decreases |orgs|
  {
    if orgs != [] {
      var front := orgs[..|orgs| - 1];
      var before := OrgSteps(i, front, {});
      OrgStepsOwn(s, i, front);
      OrgStepsTake(s, i, front, {}, Run(s, before));
      OwnLast(s, before, OrgStep(i, orgs[|orgs| - 1], {}));
    }
  }

  /** The loop commits the tenants of its flight and goes back to waiting. */
  lemma FlightLands(s: State) returns (steps: seq<Step>)
    requires s.loop.Flushing? && s.loop.flight < |s.flights| && !s.closed
    ensures OwnSteps(s, steps)
    ensures
      var i := s.loop.flight;
      Run(s, steps)
        == s.(stored := Flushed(s.stored, s.flights[i], {}), flights := s.flights[i := map[]], loop := Waiting)
  {
    var i := s.loop.flight;
    var orgs := OrgsOf(s.flights[i]);
    var updates := OrgSteps(i, orgs, {});
    OrgStepsOwn(s, i, orgs);
    OrgStepsTake(s, i, orgs, {}, Run(s, updates));
    AllLanded(s, i, orgs, Run(s, updates));
    steps := updates + [Finish];
    OwnLast(s, updates, Finish);
    RunLast(s, updates, Finish);
  }

  lemma AllLanded(s: State, i: nat, orgs: seq<Id>, t: State)
    requires i < |s.flights| && TookOrgs(s, t, i, orgs, {})
    requires forall k | k in s.flights[i] :: k.org in orgs
    ensures t == s.(stored := Flushed(s.stored, s.flights[i], {}), flights := s.flights[i := map[]])
  {
    assert Rest(s.flights[i], orgs) == map[];
    assert Taken(s.flights[i], orgs) == s.flights[i];
  }

  /** A waiting loop takes the buffer and stores it. */
  lemma WaitingDelivers(s: State) returns (steps: seq<Step>)
    requires s.loop.Waiting? && !s.closed
    ensures OwnSteps(s, steps)
    ensures
      var t := Run(s, steps);
      && t.pending == map[] && t.loop.Waiting? && t.dropped == s.dropped
      && t.stored == Flushed(s.stored, s.pending, {})
  {
    if s.pending == map[] {
      steps := [];
      assert s.stored == Flushed(s.stored, s.pending, {});
    } else {
      RunLast(s, [], Wake);
      OwnLast(s, [], Wake);
      assert [] + [Wake] == [Wake];
      var landing := FlightLands(Apply(s, Wake));
      OwnConcat(s, [Wake], landing);
      RunConcat(s, [Wake], landing);
      steps := [Wake] + landing;
    }
  }

  /** What the loop is in the middle of storing. */
  function OnBoard(s: State): Deltas
    requires Served(s)
  {
    if s.loop.Flushing? then s.flights[s.loop.flight] else map[]
  }

  /** From every open state a run can reach, the loop's own steps, none of them
      failing, empty the buffer and store what was in it and on board. */
  lemma LoopDelivers(s: State) returns (steps: seq<Step>)
    requires Served(s) && !s.closed
    ensures OwnSteps(s, steps)
    ensures
      var t := Run(s, steps);
      && t.pending == map[] && t.dropped == s.dropped
      && t.stored == Flushed(Flushed(s.stored, OnBoard(s), {}), s.pending, {})
  {
    steps := [];
    var ready := s;
    if s.loop.Created? {
      steps := [Start];
      RunLast(s, [], Start);
      OwnLast(s, [], Start);
      assert [] + [Start] == [Start];
      ready := Apply(s, Start);
    } else if s.loop.Flushing? {
      steps := FlightLands(s);
      ready := Run(s, steps);
    }
    assert OnBoard(s) == map[] ==> s.stored == Flushed(s.stored, OnBoard(s), {});
    if ready.loop.Waiting? {
      var delivery := WaitingDelivers(ready);
      OwnConcat(s, steps, delivery);
      RunConcat(s, steps, delivery);
      steps := steps + delivery;
    } else {
      assert s.stored == Flushed(s.stored, s.pending, {});
    }
  }
}
