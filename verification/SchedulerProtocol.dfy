/** Dispatchers of the refine scheduler that overlap (`refine/scheduler.py`): each
    picks and stamps inside one transaction, holding the rows it picked, while
    tenants join and opt in and out. */
module SchedulerProtocol {
  import opened OrderLimit
  import opened Scheduler

  datatype Dispatcher = Dispatcher(number: nat)

  /** The transaction that holds a row, and its now(), which the stamp takes. */
  datatype Lock = Lock(holder: Dispatcher, at: int)

  /** `clock` is the time of the last pick. */
  datatype State = State(tenants: Tenants, locks: map<Org, Lock>, clock: int)

  datatype Event =
    | Pick(dispatcher: Dispatcher, picked: seq<Org>, at: int)
    | Commit(dispatcher: Dispatcher)
    | Rollback(dispatcher: Dispatcher)
    | SetEnabled(org: Org, enabled: bool)

  predicate Holds(s: State, d: Dispatcher, org: Org) {
    org in s.locks && s.locks[org].holder == d
  }

  function RowsOf(s: State, d: Dispatcher): set<Org> {
    set org | org in s.locks && s.locks[org].holder == d
  }

  /** FOR UPDATE SKIP LOCKED: the opted-in rows that nobody holds. */
  function Free(s: State): set<Org> {
    set org | org in Enabled(s.tenants) && org !in s.locks
  }

  ghost predicate Possible(s: State, e: Event, limit: nat) {
    match e
    case Pick(d, picked, at) => RowsOf(s, d) == {} && at > s.clock && IsTop(Free(s), Before(s.tenants), limit, picked)
    case Commit(_) => true
    case Rollback(_) => true
    case SetEnabled(_, _) => true
  }

  function Stamped(s: State, d: Dispatcher): Tenants {
    map org | org in s.tenants ::
      if Holds(s, d, org) then s.tenants[org].(lastRun := At(s.locks[org].at)) else s.tenants[org]
  }

  function Released(s: State, d: Dispatcher): map<Org, Lock> {
    map org | org in s.locks && s.locks[org].holder != d :: s.locks[org]
  }

  function After(s: State, e: Event): State {
    match e
    case Pick(d, picked, at) =>
      State(s.tenants, map org | org in s.locks.Keys + Elements(picked) ::
        if org in picked then Lock(d, at) else s.locks[org], at)
    case Commit(d) => State(Stamped(s, d), Released(s, d), s.clock)
    case Rollback(d) => State(s.tenants, Released(s, d), s.clock)
    case SetEnabled(org, enabled) => s.(tenants := s.tenants[org := Tenant(enabled, StampOf(s.tenants, org))])
  }

  /** A state before each event and one after the last. */
  datatype Trace = Trace(states: seq<State>, events: seq<Event>)

  ghost predicate IsStep(s: State, e: Event, limit: nat, s': State) {
    Possible(s, e, limit) && s' == After(s, e)
  }

  ghost predicate IsTrace(t: Trace, limit: nat) {
    && |t.states| == |t.events| + 1 && Sound(t.states[0], limit)
    && forall i: nat | i < |t.events| :: StepAt(t, limit, i)
  }

  ghost predicate StepAt(t: Trace, limit: nat, i: nat)
    requires |t.states| == |t.events| + 1 && i < |t.events|
  {
    IsStep(t.states[i], t.events[i], limit, t.states[i + 1])
  }

  // ----- what every step keeps

  predicate NotAfter(stamp: Stamp, time: int) {
    stamp.At? ==> stamp.time <= time
  }

  predicate LockIsSound(s: State, org: Org)
    requires org in s.locks
  {
    org in s.tenants && s.locks[org].at <= s.clock
  }

  ghost predicate Sound(s: State, limit: nat) {
    && (forall org :: NotAfter(StampOf(s.tenants, org), s.clock))
    && (forall org | org in s.locks :: LockIsSound(s, org))
    && (forall d :: |RowsOf(s, d)| <= limit)
  }

  lemma StepKeepsRows(s: State, e: Event, limit: nat, d: Dispatcher)
    requires |RowsOf(s, d)| <= limit && Possible(s, e, limit)
    ensures |RowsOf(After(s, e), d)| <= limit
  {
    var rows := RowsOf(After(s, e), d);
    if e.Pick? && e.dispatcher == d {
      DistinctCardinality(e.picked);
      assert RowsOf(s, d) == {};
      assert forall org | org in rows :: org !in e.picked ==> org in RowsOf(s, d);
      SubsetSize(rows, Elements(e.picked));
    } else {
      SubsetSize(rows, RowsOf(s, d));
    }
  }

  lemma StepKeeps(s: State, e: Event, limit: nat)
    requires Sound(s, limit) && Possible(s, e, limit)
    ensures Sound(After(s, e), limit)
  {
    var s' := After(s, e);
    forall d
      ensures |RowsOf(s', d)| <= limit
    {
      StepKeepsRows(s, e, limit, d);
    }
    forall org | org in s'.locks
      ensures LockIsSound(s', org)
    {
      assert org in s.locks ==> LockIsSound(s, org);
    }
    forall org
      ensures NotAfter(StampOf(s'.tenants, org), s'.clock)
    {
      assert NotAfter(StampOf(s.tenants, org), s.clock);
      assert org in s.locks ==> LockIsSound(s, org);
    }
  }

  lemma {:induction false} TraceKeeps(t: Trace, limit: nat, i: nat)
    requires IsTrace(t, limit) && i <= |t.events|
    ensures Sound(t.states[i], limit)
    decreases i
  {
    if i > 0 {
      TraceKeeps(t, limit, i - 1);
      assert StepAt(t, limit, i - 1);
      StepKeeps(t.states[i - 1], t.events[i - 1], limit);
    }
  }

  /** The step before a state after the first, from a sound state. */
  lemma LastStep(t: Trace, limit: nat, i: nat)
    requires IsTrace(t, limit) && 0 < i <= |t.events|
    ensures Sound(t.states[i - 1], limit) && IsStep(t.states[i - 1], t.events[i - 1], limit, t.states[i])
  {
    TraceKeeps(t, limit, i - 1);
    assert StepAt(t, limit, i - 1);
  }

  // ----- bounded waiting

  /** The stamp a tenant has, or gets when the transaction that holds it commits. */
  function NextStamp(s: State, org: Org): Stamp {
    if org in s.locks then At(s.locks[org].at) else StampOf(s.tenants, org)
  }

  function Queue(s: State, all: set<Org>, org: Org): set<Org> {
    set other | other in all && other != org && NoLater(NextStamp(s, other), StampOf(s.tenants, org))
  }

  /** A pick that passes over a free, opted-in tenant is full, and from ahead of it. */
  lemma PickedFromAhead(s: State, picked: seq<Org>, limit: nat, all: set<Org>, org: Org)
    requires IsTop(Free(s), Before(s.tenants), limit, picked)
    requires org in Free(s) && org !in picked && Enabled(s.tenants) <= all
    ensures |Elements(picked)| == limit && Elements(picked) <= Queue(s, all, org)
  {
    var chosen := Elements(picked);
    DistinctCardinality(picked);
    assert chosen <= Free(s);
    if |Free(s)| <= limit {
      SubsetOfSameSize(chosen, Free(s));
    }
    forall o | o in chosen
      ensures o in Queue(s, all, org)
    {
      assert Before(s.tenants)(o, org);
    }
  }

  lemma QueueAfterPick(s: State, e: Event, all: set<Org>, org: Org)
    requires e.Pick? && NotAfter(StampOf(s.tenants, org), s.clock) && e.at > s.clock
    ensures Queue(After(s, e), all, org) == Queue(s, all, org) - Elements(e.picked)
  {
  }

  /** It takes `limit` tenants from ahead. */
  lemma PickMovesUp(s: State, e: Event, limit: nat, all: set<Org>, org: Org)
    requires Sound(s, limit) && Possible(s, e, limit) && e.Pick?
    requires org in Free(s) && org !in e.picked && Enabled(s.tenants) <= all
    ensures |Queue(After(s, e), all, org)| + limit == |Queue(s, all, org)|
  {
    PickedFromAhead(s, e.picked, limit, all, org);
    assert NotAfter(StampOf(s.tenants, org), s.clock);
    QueueAfterPick(s, e, all, org);
  }

  /** A commit changes no place: the stamps were counted since the pick. */
  lemma CommitKeepsStamps(s: State, d: Dispatcher, limit: nat, org: Org)
    requires Sound(s, limit)
    ensures NextStamp(After(s, Commit(d)), org) == NextStamp(s, org)
  {
    assert org in s.locks ==> LockIsSound(s, org);
  }

  /** A turn rolled back may put its tenants ahead again. */
  lemma RollbackRefills(s: State, d: Dispatcher, limit: nat, all: set<Org>, org: Org)
    requires |RowsOf(s, d)| <= limit
    ensures |Queue(After(s, Rollback(d)), all, org)| <= |Queue(s, all, org)| + limit
  {
    SubsetSize(Queue(After(s, Rollback(d)), all, org), Queue(s, all, org) + RowsOf(s, d));
  }

  /** How many of the first `n` events are picks. */
  function Picks(events: seq<Event>, n: nat): nat
    requires n <= |events|
  {
    if n == 0 then 0 else Picks(events, n - 1) + if events[n - 1].Pick? then 1 else 0
  }

  function Rollbacks(events: seq<Event>, n: nat): nat
    requires n <= |events|
  {
    if n == 0 then 0 else Rollbacks(events, n - 1) + if events[n - 1].Rollback? then 1 else 0
  }

  /** The tenant is opted in and in nobody's turn, and only these are opted in. */
  predicate Waits(s: State, all: set<Org>, org: Org) {
    org in Free(s) && Enabled(s.tenants) <= all
  }

  lemma StepMovesUp(s: State, e: Event, limit: nat, all: set<Org>, org: Org)
    requires Sound(s, limit) && Possible(s, e, limit)
    requires Waits(s, all, org) && Waits(After(s, e), all, org)
    ensures |Queue(After(s, e), all, org)| + (if e.Pick? then limit else 0)
         <= |Queue(s, all, org)| + (if e.Rollback? then limit else 0)
  {
    match e
    case Pick(_, picked, _) => PickMovesUp(s, e, limit, all, org);
    case Commit(d) =>
      forall o ensures NextStamp(After(s, e), o) == NextStamp(s, o) { CommitKeepsStamps(s, d, limit, o); }
      assert Queue(After(s, e), all, org) == Queue(s, all, org);
    case Rollback(d) => RollbackRefills(s, d, limit, all, org);
    case SetEnabled(_, _) => assert Queue(After(s, e), all, org) == Queue(s, all, org);
  }

  lemma {:induction false} WaitingMovesUp(t: Trace, limit: nat, all: set<Org>, org: Org, n: nat)
    requires IsTrace(t, limit) && n <= |t.events|
    requires forall s | s in t.states :: Waits(s, all, org)
    ensures |Queue(t.states[n], all, org)| + Picks(t.events, n) * limit
         <= |Queue(t.states[0], all, org)| + Rollbacks(t.events, n) * limit
    decreases n
  {
    if n > 0 {
      WaitingMovesUp(t, limit, all, org, n - 1);
      LastStep(t, limit, n);
      StepMovesUp(t.states[n - 1], t.events[n - 1], limit, all, org);
      OneMore(Picks(t.events, n - 1), limit);
      OneMore(Rollbacks(t.events, n - 1), limit);
    }
  }

  lemma OneMore(n: nat, limit: nat)
    ensures (n + 1) * limit == n * limit + limit
  {
  }

  /** Bounded waiting: however many dispatchers overlap and however the others opt in
      and out, a tenant that waits sees fewer than N/k picks more than are rolled back,
      where N counts the tenants opted in at some time meanwhile. */
  lemma WaitingIsBounded(t: Trace, limit: nat, all: set<Org>, org: Org)
    requires IsTrace(t, limit) && forall s | s in t.states :: Waits(s, all, org)
    ensures Picks(t.events, |t.events|) * limit < |all| + Rollbacks(t.events, |t.events|) * limit
  {
    WaitingMovesUp(t, limit, all, org, |t.events|);
    assert Waits(t.states[0], all, org);
    SubsetSize(Queue(t.states[0], all, org), all - {org});
  }

  // ----- turns alternate

  predicate PicksOrg(e: Event, org: Org) {
    e.Pick? && org in e.picked
  }

  predicate RollsBack(s: State, e: Event, org: Org) {
    e.Rollback? && Holds(s, e.dispatcher, org)
  }

  predicate IsRecent(stamp: Stamp, time: int) {
    stamp.At? && stamp.time >= time
  }

  lemma StaysOld(s: State, e: Event, limit: nat, org: Org, time: int)
    requires Sound(s, limit) && Possible(s, e, limit) && !PicksOrg(e, org)
    requires NotAfter(NextStamp(s, org), time) && NotAfter(StampOf(s.tenants, org), time)
    ensures NotAfter(NextStamp(After(s, e), org), time) && NotAfter(StampOf(After(s, e).tenants, org), time)
  {
  }

  lemma StaysRecent(s: State, e: Event, limit: nat, org: Org, time: int)
    requires Sound(s, limit) && Possible(s, e, limit) && IsRecent(NextStamp(s, org), time) && time <= s.clock
    requires !RollsBack(s, e, org)
    ensures IsRecent(NextStamp(After(s, e), org), time)
  {
    assert org in s.locks ==> LockIsSound(s, org);
  }

  lemma {:induction false} OldUntilPicked(t: Trace, limit: nat, org: Org, i: nat, j: nat)
    requires IsTrace(t, limit) && i <= j <= |t.events|
    requires forall m | i <= m < j :: !PicksOrg(t.events[m], org)
    ensures NotAfter(NextStamp(t.states[j], org), t.states[i].clock)
    ensures NotAfter(StampOf(t.states[j].tenants, org), t.states[i].clock)
    decreases j
  {
    if i < j {
      OldUntilPicked(t, limit, org, i, j - 1);
      LastStep(t, limit, j);
      StaysOld(t.states[j - 1], t.events[j - 1], limit, org, t.states[i].clock);
    } else {
      TraceKeeps(t, limit, i);
      StampsSoFar(t.states[i], limit, org);
    }
  }

  lemma StampsSoFar(s: State, limit: nat, org: Org)
    requires Sound(s, limit)
    ensures NotAfter(NextStamp(s, org), s.clock) && NotAfter(StampOf(s.tenants, org), s.clock)
  {
    assert org in s.locks ==> LockIsSound(s, org);
  }

  lemma JustPicked(s: State, e: Event, limit: nat, s': State, org: Org)
    requires IsStep(s, e, limit, s') && PicksOrg(e, org)
    ensures NextStamp(s', org) == At(e.at) && e.at == s'.clock > s.clock && Holds(s', e.dispatcher, org)
    ensures org in Free(s)
  {
  }

  lemma {:induction false} RecentOncePicked(t: Trace, limit: nat, org: Org, i: nat, j: nat)
    requires IsTrace(t, limit) && i < j <= |t.events| && PicksOrg(t.events[i], org)
    requires forall m | i < m < j :: !RollsBack(t.states[m], t.events[m], org)
    ensures IsRecent(NextStamp(t.states[j], org), t.events[i].at) && t.events[i].at <= t.states[j].clock
    decreases j
  {
    LastStep(t, limit, j);
    if j > i + 1 {
      RecentOncePicked(t, limit, org, i, j - 1);
      StaysRecent(t.states[j - 1], t.events[j - 1], limit, org, t.events[i].at);
    } else {
      JustPicked(t.states[i], t.events[i], limit, t.states[j], org);
    }
  }

  /** No tenant whose turn was not rolled back gets a second one before every other
      tenant, opted in and free by then, has been picked since the first. */
  lemma TurnsAlternate(t: Trace, limit: nat, org: Org, other: Org, i: nat, j: nat)
    requires IsTrace(t, limit) && i < j < |t.events|
    requires PicksOrg(t.events[i], org) && PicksOrg(t.events[j], org)
    requires forall m | i < m < j :: !RollsBack(t.states[m], t.events[m], org)
    requires other in Free(t.states[j])
    ensures exists m | i <= m <= j :: PicksOrg(t.events[m], other)
  {
    LastStep(t, limit, i + 1);
    LastStep(t, limit, j + 1);
    JustPicked(t.states[i], t.events[i], limit, t.states[i + 1], org);
    RecentOncePicked(t, limit, org, i, j);
    if forall m | i <= m <= j :: !PicksOrg(t.events[m], other) {
      OldUntilPicked(t, limit, other, i, j);
      PickedBefore(t.states[j], t.events[j], limit, org, other);
    }
  }

  lemma PickedBefore(s: State, e: Event, limit: nat, org: Org, other: Org)
    requires Possible(s, e, limit) && PicksOrg(e, org) && !PicksOrg(e, other) && other in Free(s)
    ensures NoLater(NextStamp(s, org), StampOf(s.tenants, other))
  {
    assert Before(s.tenants)(org, other);
  }

  predicate Ends(e: Event, d: Dispatcher) {
    e == Commit(d) || e == Rollback(d)
  }

  lemma StaysHeld(s: State, e: Event, limit: nat, d: Dispatcher, org: Org)
    requires Holds(s, d, org) && Possible(s, e, limit) && !Ends(e, d)
    ensures Holds(After(s, e), d, org)
  {
  }

  lemma {:induction false} HeldUntilEnd(t: Trace, limit: nat, org: Org, i: nat, j: nat)
    requires IsTrace(t, limit) && i < j <= |t.events| && PicksOrg(t.events[i], org)
    requires forall m | i < m < j :: !Ends(t.events[m], t.events[i].dispatcher)
    ensures Holds(t.states[j], t.events[i].dispatcher, org)
    decreases j
  {
    LastStep(t, limit, j);
    if j > i + 1 {
      HeldUntilEnd(t, limit, org, i, j - 1);
      StaysHeld(t.states[j - 1], t.events[j - 1], limit, t.events[i].dispatcher, org);
    } else {
      JustPicked(t.states[i], t.events[i], limit, t.states[j], org);
    }
  }

  /** No two dispatchers have the same tenant: one is picked again only once the
      transaction that picked it has ended. */
  lemma NeverPickedTwice(t: Trace, limit: nat, org: Org, i: nat, j: nat)
    requires IsTrace(t, limit) && i < j < |t.events|
    requires PicksOrg(t.events[i], org) && PicksOrg(t.events[j], org)
    ensures exists m | i < m < j :: Ends(t.events[m], t.events[i].dispatcher)
  {
    LastStep(t, limit, j + 1);
    JustPicked(t.states[j], t.events[j], limit, t.states[j + 1], org);
    if forall m | i < m < j :: !Ends(t.events[m], t.events[i].dispatcher) {
      HeldUntilEnd(t, limit, org, i, j);
    }
  }

  /** One tick of a dispatcher alone is a pick and a commit. */
  lemma TickIsATrace(s: State, d: Dispatcher, limit: nat, now: int, picked: seq<Org>, t': Tenants)
    requires Sound(s, limit) && s.locks == map[] && now > s.clock && IsTick(s.tenants, limit, now, picked, t')
    ensures
      var between := After(s, Pick(d, picked, now));
      IsTrace(Trace([s, between, State(t', map[], now)], [Pick(d, picked, now), Commit(d)]), limit)
  {
    assert Free(s) == Enabled(s.tenants);
    var between := After(s, Pick(d, picked, now));
    assert Released(between, d) == map[] && Stamped(between, d) == t';
  }

  /** A pick that is rolled back leaves no trace but the time. */
  lemma RollbackUndoes(s: State, d: Dispatcher, picked: seq<Org>, at: int, limit: nat)
    requires Possible(s, Pick(d, picked, at), limit)
    ensures After(After(s, Pick(d, picked, at)), Rollback(d)) == State(s.tenants, s.locks, at)
  {
    var t := After(s, Pick(d, picked, at));
    forall org
      ensures org in Released(t, d) <==> org in s.locks
    {
      assert org in picked ==> org in Free(s);
      assert org in s.locks && s.locks[org].holder == d ==> org in RowsOf(s, d);
    }
  }

  /** A commit stamps what the dispatcher holds with the time of its pick and frees it;
      nothing else changes. */
  lemma CommitStamps(s: State, d: Dispatcher, org: Org)
    ensures
      var t := After(s, Commit(d));
      && t.tenants.Keys == s.tenants.Keys && !Holds(t, d, org)
      && (org in s.tenants && Holds(s, d, org) ==>
            t.tenants[org] == Tenant(s.tenants[org].enabled, At(s.locks[org].at)))
      && (org in s.tenants && !Holds(s, d, org) ==> t.tenants[org] == s.tenants[org])
      && (!Holds(s, d, org) ==> (org in t.locks <==> org in s.locks))
      && (org in t.locks ==> t.locks[org] == s.locks[org])
  {
  }

  /** Opting in or out, or joining, sets the flag of that tenant and no stamp. */
  lemma SetEnabledSets(s: State, org: Org, enabled: bool, other: Org)
    ensures
      var t := After(s, SetEnabled(org, enabled));
      && (other in Enabled(t.tenants) <==> if other == org then enabled else other in Enabled(s.tenants))
      && StampOf(t.tenants, other) == StampOf(s.tenants, other)
      && t.locks == s.locks && t.clock == s.clock
  {
  }
}
