/** The multi-tenant refine scheduler (`refine/scheduler.py`): each tick picks the
    tenants that ran longest ago and stamps them. */
module Scheduler {
  import opened OrderLimit

  datatype Org = Org(number: nat)

  /** refine_last_run_at */
  datatype Stamp = Never | At(time: int)

  datatype Tenant = Tenant(enabled: bool, lastRun: Stamp)

  type Tenants = map<Org, Tenant>

  /** ORDER BY refine_last_run_at NULLS FIRST */
  predicate NoLater(a: Stamp, b: Stamp) {
    a.Never? || (b.At? && a.time <= b.time)
  }

  function StampOf(tenants: Tenants, org: Org): Stamp {
    if org in tenants then tenants[org].lastRun else Never
  }

  function Enabled(tenants: Tenants): set<Org> {
    set org | org in tenants && tenants[org].enabled
  }

  function Before(tenants: Tenants): (Org, Org) -> bool {
    (a: Org, b: Org) => NoLater(StampOf(tenants, a), StampOf(tenants, b))
  }

  /** UPDATE tenants SET refine_last_run_at = at, for each of the orgs. */
  function Marked(tenants: Tenants, orgs: set<Org>, at: int): Tenants {
    map org | org in tenants :: if org in orgs then tenants[org].(lastRun := At(at)) else tenants[org]
  }

  /** The first stamp is missing, or both are there and the first is not after the
      second. */
  predicate RanNoLater(a: Tenant, b: Tenant) {
    match a.lastRun
    case Never => true
    case At(time) =>
      match b.lastRun
      case Never => false
      case At(other) => time <= other
  }

  /** At most `limit` opted-in tenants that nobody holds, in the order of their last run;
      any other one is left out only if there are `limit` of them and none ran later. */
  predicate IsFairPick(tenants: Tenants, locked: set<Org>, limit: nat, picked: seq<Org>) {
    && |picked| <= limit
    && (forall i | 0 <= i < |picked| :: picked[i] in tenants && tenants[picked[i]].enabled && picked[i] !in locked)
    && (forall i, j | 0 <= i < j < |picked| ::
          picked[i] != picked[j] && RanNoLater(tenants[picked[i]], tenants[picked[j]]))
    && forall org | org in tenants && tenants[org].enabled && org !in locked && org !in picked ::
         |picked| == limit && forall i | 0 <= i < |picked| :: RanNoLater(tenants[picked[i]], tenants[org])
  }

  lemma TopIsFair(tenants: Tenants, locked: set<Org>, limit: nat, picked: seq<Org>)
    requires IsTop(Enabled(tenants) - locked, Before(tenants), limit, picked)
    ensures IsFairPick(tenants, locked, limit, picked)
  {
    forall i | 0 <= i < |picked|
      ensures picked[i] in tenants && tenants[picked[i]].enabled && picked[i] !in locked
    {
      assert picked[i] in picked;
    }
    forall i, j | 0 <= i < j < |picked|
      ensures RanNoLater(tenants[picked[i]], tenants[picked[j]])
    {
      assert Before(tenants)(picked[i], picked[j]);
    }
    forall org | org in tenants && tenants[org].enabled && org !in locked && org !in picked
      ensures |picked| == limit && forall i | 0 <= i < |picked| :: RanNoLater(tenants[picked[i]], tenants[org])
    {
      LeftOutMeansFull(Enabled(tenants) - locked, Before(tenants), limit, picked, org);
      forall i | 0 <= i < |picked|
        ensures RanNoLater(tenants[picked[i]], tenants[org])
      {
        assert picked[i] in picked && Before(tenants)(picked[i], org);
      }
    }
  }

  lemma LeftOutMeansFull(items: set<Org>, before: (Org, Org) -> bool, limit: nat, picked: seq<Org>, org: Org)
    requires IsTop(items, before, limit, picked) && org in items && org !in picked
    ensures |picked| == limit
  {
    DistinctCardinality(picked);
    assert Elements(picked) <= items - {org};
    SubsetSize(Elements(picked), items - {org});
  }

  class TenantTable {
    var tenants: Tenants

    /** `pick_refine_tenants`; `locked` are the rows concurrent dispatchers hold,
        which the query skips. */
    method Pick(limit: int, locked: set<Org>) returns (picked: seq<Org>)
      ensures limit <= 0 ==> picked == []
      ensures limit > 0 ==> IsTop(Enabled(tenants) - locked, Before(tenants), limit, picked)
      ensures limit > 0 ==> IsFairPick(tenants, locked, limit, picked)
    {
      if limit <= 0 {
        return [];
      }
      picked := Take(Enabled(tenants) - locked, Before(tenants), limit);
      TopIsFair(tenants, locked, limit, picked);
    }

    /** `mark_refine_dispatched` */
    method Mark(org: Org, at: int)
      modifies this
      ensures tenants == Marked(old(tenants), {org}, at)
      ensures tenants.Keys == old(tenants).Keys
      ensures forall o | o in tenants ::
        tenants[o] == if o == org then Tenant(old(tenants)[o].enabled, At(at)) else old(tenants)[o]
    {
      if org in tenants {
        tenants := tenants[org := tenants[org].(lastRun := At(at))];
      }
    }

    /** One beat: pick, dispatch, mark every tenant dispatched. */
    method Tick(limit: int, now: int) returns (picked: seq<Org>)
      modifies this
      ensures limit > 0 ==> IsTick(old(tenants), limit, now, picked, tenants)
      ensures limit <= 0 ==> picked == [] && tenants == old(tenants)
    {
      picked := Pick(limit, {});
      assert Enabled(tenants) - {} == Enabled(tenants);
      MarkAll(picked, now);
    }

    method MarkAll(picked: seq<Org>, now: int)
      modifies this
      ensures tenants == Marked(old(tenants), Elements(picked), now)
    {
      var i := 0;
      assert tenants == Marked(tenants, {}, now);
      while i < |picked|
        invariant 0 <= i <= |picked|
        invariant tenants == Marked(old(tenants), Elements(picked[..i]), now)
      {
        Mark(picked[i], now);
        assert Elements(picked[..i + 1]) == Elements(picked[..i]) + {picked[i]};
        i := i + 1;
      }
      assert picked[..i] == picked;
    }
  }

  /** Two dispatchers at the same time, the second skipping what the first holds, pick
      what one dispatcher with both limits could pick. */
  lemma ConcurrentPicksAreOne(items: set<Org>, before: (Org, Org) -> bool, k: nat, m: nat, a: seq<Org>, b: seq<Org>)
    requires IsTop(items, before, k, a) && IsTop(items - Elements(a), before, m, b)
    ensures IsTop(items, before, k + m, a + b)
  {
    DistinctCardinality(a);
    assert Elements(a) <= items;
    assert |items - Elements(a)| == |items| - |a|;
    var both := a + b;
    forall i, j | 0 <= i < j < |both|
      ensures both[i] != both[j] && before(both[i], both[j])
    {
      if i < |a| <= j {
        assert b[j - |a|] in b && a[i] in a;
      }
    }
    forall p, x | p in both && x in items && x !in both
      ensures before(p, x)
    {
      assert x !in a && x !in b;
    }
  }

  ghost predicate IsTick(t: Tenants, limit: nat, now: int, picked: seq<Org>, t': Tenants) {
    && IsTop(Enabled(t), Before(t), limit, picked)
    && t' == Marked(t, Elements(picked), now)
  }

  /** Every stamp lies before `now`. */
  predicate AllBefore(t: Tenants, now: int) {
    forall org | org in t :: t[org].lastRun.At? ==> t[org].lastRun.time < now
  }

  /** The other opted-in tenants that may be picked ahead of `org`. */
  function Ahead(t: Tenants, org: Org): set<Org> {
    set o | o in Enabled(t) && o != org && NoLater(StampOf(t, o), StampOf(t, org))
  }

  lemma TickKeepsEnabled(t: Tenants, limit: nat, now: int, picked: seq<Org>, t': Tenants)
    requires IsTick(t, limit, now, picked, t')
    ensures Enabled(t') == Enabled(t)
  {
  }

  lemma SubsetOfSameSize<T>(a: set<T>, b: set<T>)
    requires a <= b && |a| == |b|
    ensures a == b
  {
    assert |b - a| == |b| - |a|;
    assert b - a == {};
  }

  /** A tenant passed over sees `limit` of those ahead of it move behind it. */
  lemma PassedOverMovesUp(t: Tenants, limit: nat, now: int, picked: seq<Org>, t': Tenants, org: Org)
    requires IsTick(t, limit, now, picked, t') && AllBefore(t, now)
    requires org in Enabled(t) && org !in picked
    ensures |Ahead(t, org)| >= limit && |Ahead(t', org)| == |Ahead(t, org)| - limit
  {
    DistinctCardinality(picked);
    var chosen := Elements(picked);
    assert chosen <= Enabled(t);
    if |Enabled(t)| <= limit {
      SubsetOfSameSize(chosen, Enabled(t));
    }
    assert |chosen| == limit;
    forall o | o in chosen
      ensures o in Ahead(t, org)
    {
      assert Before(t)(o, org);
    }
    forall o
      ensures o in Ahead(t', org) <==> o in Ahead(t, org) - chosen
    {
      if o in chosen {
        assert StampOf(t', o) == At(now);
      }
    }
    assert Ahead(t', org) == Ahead(t, org) - chosen;
    assert |Ahead(t, org) - chosen| == |Ahead(t, org)| - |chosen|;
  }

  /** Consecutive ticks of the scheduler at strictly increasing times. */
  datatype Run = Run(states: seq<Tenants>, picks: seq<seq<Org>>, times: seq<int>)

  ghost predicate IsRun(r: Run, limit: nat) {
    && |r.states| == |r.picks| + 1 && |r.times| == |r.picks|
    && (forall i | 0 <= i < |r.picks| :: TickAt(r, limit, i))
    && (forall i, j | 0 <= i < j < |r.times| :: r.times[i] < r.times[j])
    && (r.times != [] ==> AllBefore(r.states[0], r.times[0]))
  }

  ghost predicate TickAt(r: Run, limit: nat, i: nat)
    requires |r.states| == |r.picks| + 1 && |r.times| == |r.picks| && i < |r.picks|
  {
    IsTick(r.states[i], limit, r.times[i], r.picks[i], r.states[i + 1])
  }

  lemma {:induction false} RunFacts(r: Run, limit: nat, i: nat)
    requires IsRun(r, limit) && i <= |r.picks|
    ensures Enabled(r.states[i]) == Enabled(r.states[0])
    ensures i < |r.picks| ==> AllBefore(r.states[i], r.times[i])
    decreases i
  {
    if i > 0 {
      RunFacts(r, limit, i - 1);
      assert TickAt(r, limit, i - 1);
      assert r.states[i - 1 + 1] == r.states[i];
      TickKeepsEnabled(r.states[i - 1], limit, r.times[i - 1], r.picks[i - 1], r.states[i]);
    }
  }

  /** After `n` ticks without a turn, n * limit tenants have gone from ahead. */
  lemma {:induction false} WaitingMovesUp(r: Run, limit: nat, org: Org, start: nat, n: nat)
    requires IsRun(r, limit) && org in Enabled(r.states[0]) && start + n <= |r.picks|
    requires forall i | start <= i < start + n :: org !in r.picks[i]
    ensures |Ahead(r.states[start], org)| == n * limit + |Ahead(r.states[start + n], org)|
    decreases n
  {
    if n > 0 {
      var i := start + n - 1;
      WaitingMovesUp(r, limit, org, start, n - 1);
      RunFacts(r, limit, i);
      assert TickAt(r, limit, i);
      PassedOverMovesUp(r.states[i], limit, r.times[i], r.picks[i], r.states[i + 1], org);
      assert n * limit == (n - 1) * limit + limit;
    }
  }

  /** Bounded waiting: with N tenants opted in and k picked a tick, every one of them is
      picked in any n consecutive ticks with n k >= N, however ties fall. */
  lemma BoundedWaiting(r: Run, limit: nat, org: Org, start: nat, n: nat)
    requires IsRun(r, limit) && org in Enabled(r.states[0])
    requires n * limit >= |Enabled(r.states[0])| && start + n <= |r.picks|
    ensures exists i | start <= i < start + n :: org in r.picks[i]
  {
    var all := Enabled(r.states[0]);
    RunFacts(r, limit, start);
    assert Ahead(r.states[start], org) <= all - {org};
    SubsetSize(Ahead(r.states[start], org), all - {org});
    if forall i | start <= i < start + n :: org !in r.picks[i] {
      WaitingMovesUp(r, limit, org, start, n);
    }
  }

  lemma SubsetSize<T>(a: set<T>, b: set<T>)
    requires a <= b
    ensures |a| <= |b|
  {
    assert |b - a| == |b| - |a|;
  }

  lemma {:induction false} UnpickedKeepsStamp(r: Run, limit: nat, org: Org, from: nat, until: nat)
    requires IsRun(r, limit) && from <= until <= |r.picks|
    requires forall m | from <= m < until :: org !in r.picks[m]
    ensures StampOf(r.states[until], org) == StampOf(r.states[from], org)
    decreases until
  {
    if from < until {
      UnpickedKeepsStamp(r, limit, org, from, until - 1);
      assert TickAt(r, limit, until - 1);
      assert r.states[until - 1 + 1] == r.states[until];
    }
  }

  /** Round robin: no tenant gets a second turn before every other opted-in
      tenant has had one, in the tick of the first turn or since. */
  lemma NobodyTwiceBeforeAll(r: Run, limit: nat, org: Org, other: Org, first: nat, second: nat)
    requires limit >= 1 && IsRun(r, limit) && first < second < |r.picks|
    requires org in r.picks[first] && org in r.picks[second]
    requires other in Enabled(r.states[0])
    ensures exists m | first <= m <= second :: other in r.picks[m]
  {
    RunFacts(r, limit, first);
    RunFacts(r, limit, second);
    StampSincePick(r, limit, org, first, second);
    assert TickAt(r, limit, second);
    assert other !in r.picks[second] ==> Before(r.states[second])(org, other);
    if forall m | first <= m <= second :: other !in r.picks[m] {
      UnpickedKeepsStamp(r, limit, other, first, second);
    }
  }

  /** A tenant picked at tick `first` is never stamped earlier than that again. */
  lemma {:induction false} StampSincePick(r: Run, limit: nat, org: Org, first: nat, until: nat)
    requires IsRun(r, limit) && first < until <= |r.picks| && org in r.picks[first]
    ensures StampOf(r.states[until], org).At? && StampOf(r.states[until], org).time >= r.times[first]
    ensures org in r.states[until]
    decreases until
  {
    assert TickAt(r, limit, until - 1);
    assert r.states[until - 1 + 1] == r.states[until];
    if until == first + 1 {
      assert org in Enabled(r.states[first]);
    } else {
      StampSincePick(r, limit, org, first, until - 1);
    }
  }
}
