/** Feedback and decay (`refine/reweight.py`, `refine/prune.py`): what many
    refine cycles do to the weight of an edge.  Floats are reals. */
module Weights {
  import opened Graph
  import opened RealMath

  /** What a feedback row's `edge_id` names: nothing, a row of
      memory_relationships, or an edge kept elsewhere under a string id. */
  datatype EdgeRef = NoEdge | Row(id: Id) | Foreign(name: string)

  datatype Feedback = Feedback(org: Id, edge: EdgeRef, signal: int)

  predicate IsSignal(s: int) {
    -1 <= s <= 1
  }

  // ----- one update

  function Clamp01(x: real): real {
    var low := if x < 1.0 then x else 1.0;
    if low > 0.0 then low else 0.0
  }

  /** The projection of a signal mean to [0, 1]. */
  function Target(mean: real): real {
    (mean + 1.0) / 2.0
  }

  /** `compute_new_weight` */
  function NewWeight(current: real, mean: real, decay: real): real {
    Clamp01(Blend(current, Target(mean), decay))
  }

  lemma StepToTarget(w: real, mean: real, decay: real)
    requires InUnit(w) && -1.0 <= mean <= 1.0 && InUnit(decay)
    ensures InUnit(NewWeight(w, mean, decay))
    ensures NewWeight(w, mean, decay) - Target(mean) == decay * (w - Target(mean))
  {
    ClampedBlend(w, Target(mean), decay);
  }

  /** For weights, decays and means in range the clamp never acts, and the
      distance to the target shrinks by the decay. */
  lemma ClampNeverActs(w: real, mean: real, decay: real)
    requires InUnit(w) && -1.0 <= mean <= 1.0 && InUnit(decay)
    ensures InUnit(NewWeight(w, mean, decay))
    ensures NewWeight(w, mean, decay) - (mean + 1.0) / 2.0 == decay * (w - (mean + 1.0) / 2.0)
  {
    StepToTarget(w, mean, decay);
  }

  /** Out of range too: the exponential average, cut off at 0 and 1. */
  lemma ClampsAtTheEnds(w: real, mean: real, decay: real)
    ensures
      var v := w * decay + (1.0 - decay) * ((mean + 1.0) / 2.0);
      NewWeight(w, mean, decay) == if v < 0.0 then 0.0 else if v > 1.0 then 1.0 else v
  {
    assert Blend(w, Target(mean), decay) == w * decay + (1.0 - decay) * ((mean + 1.0) / 2.0);
    CutOff(Blend(w, Target(mean), decay));
  }

  lemma CutOff(v: real)
    ensures Clamp01(v) == if v < 0.0 then 0.0 else if v > 1.0 then 1.0 else v
  {
  }

  lemma ClampedBlend(w: real, t: real, d: real)
    requires InUnit(w) && InUnit(t) && InUnit(d)
    ensures InUnit(Clamp01(Blend(w, t, d))) && Clamp01(Blend(w, t, d)) - t == d * (w - t)
  {
    BlendInUnit(w, t, d);
    BlendDistance(w, t, d);
    InRangeUnclamped(Blend(w, t, d));
  }

  lemma InRangeUnclamped(v: real)
    requires InUnit(v)
    ensures Clamp01(v) == v
  {
  }

  /** An update never leads below both the weight and the target. */
  lemma StepAbove(w: real, mean: real, decay: real, threshold: real)
    requires InUnit(w) && -1.0 <= mean <= 1.0 && InUnit(decay)
    requires w >= threshold && Target(mean) >= threshold
    ensures NewWeight(w, mean, decay) >= threshold
  {
    BlendInUnit(w, Target(mean), decay);
    BlendAbove(w, Target(mean), decay, threshold);
  }

  // ----- the table

  /** The signals of one edge, for one tenant. */
  function Signals(feedback: seq<Feedback>, org: Id, edge: EdgeRef): seq<int> {
    if feedback == [] then []
    else
      var f := feedback[|feedback| - 1];
      Signals(feedback[..|feedback| - 1], org, edge) + if f.org == org && f.edge == edge then [f.signal] else []
  }

  function Sum(s: seq<int>): int {
    if s == [] then 0 else Sum(s[..|s| - 1]) + s[|s| - 1]
  }

  /** AVG(signal) */
  function Mean(s: seq<int>): real
    requires s != []
  {
    Sum(s) as real / |s| as real
  }

  ghost predicate SignalsValid(feedback: seq<Feedback>) {
    forall i | 0 <= i < |feedback| :: IsSignal(feedback[i].signal)
  }

  lemma {:induction false} MeanInRange(feedback: seq<Feedback>, org: Id, edge: EdgeRef)
    requires SignalsValid(feedback)
    ensures
      var s := Signals(feedback, org, edge);
      -|s| <= Sum(s) <= |s| && (s != [] ==> -1.0 <= Mean(s) <= 1.0)
    decreases |feedback|
  {
    if feedback != [] {
      var front, f := feedback[..|feedback| - 1], feedback[|feedback| - 1];
      MeanInRange(front, org, edge);
      var s, before := Signals(feedback, org, edge), Signals(front, org, edge);
      if f.org == org && f.edge == edge {
        assert s[..|s| - 1] == before && s[|s| - 1] == f.signal;
      } else {
        assert s == before;
      }
      if s != [] {
        RatioInRange(Sum(s), |s|);
      }
    }
  }

  /** The rows of the tenant that give the edge this signal. */
  function Giving(feedback: seq<Feedback>, org: Id, edge: EdgeRef, signal: int): set<nat> {
    set i: nat | i < |feedback| && feedback[i] == Feedback(org, edge, signal)
  }

  lemma CountOneMore(s: seq<int>, x: int, signal: int)
    ensures multiset(s + [x])[signal] == multiset(s)[signal] + if x == signal then 1 else 0
  {
  }

  lemma GivingOneMore(feedback: seq<Feedback>, f: Feedback, org: Id, edge: EdgeRef, signal: int)
    ensures |Giving(feedback + [f], org, edge, signal)|
        == |Giving(feedback, org, edge, signal)| + if f == Feedback(org, edge, signal) then 1 else 0
  {
    var all, before := feedback + [f], Giving(feedback, org, edge, signal);
    assert forall i | 0 <= i < |feedback| :: all[i] == feedback[i];
    assert Giving(all, org, edge, signal) == if f == Feedback(org, edge, signal) then before + {|feedback|} else before;
  }

  lemma {:induction false} SignalsCount(feedback: seq<Feedback>, org: Id, edge: EdgeRef, signal: int)
    ensures multiset(Signals(feedback, org, edge))[signal] == |Giving(feedback, org, edge, signal)|
    decreases |feedback|
  {
    if feedback != [] {
      var front, f := feedback[..|feedback| - 1], feedback[|feedback| - 1];
      SignalsCount(front, org, edge, signal);
      GivingOneMore(front, f, org, edge, signal);
      CountOneMore(Signals(front, org, edge), f.signal, signal);
      assert feedback == front + [f];
    }
  }

  /** The average of signals is how many more are up than down, out of all of them. */
  lemma {:induction false} SumCounts(s: seq<int>)
    requires forall i | 0 <= i < |s| :: IsSignal(s[i])
    ensures Sum(s) + multiset(s)[-1] == multiset(s)[1]
    ensures |s| == multiset(s)[1] + multiset(s)[0] + multiset(s)[-1]
    decreases |s|
  {
    if s != [] {
      var front := s[..|s| - 1];
      SumCounts(front);
      assert s == front + [s[|s| - 1]];
    }
  }

  lemma MeanCounts(s: seq<int>, up: nat, down: nat)
    requires s != [] && forall i | 0 <= i < |s| :: IsSignal(s[i])
    requires multiset(s)[1] == up && multiset(s)[-1] == down
    ensures -1.0 <= Mean(s) <= 1.0 && Mean(s) == (up - down as int) as real / |s| as real
  {
    SumCounts(s);
    RatioInRange(Sum(s), |s|);
  }

  lemma RatioInRange(a: int, n: int)
    requires n > 0 && -n <= a <= n
    ensures -1.0 <= a as real / n as real <= 1.0
  {
    var q := a as real / n as real;
    assert q * n as real == a as real;
  }

  /** GROUP BY edge_id: the edges that have feedback. */
  function Refs(feedback: seq<Feedback>, org: Id): set<EdgeRef> {
    set i | 0 <= i < |feedback| && feedback[i].org == org && !feedback[i].edge.NoEdge? :: feedback[i].edge
  }

  lemma {:induction false} RefHasSignals(feedback: seq<Feedback>, org: Id, edge: EdgeRef)
    ensures edge in Refs(feedback, org) <==> !edge.NoEdge? && Signals(feedback, org, edge) != []
    decreases |feedback|
  {
    if feedback != [] {
      var front, f := feedback[..|feedback| - 1], feedback[|feedback| - 1];
      RefHasSignals(front, org, edge);
      if edge in Refs(front, org) {
        var i :| 0 <= i < |front| && front[i].org == org && front[i].edge == edge;
        assert feedback[i] == front[i];
      }
      if edge in Refs(feedback, org) {
        var i :| 0 <= i < |feedback| && feedback[i].org == org && feedback[i].edge == edge;
        assert i < |front| ==> front[i] == feedback[i];
      }
      if f.org == org && f.edge == edge && !edge.NoEdge? {
        assert feedback[|feedback| - 1].edge in Refs(feedback, org);
      }
    }
  }

  predicate Touched(table: Relationships, org: Id, done: set<EdgeRef>, id: Id) {
    id in table && table[id].org == org && Row(id) in done
  }

  /** The table after the updates of the edges in `done`. */
  function Reweighted(
      table: Relationships, org: Id, feedback: seq<Feedback>, decay: real, done: set<EdgeRef>): Relationships
    requires forall r | r in done :: Signals(feedback, org, r) != []
  {
    map id | id in table ::
      if Touched(table, org, done, id)
      then table[id].(weight := NewWeight(table[id].weight, Mean(Signals(feedback, org, Row(id))), decay))
      else table[id]
  }

  /** Everything RunReweight does to the table. */
  function AfterReweight(table: Relationships, org: Id, feedback: seq<Feedback>, decay: real): Relationships {
    assert forall r | r in Refs(feedback, org) :: Signals(feedback, org, r) != [] by {
      forall r | r in Refs(feedback, org) ensures Signals(feedback, org, r) != [] { RefHasSignals(feedback, org, r); }
    }
    Reweighted(table, org, feedback, decay, Refs(feedback, org))
  }

  function AfterPrune(table: Relationships, org: Id, threshold: real): Relationships {
    map id | id in table && !(table[id].org == org && table[id].weight < threshold) :: table[id]
  }

  /** The update of one edge touches its own row only. */
  lemma {:induction false} ReweightOne(
      table: Relationships, org: Id, feedback: seq<Feedback>, decay: real, done: set<EdgeRef>, r: EdgeRef)
    requires forall d | d in done + {r} :: Signals(feedback, org, d) != []
    requires r !in done
    ensures
      var t, t' := Reweighted(table, org, feedback, decay, done), Reweighted(table, org, feedback, decay, done + {r});
      if r.Row? && r.id in t && t[r.id].org == org
      then t' == t[r.id := t[r.id].(weight := NewWeight(t[r.id].weight, Mean(Signals(feedback, org, r)), decay))]
      else t' == t
  {
    var t, t' := Reweighted(table, org, feedback, decay, done), Reweighted(table, org, feedback, decay, done + {r});
    forall id | id in table
      ensures Touched(table, org, done + {r}, id) <==>
          Touched(table, org, done, id) || (table[id].org == org && r == Row(id))
    {
    }
    if r.Row? && r.id in t && t[r.id].org == org {
      assert t[r.id] == table[r.id];
    }
  }

  function Cycle(table: Relationships, org: Id, feedback: seq<Feedback>, decay: real, threshold: real): Relationships {
    AfterPrune(AfterReweight(table, org, feedback, decay), org, threshold)
  }

  /** `n` cycles under unchanged feedback. */
  function Cycles(
      table: Relationships, org: Id, feedback: seq<Feedback>, decay: real, threshold: real, n: nat): Relationships
  {
    if n == 0 then table
    else Cycle(Cycles(table, org, feedback, decay, threshold, n - 1), org, feedback, decay, threshold)
  }

  // ----- many updates

  /** The weight after `n` updates towards the same mean. */
  function WeightAfter(w: real, mean: real, decay: real, n: nat): real {
    if n == 0 then w else NewWeight(WeightAfter(w, mean, decay, n - 1), mean, decay)
  }

  /** The clamp acts in none of the updates. */
  lemma {:induction false} NeverClamped(w: real, mean: real, decay: real, n: nat)
    requires InUnit(w) && -1.0 <= mean <= 1.0 && InUnit(decay)
    ensures WeightAfter(w, mean, decay, n) == Approach(w, Target(mean), decay, n)
    ensures InUnit(WeightAfter(w, mean, decay, n))
    decreases n
  {
    if n > 0 {
      NeverClamped(w, mean, decay, n - 1);
      BlendInUnit(WeightAfter(w, mean, decay, n - 1), Target(mean), decay);
    }
  }

  /** w_n - t == decay^n (w_0 - t) */
  lemma ClosedForm(w: real, mean: real, decay: real, n: nat)
    requires InUnit(w) && -1.0 <= mean <= 1.0 && InUnit(decay)
    ensures InUnit(WeightAfter(w, mean, decay, n))
    ensures WeightAfter(w, mean, decay, n) - (mean + 1.0) / 2.0 == Pow(decay, n) * (w - (mean + 1.0) / 2.0)
  {
    NeverClamped(w, mean, decay, n);
    ApproachDistance(w, Target(mean), decay, n);
  }

  /** The weight stays at or above the threshold in each of the first `n` cycles. */
  predicate StaysAbove(w: real, mean: real, decay: real, threshold: real, n: nat) {
    n == 0 || (StaysAbove(w, mean, decay, threshold, n - 1) && WeightAfter(w, mean, decay, n) >= threshold)
  }

  /** An edge of the tenant that has feedback. */
  predicate HasFeedback(table: Relationships, org: Id, feedback: seq<Feedback>, id: Id) {
    id in table && table[id].org == org && Signals(feedback, org, Row(id)) != []
  }

  /** After `n` cycles the edge is there exactly when no cycle took it below the
      threshold, and then it has the weight of `n` updates. */
  lemma {:induction false} EdgeAfterCycles(
      table: Relationships, org: Id, feedback: seq<Feedback>, decay: real, threshold: real, n: nat, id: Id)
    requires HasFeedback(table, org, feedback, id)
    ensures
      var after := Cycles(table, org, feedback, decay, threshold, n);
      var mean := Mean(Signals(feedback, org, Row(id)));
      && (id in after <==> StaysAbove(table[id].weight, mean, decay, threshold, n))
      && (id in after ==> after[id] == table[id].(weight := WeightAfter(table[id].weight, mean, decay, n)))
    decreases n
  {
    if n > 0 {
      EdgeAfterCycles(table, org, feedback, decay, threshold, n - 1, id);
      RefHasSignals(feedback, org, Row(id));
      var before := Cycles(table, org, feedback, decay, threshold, n - 1);
      var mid := AfterReweight(before, org, feedback, decay);
      if id in before {
        assert Touched(before, org, Refs(feedback, org), id);
      }
    }
  }

  /** Weights move towards the target, so they never drop below both. */
  lemma {:induction false} KeptAbove(w: real, mean: real, decay: real, threshold: real, n: nat)
    requires InUnit(w) && -1.0 <= mean <= 1.0 && InUnit(decay)
    requires Target(mean) >= threshold && (n > 0 ==> WeightAfter(w, mean, decay, 1) >= threshold)
    ensures StaysAbove(w, mean, decay, threshold, n)
    ensures n > 0 ==> WeightAfter(w, mean, decay, n) >= threshold
    decreases n
  {
    if n > 1 {
      KeptAbove(w, mean, decay, threshold, n - 1);
      NeverClamped(w, mean, decay, n - 1);
      StepAbove(WeightAfter(w, mean, decay, n - 1), mean, decay, threshold);
    } else if n == 1 {
      assert StaysAbove(w, mean, decay, threshold, 0);
    }
  }

  /** An edge whose weight and target are both at or above the threshold is never
      pruned. */
  lemma {:induction false} NeverPruned(
      table: Relationships, org: Id, feedback: seq<Feedback>, decay: real, threshold: real, n: nat, id: Id)
    requires HasFeedback(table, org, feedback, id) && SignalsValid(feedback)
    requires InUnit(table[id].weight) && InUnit(decay)
    requires table[id].weight >= threshold && (Mean(Signals(feedback, org, Row(id))) + 1.0) / 2.0 >= threshold
    ensures id in Cycles(table, org, feedback, decay, threshold, n)
  {
    var w, mean := table[id].weight, Mean(Signals(feedback, org, Row(id)));
    MeanInRange(feedback, org, Row(id));
    EdgeAfterCycles(table, org, feedback, decay, threshold, n, id);
    assert WeightAfter(w, mean, decay, 0) == w;
    StepAbove(w, mean, decay, threshold);
    KeptAbove(w, mean, decay, threshold, n);
  }

  lemma PowerIsSmall(mean: real, decay: real, threshold: real, n: nat)
    requires 0.0 <= decay < 1.0 && Target(mean) < threshold
    requires n as real * ((1.0 - decay) * (threshold - Target(mean))) >= 1.0
    ensures 0.0 <= Pow(decay, n) < threshold - Target(mean) && n > 0
  {
    StepsSuffice(decay, threshold - Target(mean), n);
  }

  lemma FallsBelow(w: real, mean: real, decay: real, threshold: real, n: nat)
    requires InUnit(w) && -1.0 <= mean <= 1.0 && InUnit(decay)
    requires 0.0 <= Pow(decay, n) < threshold - Target(mean)
    ensures WeightAfter(w, mean, decay, n) < threshold
  {
    NeverClamped(w, mean, decay, n);
    ApproachBelow(w, Target(mean), decay, threshold, n);
  }

  lemma {:induction false} PrunedWhenSmall(
      table: Relationships, org: Id, feedback: seq<Feedback>, decay: real, threshold: real, n: nat, id: Id,
      mean: real)
    requires HasFeedback(table, org, feedback, id) && mean == Mean(Signals(feedback, org, Row(id)))
    requires InUnit(table[id].weight) && -1.0 <= mean <= 1.0 && InUnit(decay)
    requires 0.0 <= Pow(decay, n) < threshold - Target(mean) && n > 0
    ensures id !in Cycles(table, org, feedback, decay, threshold, n)
  {
    EdgeAfterCycles(table, org, feedback, decay, threshold, n, id);
    FallsBelow(table[id].weight, mean, decay, threshold, n);
  }

  /** An edge whose target t is below the threshold is gone after n cycles, for any n
      with n (1 - decay) (threshold - t) >= 1. */
  lemma {:induction false} PrunedInTime(
      table: Relationships, org: Id, feedback: seq<Feedback>, decay: real, threshold: real, n: nat, id: Id)
    requires HasFeedback(table, org, feedback, id) && SignalsValid(feedback)
    requires InUnit(table[id].weight) && 0.0 <= decay < 1.0
    requires
      var t := (Mean(Signals(feedback, org, Row(id))) + 1.0) / 2.0;
      t < threshold && n as real * ((1.0 - decay) * (threshold - t)) >= 1.0
    ensures id !in Cycles(table, org, feedback, decay, threshold, n)
  {
    var mean := Mean(Signals(feedback, org, Row(id)));
    MeanInRange(feedback, org, Row(id));
    PowerIsSmall(mean, decay, threshold, n);
    PrunedWhenSmall(table, org, feedback, decay, threshold, n, id, mean);
  }

  /** The tenant's edge is there after every number of cycles. */
  ghost predicate Survives(
      table: Relationships, org: Id, feedback: seq<Feedback>, decay: real, threshold: real, id: Id)
  {
    forall n: nat :: id in Cycles(table, org, feedback, decay, threshold, n)
  }

  /** It is pruned in some cycle. */
  lemma PrunedSometime(table: Relationships, org: Id, feedback: seq<Feedback>, decay: real, threshold: real, id: Id)
    requires HasFeedback(table, org, feedback, id) && SignalsValid(feedback)
    requires InUnit(table[id].weight) && 0.0 <= decay < 1.0
    requires Target(Mean(Signals(feedback, org, Row(id)))) < threshold
    ensures !Survives(table, org, feedback, decay, threshold, id)
  {
    var n := EnoughSteps(decay, threshold - Target(Mean(Signals(feedback, org, Row(id)))));
    PrunedInTime(table, org, feedback, decay, threshold, n, id);
  }

  /** An edge survives every cycle exactly when its first new weight is at or
      above the threshold and, unless the decay is one, so is its target. */
  lemma SurvivesIff(table: Relationships, org: Id, feedback: seq<Feedback>, decay: real, threshold: real, id: Id)
    requires HasFeedback(table, org, feedback, id) && SignalsValid(feedback)
    requires InUnit(table[id].weight) && InUnit(decay)
    ensures
      var mean := Mean(Signals(feedback, org, Row(id)));
      Survives(table, org, feedback, decay, threshold, id) <==>
        NewWeight(table[id].weight, mean, decay) >= threshold && (decay == 1.0 || (mean + 1.0) / 2.0 >= threshold)
  {
    var w, mean := table[id].weight, Mean(Signals(feedback, org, Row(id)));
    MeanInRange(feedback, org, Row(id));
    FirstUpdate(w, mean, decay);
    if Survives(table, org, feedback, decay, threshold, id) {
      EdgeAfterCycles(table, org, feedback, decay, threshold, 1, id);
      assert id in Cycles(table, org, feedback, decay, threshold, 1);
      assert StaysAbove(w, mean, decay, threshold, 1);
      if decay < 1.0 && Target(mean) < threshold {
        PrunedSometime(table, org, feedback, decay, threshold, id);
      }
    }
    if NewWeight(w, mean, decay) >= threshold && (decay == 1.0 || Target(mean) >= threshold) {
      forall n: nat
        ensures id in Cycles(table, org, feedback, decay, threshold, n)
      {
        EdgeAfterCycles(table, org, feedback, decay, threshold, n, id);
        if Target(mean) >= threshold {
          KeptAbove(w, mean, decay, threshold, n);
        } else {
          Frozen(w, mean, threshold, n);
        }
      }
    }
  }

  lemma FirstUpdate(w: real, mean: real, decay: real)
    ensures WeightAfter(w, mean, decay, 1) == NewWeight(w, mean, decay)
  {
    assert WeightAfter(w, mean, decay, 0) == w;
  }

  /** A decay of one leaves a weight as it is. */
  lemma {:induction false} Frozen(w: real, mean: real, threshold: real, n: nat)
    requires InUnit(w) && -1.0 <= mean <= 1.0 && NewWeight(w, mean, 1.0) >= threshold
    ensures WeightAfter(w, mean, 1.0, n) == w && StaysAbove(w, mean, 1.0, threshold, n)
    decreases n
  {
    ClampNeverActs(w, mean, 1.0);
    if n > 0 {
      Frozen(w, mean, threshold, n - 1);
    }
  }

  /** What belongs to another tenant is left alone. */
  lemma {:induction false} OtherTenants(
      table: Relationships, org: Id, feedback: seq<Feedback>, decay: real, threshold: real, n: nat, id: Id)
    requires id in table && table[id].org != org
    ensures
      var after := Cycles(table, org, feedback, decay, threshold, n);
      id in after && after[id] == table[id]
    decreases n
  {
    if n > 0 {
      OtherTenants(table, org, feedback, decay, threshold, n - 1, id);
    }
  }
}
