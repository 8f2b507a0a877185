/** Greedy packing of paragraphs: the decisions of `chunk_by_paragraphs`
    (`chunking/semantic_chunker.py`) on spans alone, and why they are optimal. */
module Packing {

  datatype Span = Span(start: nat, end: nat)

  /** Paragraphs in text order: non-empty and disjoint. */
  predicate InOrder(spans: seq<Span>) {
    && (forall i | 0 <= i < |spans| :: spans[i].start < spans[i].end)
    && (forall i, j | 0 <= i < j < |spans| :: spans[i].end <= spans[j].start)
  }

  /** A chunk may hold the paragraphs lo..hi: one alone, or several whose extent,
      separators included, is within the budget. */
  predicate Fits(spans: seq<Span>, budget: nat, lo: nat, hi: nat)
    requires lo < hi <= |spans|
  {
    hi == lo + 1 || spans[hi - 1].end - spans[lo].start <= budget
  }

  /** `cuts` are the borders of consecutive runs covering the first `n` spans. */
  predicate IsSplit(cuts: seq<nat>, n: nat) {
    && cuts != [] && cuts[0] == 0 && cuts[|cuts| - 1] == n
    && forall i, j | 0 <= i < j < |cuts| :: cuts[i] < cuts[j]
  }

  predicate RunFits(spans: seq<Span>, budget: nat, cuts: seq<nat>, j: nat)
    requires j + 1 < |cuts|
  {
    cuts[j] < cuts[j + 1] <= |spans| && Fits(spans, budget, cuts[j], cuts[j + 1])
  }

  /** The run could not have taken the next span too. */
  predicate RunIsFull(spans: seq<Span>, budget: nat, cuts: seq<nat>, j: nat)
    requires j + 1 < |cuts|
  {
    cuts[j] < cuts[j + 1] < |spans| ==> !Fits(spans, budget, cuts[j], cuts[j + 1] + 1)
  }

  predicate AllFit(spans: seq<Span>, budget: nat, cuts: seq<nat>) {
    forall j: nat {:trigger RunFits(spans, budget, cuts, j)} | j + 1 < |cuts| :: RunFits(spans, budget, cuts, j)
  }

  predicate AllFull(spans: seq<Span>, budget: nat, cuts: seq<nat>) {
    forall j: nat {:trigger RunIsFull(spans, budget, cuts, j)} | j + 1 < |cuts| :: RunIsFull(spans, budget, cuts, j)
  }

  // ----- optimality

  lemma FitsInside(spans: seq<Span>, budget: nat, lo: nat, hi: nat, a: nat, b: nat)
    requires InOrder(spans) && lo <= a < b <= hi <= |spans| && b > a + 1
    requires Fits(spans, budget, lo, hi)
    ensures Fits(spans, budget, a, b)
  {
    assert lo < a ==> spans[lo].start < spans[a].start;
    assert b < hi ==> spans[b - 1].end < spans[hi - 1].end;
  }

  /** Border by border, a split of full runs is never behind. */
  lemma {:induction false} StaysAhead(spans: seq<Span>, budget: nat, greedy: seq<nat>, other: seq<nat>, j: nat)
    requires InOrder(spans) && IsSplit(greedy, |spans|) && IsSplit(other, |spans|)
    requires AllFull(spans, budget, greedy) && AllFit(spans, budget, other)
    requires j < |greedy| && j < |other|
    ensures other[j] <= greedy[j]
    decreases j
  {
    if j > 0 {
      StaysAhead(spans, budget, greedy, other, j - 1);
      assert RunIsFull(spans, budget, greedy, j - 1);
      assert RunFits(spans, budget, other, j - 1);
      if greedy[j] < other[j] {
        FitsInside(spans, budget, other[j - 1], other[j], greedy[j - 1], greedy[j] + 1);
      }
    }
  }

  /** A split into full runs has the fewest runs of all splits that fit. */
  lemma FullSplitIsOptimal(spans: seq<Span>, budget: nat, greedy: seq<nat>, other: seq<nat>)
    requires InOrder(spans) && IsSplit(greedy, |spans|) && IsSplit(other, |spans|)
    requires AllFull(spans, budget, greedy) && AllFit(spans, budget, other)
    ensures |greedy| <= |other|
  {
    if |other| < |greedy| {
      StaysAhead(spans, budget, greedy, other, |other| - 1);
    }
  }

  // ----- the greedy decisions

  /** Borders of the chunks emitted so far; when `open`, a buffer holds the spans
      from the last border on. */
  datatype Progress = Progress(cuts: seq<nat>, open: bool) {
    function Last(): nat
      requires cuts != []
    {
      cuts[|cuts| - 1]
    }
  }

  /** `flush` before span `i`. */
  function Close(p: Progress, i: nat): Progress {
    if p.open then Progress(p.cuts + [i], false) else p
  }

  /** One more span, as in the body of the loop. */
  function Advance(spans: seq<Span>, budget: nat, p: Progress, i: nat): Progress
    requires p.cuts != [] && i < |spans| && p.Last() <= i
  {
    if spans[i].end - spans[i].start > budget then Progress(Close(p, i).cuts + [i + 1], false)
    else if !p.open then Progress(p.cuts, true)
    else if spans[i].end - spans[p.Last()].start > budget then Progress(Close(p, i).cuts, true)
    else p
  }

  predicate IsProgress(spans: seq<Span>, budget: nat, p: Progress, i: nat) {
    && i <= |spans|
    && p.cuts != [] && IsSplit(p.cuts, p.Last())
    && AllFit(spans, budget, p.cuts) && AllFull(spans, budget, p.cuts)
    && (if p.open
        then p.Last() < i && Fits(spans, budget, p.Last(), i) && spans[i - 1].end - spans[p.Last()].start <= budget
        else p.Last() == i)
  }

  /** Adding a border keeps the runs before it. */
  lemma AddCut(spans: seq<Span>, budget: nat, cuts: seq<nat>, next: nat)
    requires cuts != [] && IsSplit(cuts, cuts[|cuts| - 1]) && AllFit(spans, budget, cuts)
        && AllFull(spans, budget, cuts)
    requires cuts[|cuts| - 1] < next <= |spans|
    requires Fits(spans, budget, cuts[|cuts| - 1], next)
    requires next < |spans| ==> !Fits(spans, budget, cuts[|cuts| - 1], next + 1)
    ensures IsSplit(cuts + [next], next) && AllFit(spans, budget, cuts + [next])
        && AllFull(spans, budget, cuts + [next])
  {
    var more := cuts + [next];
    forall j: nat | j + 1 < |more|
      ensures RunFits(spans, budget, more, j) && RunIsFull(spans, budget, more, j)
    {
      if j + 1 < |cuts| {
        assert RunFits(spans, budget, cuts, j) && RunIsFull(spans, budget, cuts, j);
      }
    }
  }

  /** The buffer may be closed where the next span would not fit. */
  lemma CloseKeeps(spans: seq<Span>, budget: nat, p: Progress, i: nat)
    requires InOrder(spans) && IsProgress(spans, budget, p, i)
    requires p.open && i < |spans| ==> spans[i].end - spans[p.Last()].start > budget
    ensures IsProgress(spans, budget, Close(p, i), i)
  {
    if p.open {
      AddCut(spans, budget, p.cuts, i);
    }
  }

  /** An oversized span is a chunk of its own, and a full one. */
  lemma AloneKeeps(spans: seq<Span>, budget: nat, p: Progress, i: nat)
    requires InOrder(spans) && IsProgress(spans, budget, p, i) && !p.open && i < |spans|
    requires spans[i].end - spans[i].start > budget
    ensures IsProgress(spans, budget, Progress(p.cuts + [i + 1], false), i + 1)
  {
    if i + 1 < |spans| { assert spans[i].end <= spans[i + 1].start; }
    AddCut(spans, budget, p.cuts, i + 1);
  }

  /** Closing the buffer at the end gives an optimal split. */
  lemma FinishIsOptimal(spans: seq<Span>, budget: nat, p: Progress, other: seq<nat>)
    requires InOrder(spans) && IsProgress(spans, budget, p, |spans|) && !p.open
    requires IsSplit(other, |spans|) && AllFit(spans, budget, other)
    ensures |p.cuts| <= |other|
  {
    FullSplitIsOptimal(spans, budget, p.cuts, other);
  }

  // ----- the extents of the runs

  predicate Borders(spans: seq<Span>, cuts: seq<nat>) {
    && (forall k | 0 <= k < |cuts| :: cuts[k] <= |spans|)
    && (forall i, j | 0 <= i < j < |cuts| :: cuts[i] < cuts[j])
  }

  /** From the first character of a run to its last. */
  function Extent(spans: seq<Span>, lo: nat, hi: nat): Span
    requires lo < hi <= |spans|
  {
    Span(spans[lo].start, spans[hi - 1].end)
  }

  function Runs(spans: seq<Span>, cuts: seq<nat>): seq<Span>
    requires Borders(spans, cuts)
  {
    if |cuts| <= 1 then []
    else
      var n := |cuts| - 1;
      assert cuts[n - 1] < cuts[n];
      Runs(spans, cuts[..n]) + [Extent(spans, cuts[n - 1], cuts[n])]
  }

  lemma {:induction false} RunAt(spans: seq<Span>, cuts: seq<nat>, j: nat)
    requires Borders(spans, cuts) && cuts != []
    ensures |Runs(spans, cuts)| == |cuts| - 1
    ensures j + 1 < |cuts| ==> cuts[j] < cuts[j + 1] && Runs(spans, cuts)[j] == Extent(spans, cuts[j], cuts[j + 1])
    decreases |cuts|
  {
    if |cuts| > 1 {
      RunAt(spans, cuts[..|cuts| - 1], j);
    }
  }

  lemma BordersOfProgress(spans: seq<Span>, budget: nat, p: Progress, i: nat)
    requires IsProgress(spans, budget, p, i)
    ensures Borders(spans, p.cuts)
  {
    forall k | 0 <= k < |p.cuts|
      ensures p.cuts[k] <= |spans|
    {
      assert k < |p.cuts| - 1 ==> p.cuts[k] < p.cuts[|p.cuts| - 1];
    }
  }

  lemma {:induction false} AddRun(spans: seq<Span>, cuts: seq<nat>, next: nat)
    requires Borders(spans, cuts + [next]) && cuts != []
    ensures Borders(spans, cuts) && cuts[|cuts| - 1] < next <= |spans|
    ensures Runs(spans, cuts + [next]) == Runs(spans, cuts) + [Extent(spans, cuts[|cuts| - 1], next)]
  {
    var more := cuts + [next];
    assert forall k | 0 <= k < |cuts| :: more[k] == cuts[k];
    assert more[|cuts| - 1] < more[|cuts|] && more[..|cuts|] == cuts;
  }

  lemma {:induction false} RunsInOrder(spans: seq<Span>, cuts: seq<nat>)
    requires InOrder(spans) && Borders(spans, cuts)
    ensures InOrder(Runs(spans, cuts))
  {
    var runs := Runs(spans, cuts);
    forall j: nat | j < |runs|
      ensures runs[j].start < runs[j].end
    {
      RunAt(spans, cuts, j);
      assert cuts[j] < cuts[j + 1] - 1 ==> spans[cuts[j]].end <= spans[cuts[j + 1] - 1].start;
    }
    forall j: nat, k: nat | j < k < |runs|
      ensures runs[j].end <= runs[k].start
    {
      RunAt(spans, cuts, j);
      RunAt(spans, cuts, k);
      assert cuts[j + 1] <= cuts[k];
      assert spans[cuts[j + 1] - 1].end <= spans[cuts[k]].start;
    }
  }

  lemma RunsWithinBudget(spans: seq<Span>, budget: nat, cuts: seq<nat>)
    requires Borders(spans, cuts) && AllFit(spans, budget, cuts)
    ensures forall r | r in Runs(spans, cuts) :: r.end - r.start <= budget || r in spans
  {
    var runs := Runs(spans, cuts);
    forall r | r in runs
      ensures r.end - r.start <= budget || r in spans
    {
      var j: nat :| j < |runs| && runs[j] == r;
      RunAt(spans, cuts, j);
      assert RunFits(spans, budget, cuts, j);
      var first := spans[cuts[j]];
      assert first == Span(first.start, first.end) && first in spans;
    }
  }

  /** A run of one span. */
  lemma AddOneSpan(spans: seq<Span>, cuts: seq<nat>, i: nat)
    requires Borders(spans, cuts + [i + 1]) && cuts != [] && cuts[|cuts| - 1] == i < |spans|
    ensures Borders(spans, cuts) && Runs(spans, cuts + [i + 1]) == Runs(spans, cuts) + [spans[i]]
  {
    AddRun(spans, cuts, i + 1);
    assert Extent(spans, i, i + 1) == spans[i];
  }

  /** The span that a run begins with. */
  lemma FirstOfRun(spans: seq<Span>, cuts: seq<nat>, r: Span) returns (k: nat)
    requires InOrder(spans) && Borders(spans, cuts) && cuts != [] && r in Runs(spans, cuts)
    ensures k < |spans| && r.start == spans[k].start && spans[k].end <= r.end
  {
    var j: nat :| j < |Runs(spans, cuts)| && Runs(spans, cuts)[j] == r;
    RunAt(spans, cuts, j);
    k := cuts[j];
    assert k < cuts[j + 1] - 1 ==> spans[k].end <= spans[cuts[j + 1] - 1].start;
  }

  predicate Covered(spans: seq<Span>, i: nat) {
    exists k | 0 <= k < |spans| :: spans[k].start <= i < spans[k].end
  }

  lemma RunsCover(spans: seq<Span>, cuts: seq<nat>, i: nat)
    requires InOrder(spans) && Borders(spans, cuts) && IsSplit(cuts, |spans|)
    requires Covered(spans, i)
    ensures Covered(Runs(spans, cuts), i)
  {
    var k :| 0 <= k < |spans| && spans[k].start <= i < spans[k].end;
    var j := RunOf(cuts, |spans|, k);
    RunAt(spans, cuts, j);
    ExtentHolds(spans, cuts[j], cuts[j + 1], k);
  }

  lemma ExtentHolds(spans: seq<Span>, lo: nat, hi: nat, k: nat)
    requires InOrder(spans) && lo <= k < hi <= |spans|
    ensures Extent(spans, lo, hi).start <= spans[k].start && spans[k].end <= Extent(spans, lo, hi).end
  {
    assert lo < k ==> spans[lo].end <= spans[k].start;
    assert k < hi - 1 ==> spans[k].end <= spans[hi - 1].start;
  }

  /** The run of a split that holds position `k`. */
  lemma RunOf(cuts: seq<nat>, n: nat, k: nat) returns (j: nat)
    requires IsSplit(cuts, n) && k < n
    ensures j + 1 < |cuts| && cuts[j] <= k < cuts[j + 1]
  {
    j := 0;
    while k >= cuts[j + 1]
      invariant j + 1 < |cuts| && cuts[j] <= k
      decreases |cuts| - j
    {
      j := j + 1;
    }
  }
}
