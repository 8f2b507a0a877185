/** Merging one given pair of results (`DistillResult.merge`): the second list may
    make up for what the dict comprehension over the first one drops. */
module FactPairs {
  import opened FactIndex
  import opened FactMerge

  // ----- one place of the dict

  /** What the loop over `theirs` makes of a fact in the dict. */
  function Kept(key: Fact -> Key, f: Fact, theirs: seq<Fact>): (g: Fact)
    ensures key(g) == key(f) && g.confidence >= f.confidence
  {
    if theirs == [] then f
    else
      var g, t := Kept(key, f, theirs[..|theirs| - 1]), theirs[|theirs| - 1];
      if key(t) == key(f) && t.confidence > g.confidence then t else g
  }

  lemma {:induction false} KeptIsWinner(key: Fact -> Key, f: Fact, theirs: seq<Fact>)
    ensures HasWinner(key, [f] + theirs, Kept(key, f, theirs))
    decreases |theirs|
  {
    if theirs == [] {
      assert Winner(key, [f], 0) && [f] + theirs == [f];
    } else {
      var front, t := theirs[..|theirs| - 1], theirs[|theirs| - 1];
      KeptIsWinner(key, f, front);
      KeptStep(key, [f] + front, t, Kept(key, f, front));
      assert [f] + theirs == ([f] + front) + [t];
    }
  }

  predicate IsBetter(key: Fact -> Key, f: Fact, theirs: seq<Fact>, q: nat) {
    q < |theirs| && key(theirs[q]) == key(f) && theirs[q].confidence > f.confidence
  }

  ghost predicate HasBetter(key: Fact -> Key, f: Fact, theirs: seq<Fact>) {
    exists q :: IsBetter(key, f, theirs, q)
  }

  /** A fact stays unless there is a better copy of it, and then gives way to the
      leftmost of the best. */
  lemma {:induction false} KeptIs(key: Fact -> Key, f: Fact, theirs: seq<Fact>)
    ensures
      var g := Kept(key, f, theirs);
      if HasBetter(key, f, theirs) then g.confidence > f.confidence && HasWinner(key, theirs, g) else g == f
  {
    var all, g := [f] + theirs, Kept(key, f, theirs);
    KeptIsWinner(key, f, theirs);
    var p :| 0 <= p < |all| && Winner(key, all, p) && all[p] == g;
    if q: nat :| IsBetter(key, f, theirs, q) {
      assert all[q + 1] == theirs[q];
    }
    if p > 0 {
      assert all[0] == f && theirs[p - 1] == g && IsBetter(key, f, theirs, p - 1);
      WinnerWithout(key, f, theirs, p);
    }
  }

  lemma WinnerWithout(key: Fact -> Key, f: Fact, theirs: seq<Fact>, p: nat)
    requires 0 < p <= |theirs| && Winner(key, [f] + theirs, p)
    ensures Winner(key, theirs, p - 1)
  {
    var all := [f] + theirs;
    forall q | 0 <= q < |theirs| && key(theirs[q]) == key(theirs[p - 1])
      ensures if q < p - 1 then theirs[q].confidence < theirs[p - 1].confidence
              else theirs[q].confidence <= theirs[p - 1].confidence
    {
      assert all[q + 1] == theirs[q];
    }
  }

  lemma SameWinner(key: Fact -> Key, facts: seq<Fact>, a: Fact, b: Fact)
    requires HasWinner(key, facts, a) && HasWinner(key, facts, b) && key(a) == key(b)
    ensures a == b
  {
    var p :| 0 <= p < |facts| && Winner(key, facts, p) && facts[p] == a;
    var q :| 0 <= q < |facts| && Winner(key, facts, q) && facts[q] == b;
    OneWinner(key, facts, p, q);
  }

  /** The second list makes up for having `mine` where `best` should be: it has a copy
      that beats both, or its own best copy is `best` itself. */
  ghost predicate MakesUp(key: Fact -> Key, mine: Fact, best: Fact, theirs: seq<Fact>) {
    || mine == best
    || HasBetter(key, best, theirs)
    || (mine.confidence < best.confidence && HasWinner(key, theirs, best))
  }

  lemma {:induction false} KeptSameIff(key: Fact -> Key, mine: Fact, best: Fact, theirs: seq<Fact>)
    requires key(mine) == key(best) && mine.confidence <= best.confidence
    ensures Kept(key, mine, theirs) == Kept(key, best, theirs) <==> MakesUp(key, mine, best, theirs)
  {
    KeptIs(key, mine, theirs);
    KeptIs(key, best, theirs);
    if q: nat :| IsBetter(key, best, theirs, q) {
      assert IsBetter(key, mine, theirs, q);
      SameWinner(key, theirs, Kept(key, mine, theirs), Kept(key, best, theirs));
    } else if mine.confidence < best.confidence && HasWinner(key, theirs, best) {
      var p :| 0 <= p < |theirs| && Winner(key, theirs, p) && theirs[p] == best;
      assert IsBetter(key, mine, theirs, p);
      SameWinner(key, theirs, Kept(key, mine, theirs), best);
    }
  }

  // ----- the whole dict

  /** The same keys in the same places. */
  predicate SameKeys(key: Fact -> Key, x: seq<Fact>, y: seq<Fact>) {
    |x| == |y| && forall i | 0 <= i < |x| :: key(x[i]) == key(y[i])
  }

  lemma {:induction false} AbsorbAt(key: Fact -> Key, x: seq<Fact>, theirs: seq<Fact>, i: nat)
    requires DistinctKeys(key, x) && i < |x|
    ensures |Absorb(key, x, theirs)| >= |x| && Absorb(key, x, theirs)[i] == Kept(key, x[i], theirs)
    decreases |theirs|
  {
    if theirs != [] {
      var front := theirs[..|theirs| - 1];
      AbsorbAt(key, x, front, i);
      AbsorbDistinct(key, x, front);
    }
  }

  /** What is new goes to the same places, whatever the copies in the dict. */
  lemma {:induction false} NewFactsAgree(key: Fact -> Key, x: seq<Fact>, y: seq<Fact>, theirs: seq<Fact>)
    requires DistinctKeys(key, x) && DistinctKeys(key, y) && SameKeys(key, x, y)
    ensures
      var a, b := Absorb(key, x, theirs), Absorb(key, y, theirs);
      SameKeys(key, a, b) && |a| >= |x| && a[|x|..] == b[|x|..]
    decreases |theirs|
  {
    if theirs != [] {
      var front, t := theirs[..|theirs| - 1], theirs[|theirs| - 1];
      NewFactsAgree(key, x, y, front);
      AbsorbDistinct(key, x, front);
      AbsorbDistinct(key, y, front);
      PutAgrees(key, Absorb(key, x, front), Absorb(key, y, front), t, |x|);
    }
  }

  lemma PutAgrees(key: Fact -> Key, a: seq<Fact>, b: seq<Fact>, t: Fact, n: nat)
    requires DistinctKeys(key, a) && DistinctKeys(key, b) && SameKeys(key, a, b)
    requires n <= |a| && a[n..] == b[n..]
    ensures
      var c, d := PutBetter(key, a, t), PutBetter(key, b, t);
      SameKeys(key, c, d) && |c| >= n && c[n..] == d[n..]
  {
    var i := Find(key, a, key(t));
    FindIsPlace(key, b, key(t), i);
    assert i >= n ==> a[n..][i - n] == b[n..][i - n];
  }

  lemma {:induction false} AbsorbSameIff(key: Fact -> Key, x: seq<Fact>, y: seq<Fact>, theirs: seq<Fact>)
    requires DistinctKeys(key, x) && DistinctKeys(key, y) && SameKeys(key, x, y)
    requires forall i | 0 <= i < |x| :: x[i].confidence <= y[i].confidence
    ensures Absorb(key, x, theirs) == Absorb(key, y, theirs) <==>
            forall i | 0 <= i < |x| :: MakesUp(key, x[i], y[i], theirs)
  {
    var a, b := Absorb(key, x, theirs), Absorb(key, y, theirs);
    NewFactsAgree(key, x, y, theirs);
    forall i | 0 <= i < |x|
      ensures a[i] == b[i] <==> MakesUp(key, x[i], y[i], theirs)
    {
      AbsorbAt(key, x, theirs, i);
      AbsorbAt(key, y, theirs, i);
      KeptSameIff(key, x[i], y[i], theirs);
    }
    if forall i | 0 <= i < |x| :: MakesUp(key, x[i], y[i], theirs) {
      forall i | 0 <= i < |a| ensures a[i] == b[i] {
        if i >= |x| {
          assert a[|x|..][i - |x|] == b[|x|..][i - |x|];
        }
      }
    }
  }

  /** The second list makes up for every key whose last copy in the first list is not
      the copy to keep. */
  ghost predicate MakesUpForAll(key: Fact -> Key, mine: seq<Fact>, theirs: seq<Fact>) {
    forall last, best | HasLast(key, mine, last) && HasWinner(key, mine, best) && key(last) == key(best) ::
      MakesUp(key, last, best, theirs)
  }

  /** The merge of a given pair keeps the best copies of both lists exactly when the
      second list makes up for the first. */
  lemma PairKeepsBestIff(key: Fact -> Key, mine: seq<Fact>, theirs: seq<Fact>)
    ensures Merged(key, mine, theirs) == Best(key, mine + theirs) <==> MakesUpForAll(key, mine, theirs)
  {
    var kept, best := Dedup(key, mine), Best(key, mine);
    AbsorbConcat(key, [], mine, theirs);
    DedupDistinct(key, mine);
    AbsorbDistinct(key, [], mine);
    DedupKeepsLast(key, mine);
    BestKeepsBest(key, mine);
    forall i | 0 <= i < |kept|
      ensures kept[i].confidence <= best[i].confidence
    {
      var p, q := Copies(key, mine, kept[i], best[i]);
    }
    AbsorbSameIff(key, kept, best, theirs);
    if forall i | 0 <= i < |kept| :: MakesUp(key, kept[i], best[i], theirs) {
      forall l, b | HasLast(key, mine, l) && HasWinner(key, mine, b) && key(l) == key(b)
        ensures MakesUp(key, l, b, theirs)
      {
        var p, q := Copies(key, mine, l, b);
        var i := PlaceOf(key, mine, kept, best, p, q);
      }
    }
  }

  lemma Copies(key: Fact -> Key, mine: seq<Fact>, last: Fact, best: Fact) returns (p: nat, q: nat)
    requires HasLast(key, mine, last) && HasWinner(key, mine, best) && key(last) == key(best)
    ensures p < |mine| && Winner(key, mine, p) && mine[p] == best
    ensures q < |mine| && IsLast(key, mine, q) && mine[q] == last
    ensures last.confidence <= best.confidence
  {
    p :| 0 <= p < |mine| && Winner(key, mine, p) && mine[p] == best;
    q :| 0 <= q < |mine| && IsLast(key, mine, q) && mine[q] == last;
  }

  lemma PlaceOf(key: Fact -> Key, mine: seq<Fact>, kept: seq<Fact>, best: seq<Fact>, p: nat, q: nat) returns (i: nat)
    requires KeepsLast(key, mine, kept) && KeepsBest(key, mine, best)
    requires p < |mine| && q < |mine| && key(mine[p]) == key(mine[q])
    requires Winner(key, mine, p) && IsLast(key, mine, q)
    ensures i < |kept| && i < |best| && kept[i] == mine[q] && best[i] == mine[p]
  {
    KeysAreDistinct(key, mine);
    i :| 0 <= i < |kept| && Keys(key, mine)[i] == key(mine[p]);
    var p', q' := Copies(key, mine, kept[i], best[i]);
    OneWinner(key, mine, p, p');
    OneLast(key, mine, q, q');
  }
}
