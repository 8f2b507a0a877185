/** The algebra of merging: when the order of chunks is all that matters. */
module FactMerge {
  import opened FactIndex

  lemma {:induction false} AbsorbConcat(key: Fact -> Key, x: seq<Fact>, b: seq<Fact>, c: seq<Fact>)
    ensures Absorb(key, Absorb(key, x, b), c) == Absorb(key, x, b + c)
    decreases |c|
  {
    if c == [] {
      assert b + c == b;
    } else {
      AbsorbConcat(key, x, b, c[..|c| - 1]);
      assert (b + c)[..|b + c| - 1] == b + c[..|c| - 1];
    }
  }

  lemma {:induction false} AbsorbDistinct(key: Fact -> Key, x: seq<Fact>, facts: seq<Fact>)
    requires DistinctKeys(key, x)
    ensures DistinctKeys(key, Absorb(key, x, facts))
    decreases |facts|
  {
    if facts != [] {
      AbsorbDistinct(key, x, facts[..|facts| - 1]);
    }
  }

  lemma {:induction false} DedupDistinct(key: Fact -> Key, facts: seq<Fact>)
    ensures DistinctKeys(key, Dedup(key, facts))
    decreases |facts|
  {
    if facts != [] {
      DedupDistinct(key, facts[..|facts| - 1]);
    }
  }

  /** A list without two copies of a key is what both loops make of it. */
  lemma {:induction false} DistinctIsKept(key: Fact -> Key, facts: seq<Fact>)
    requires DistinctKeys(key, facts)
    ensures Dedup(key, facts) == facts && Best(key, facts) == facts
    decreases |facts|
  {
    if facts != [] {
      var front, f := facts[..|facts| - 1], facts[|facts| - 1];
      DistinctIsKept(key, front);
      NewAtTheEnd(key, front, f, facts);
    }
  }

  lemma NewAtTheEnd(key: Fact -> Key, front: seq<Fact>, f: Fact, facts: seq<Fact>)
    requires DistinctKeys(key, facts) && facts == front + [f]
    ensures Put(key, front, f) == facts && PutBetter(key, front, f) == facts
  {
    assert facts[|front|] == f && forall j | 0 <= j < |front| :: facts[j] == front[j];
  }

  // ----- absorbing a reduced list

  predicate Contains(key: Fact -> Key, index: seq<Fact>, k: Key) {
    Find(key, index, k) >= 0
  }

  lemma FindIsPlace(key: Fact -> Key, z: seq<Fact>, k: Key, i: int)
    requires DistinctKeys(key, z) && -1 <= i < |z|
    requires if i >= 0 then key(z[i]) == k else forall j | 0 <= j < |z| :: key(z[j]) != k
    ensures Find(key, z, k) == i
  {
  }

  /** An update leaves the other keys where they are. */
  lemma OthersStay(key: Fact -> Key, z: seq<Fact>, f: Fact, k: Key)
    requires DistinctKeys(key, z) && k != key(f)
    ensures Find(key, PutBetter(key, z, f), k) == Find(key, z, k)
  {
    FindIsPlace(key, PutBetter(key, z, f), k, Find(key, z, k));
  }

  /** Once a key is in the dict its place is fixed, so updates of two keys commute. */
  lemma Commute(key: Fact -> Key, z: seq<Fact>, f: Fact, s: Fact)
    requires DistinctKeys(key, z) && Contains(key, z, key(f)) && key(f) != key(s)
    ensures PutBetter(key, PutBetter(key, z, f), s) == PutBetter(key, PutBetter(key, z, s), f)
    ensures Contains(key, PutBetter(key, z, s), key(f))
  {
    OthersStay(key, z, f, key(s));
    OthersStay(key, z, s, key(f));
  }

  lemma {:induction false} PutLate(key: Fact -> Key, z: seq<Fact>, s: seq<Fact>, f: Fact)
    requires DistinctKeys(key, z) && Contains(key, z, key(f)) && forall j | 0 <= j < |s| :: key(s[j]) != key(f)
    ensures Absorb(key, PutBetter(key, z, f), s) == PutBetter(key, Absorb(key, z, s), f)
    ensures Contains(key, Absorb(key, z, s), key(f))
    decreases |s|
  {
    if s != [] {
      var front := s[..|s| - 1];
      PutLate(key, z, front, f);
      AbsorbDistinct(key, z, front);
      Commute(key, Absorb(key, z, front), f, s[|s| - 1]);
    }
  }

  /** A better copy of the same key makes the copy before it immaterial. */
  lemma PutTwice(key: Fact -> Key, y: seq<Fact>, b: Fact, f: Fact)
    requires DistinctKeys(key, y) && key(b) == key(f) && f.confidence > b.confidence
    ensures PutBetter(key, PutBetter(key, y, b), f) == PutBetter(key, y, f)
    ensures Contains(key, PutBetter(key, y, b), key(f))
  {
    var i, z := Find(key, y, key(f)), PutBetter(key, y, b);
    FindIsPlace(key, z, key(f), if i < 0 then |y| else i);
  }

  /** Every fact absorbed is there with at least its confidence. */
  lemma {:induction false} AbsorbAtLeast(key: Fact -> Key, x: seq<Fact>, facts: seq<Fact>, p: nat)
    requires DistinctKeys(key, x) && p < |facts|
    ensures
      var z := Absorb(key, x, facts);
      var i := Find(key, z, key(facts[p]));
      i >= 0 && z[i].confidence >= facts[p].confidence
    decreases |facts|
  {
    var front, last := facts[..|facts| - 1], facts[|facts| - 1];
    var y := Absorb(key, x, front);
    AbsorbDistinct(key, x, front);
    AbsorbDistinct(key, x, facts);
    var z := Absorb(key, x, facts);
    if p < |front| {
      AbsorbAtLeast(key, x, front, p);
      FindIsPlace(key, z, key(facts[p]), Find(key, y, key(facts[p])));
    } else {
      var i := Find(key, y, key(last));
      FindIsPlace(key, z, key(last), if i < 0 then |y| else i);
    }
  }

  lemma AbsorbReplaced(key: Fact -> Key, x: seq<Fact>, b: seq<Fact>, f: Fact, i: nat)
    requires DistinctKeys(key, x) && DistinctKeys(key, b) && i < |b|
    requires key(b[i]) == key(f) && f.confidence > b[i].confidence
    ensures Absorb(key, x, b[i := f]) == PutBetter(key, Absorb(key, x, b), f)
  {
    var p, s := b[..i], b[i + 1..];
    AbsorbDistinct(key, x, p);
    assert b == p + [b[i]] + s && b[i := f] == p + [f] + s;
    AbsorbOneThenRest(key, x, p, b[i], s);
    AbsorbOneThenRest(key, x, p, f, s);
    ReplacedThenRest(key, Absorb(key, x, p), b[i], f, s);
  }

  lemma {:induction false} ReplacedThenRest(key: Fact -> Key, y: seq<Fact>, b: Fact, f: Fact, s: seq<Fact>)
    requires DistinctKeys(key, y) && key(b) == key(f) && f.confidence > b.confidence
    requires forall j | 0 <= j < |s| :: key(s[j]) != key(f)
    ensures Absorb(key, PutBetter(key, y, f), s) == PutBetter(key, Absorb(key, PutBetter(key, y, b), s), f)
  {
    PutTwice(key, y, b, f);
    AbsorbDistinct(key, y, [b]);
    assert [b][..0] == [];
    assert PutBetter(key, y, b) == Absorb(key, y, [b]);
    PutLate(key, PutBetter(key, y, b), s, f);
  }

  lemma {:induction false} AbsorbOneThenRest(key: Fact -> Key, x: seq<Fact>, p: seq<Fact>, f: Fact, s: seq<Fact>)
    ensures Absorb(key, x, p + [f] + s) == Absorb(key, PutBetter(key, Absorb(key, x, p), f), s)
  {
    AbsorbConcat(key, x, p + [f], s);
    assert (p + [f])[..|p|] == p;
  }

  /** Reducing a list first changes nothing for what absorbs it. */
  lemma {:induction false} AbsorbBest(key: Fact -> Key, x: seq<Fact>, facts: seq<Fact>)
    requires DistinctKeys(key, x)
    ensures Absorb(key, x, Best(key, facts)) == Absorb(key, x, facts)
    decreases |facts|
  {
    if facts != [] {
      var front, f := facts[..|facts| - 1], facts[|facts| - 1];
      AbsorbBest(key, x, front);
      var b := Best(key, front);
      AbsorbDistinct(key, [], front);
      var i := Find(key, b, key(f));
      if i < 0 {
        assert (b + [f])[..|b|] == b;
      } else if f.confidence > b[i].confidence {
        AbsorbReplaced(key, x, b, f, i);
      } else {
        AbsorbAtLeast(key, x, b, i);
      }
    }
  }

  // ----- the laws

  /** The caller's own copies of each key end with the one to keep. */
  ghost predicate LastIsBest(key: Fact -> Key, facts: seq<Fact>) {
    forall p, q | 0 <= p < |facts| && 0 <= q < |facts| && key(facts[p]) == key(facts[q]) && Winner(key, facts, p)
      && IsLast(key, facts, q) ::
      facts[p] == facts[q]
  }

  predicate IsLast(key: Fact -> Key, facts: seq<Fact>, q: nat)
    requires q < |facts|
  {
    forall j | q < j < |facts| :: key(facts[j]) != key(facts[q])
  }

  ghost predicate HasLast(key: Fact -> Key, facts: seq<Fact>, f: Fact) {
    exists q :: 0 <= q < |facts| && IsLast(key, facts, q) && facts[q] == f
  }

  /** `kept` has the last copy of each key, keys in order of first appearance. */
  ghost predicate KeepsLast(key: Fact -> Key, facts: seq<Fact>, kept: seq<Fact>) {
    && |kept| == |Keys(key, facts)|
    && (forall i | 0 <= i < |kept| :: key(kept[i]) == Keys(key, facts)[i])
    && (forall i | 0 <= i < |kept| :: HasLast(key, facts, kept[i]))
  }

  /** The dict comprehension keeps the last copies. */
  lemma {:induction false} DedupKeepsLast(key: Fact -> Key, facts: seq<Fact>)
    ensures KeepsLast(key, facts, Dedup(key, facts))
    decreases |facts|
  {
    if facts != [] {
      var front, f := facts[..|facts| - 1], facts[|facts| - 1];
      DedupKeepsLast(key, front);
      assert facts == front + [f];
      PutKeepsLast(key, front, f, Dedup(key, front));
    }
  }

  lemma LastStep(key: Fact -> Key, front: seq<Fact>, f: Fact, b: Fact)
    requires HasLast(key, front, b) && key(b) != key(f)
    ensures HasLast(key, front + [f], b)
  {
    var q :| 0 <= q < |front| && IsLast(key, front, q) && front[q] == b;
    var facts := front + [f];
    assert facts[q] == b && forall j | q < j < |front| :: facts[j] == front[j];
    assert IsLast(key, facts, q);
  }

  lemma PutKeepsLast(key: Fact -> Key, front: seq<Fact>, f: Fact, kept: seq<Fact>)
    requires KeepsLast(key, front, kept)
    ensures KeepsLast(key, front + [f], Put(key, kept, f))
  {
    var facts, after, i := front + [f], Put(key, kept, f), Find(key, kept, key(f));
    assert facts[..|facts| - 1] == front;
    KeysAreDistinct(key, front);
    if i >= 0 {
      assert Keys(key, front)[i] == key(f);
    }
    forall j | 0 <= j < |after| ensures HasLast(key, facts, after[j]) {
      if j < |kept| && j != i {
        assert HasLast(key, front, kept[j]);
        LastStep(key, front, f, kept[j]);
      } else {
        assert facts[|front|] == f && IsLast(key, facts, |front|);
      }
    }
  }

  lemma OneLast(key: Fact -> Key, facts: seq<Fact>, p: nat, q: nat)
    requires p < |facts| && q < |facts| && key(facts[p]) == key(facts[q])
    requires IsLast(key, facts, p) && IsLast(key, facts, q)
    ensures p == q
  {
  }

  /** The two loops agree exactly on the lists whose last copies are their best. */
  lemma {:induction false} DedupIsBestIff(key: Fact -> Key, facts: seq<Fact>)
    ensures Dedup(key, facts) == Best(key, facts) <==> LastIsBest(key, facts)
  {
    var kept, best := Dedup(key, facts), Best(key, facts);
    DedupKeepsLast(key, facts);
    BestKeepsBest(key, facts);
    KeysAreDistinct(key, facts);
    forall i | 0 <= i < |kept|
      ensures LastIsBest(key, facts) ==> kept[i] == best[i]
    {
      assert HasWinner(key, facts, best[i]) && HasLast(key, facts, kept[i]);
    }
    if kept == best {
      forall p, q | 0 <= p < |facts| && 0 <= q < |facts| && key(facts[p]) == key(facts[q]) && Winner(key, facts, p)
        && IsLast(key, facts, q)
        ensures facts[p] == facts[q]
      {
        var i :| 0 <= i < |kept| && Keys(key, facts)[i] == key(facts[p]);
        assert HasWinner(key, facts, best[i]) && HasLast(key, facts, kept[i]);
        var p' :| 0 <= p' < |facts| && Winner(key, facts, p') && facts[p'] == best[i];
        var q' :| 0 <= q' < |facts| && IsLast(key, facts, q') && facts[q'] == kept[i];
        OneWinner(key, facts, p, p');
        OneLast(key, facts, q, q');
      }
    }
  }

  /** A merge keeps the best copies of both lists, whatever the second one is,
      exactly when the last copies of the first are its best. */
  lemma MergeKeepsBestIff(key: Fact -> Key, mine: seq<Fact>)
    ensures (forall theirs :: Merged(key, mine, theirs) == Best(key, mine + theirs)) <==> LastIsBest(key, mine)
  {
    DedupIsBestIff(key, mine);
    forall theirs
      ensures LastIsBest(key, mine) ==> Merged(key, mine, theirs) == Best(key, mine + theirs)
    {
      AbsorbConcat(key, [], mine, theirs);
    }
    if forall theirs :: Merged(key, mine, theirs) == Best(key, mine + theirs) {
      assert Merged(key, mine, []) == Best(key, mine + []);
      assert mine + [] == mine;
    }
  }

  /** It happens: the weaker copy comes last in the first list, and wins. */
  lemma LastCopyWins(key: Fact -> Key, good: Fact, poor: Fact)
    requires key(good) == key(poor) && good.confidence > poor.confidence
    ensures Merged(key, [good, poor], []) == [poor] && Best(key, [good, poor] + []) == [good]
  {
    assert [good, poor][..1] == [good] && [good, poor] + [] == [good, poor];
    DistinctIsKept(key, [good]);
  }

  /** Merging associates, whatever comes before and after, exactly when the last
      copies of the middle list are its best. */
  lemma AssociativeIff(key: Fact -> Key, b: seq<Fact>)
    ensures (forall a, c :: Associates(key, a, b, c)) <==> LastIsBest(key, b)
  {
    DedupIsBestIff(key, b);
    if LastIsBest(key, b) {
      forall a, c ensures Associates(key, a, b, c) {
        Associate(key, a, b, c);
      }
    }
    if forall a, c :: Associates(key, a, b, c) {
      assert Associates(key, [], b, []);
      AbsorbDistinct(key, [], b);
      DistinctIsKept(key, Best(key, b));
      DedupDistinct(key, b);
      DistinctIsKept(key, Dedup(key, b));
    }
  }

  predicate Associates(key: Fact -> Key, a: seq<Fact>, b: seq<Fact>, c: seq<Fact>) {
    Merged(key, Merged(key, a, b), c) == Merged(key, a, Merged(key, b, c))
  }

  lemma Associate(key: Fact -> Key, a: seq<Fact>, b: seq<Fact>, c: seq<Fact>)
    requires Dedup(key, b) == Best(key, b)
    ensures Associates(key, a, b, c)
  {
    var x := Dedup(key, a);
    DedupDistinct(key, a);
    AbsorbDistinct(key, x, b);
    DistinctIsKept(key, Merged(key, a, b));
    AbsorbConcat(key, x, b, c);
    AbsorbConcat(key, [], b, c);
    AbsorbBest(key, x, b + c);
  }

  /** Merging a list with itself gives it back exactly when its keys are distinct. */
  lemma IdempotentIff(key: Fact -> Key, a: seq<Fact>)
    ensures Merged(key, a, a) == a <==> DistinctKeys(key, a)
  {
    DedupDistinct(key, a);
    AbsorbDistinct(key, Dedup(key, a), a);
    if DistinctKeys(key, a) {
      DistinctIsKept(key, a);
      AbsorbItself(key, a, a);
    }
  }

  lemma {:induction false} AbsorbItself(key: Fact -> Key, x: seq<Fact>, facts: seq<Fact>)
    requires DistinctKeys(key, x) && forall f | f in facts :: f in x
    ensures Absorb(key, x, facts) == x
    decreases |facts|
  {
    if facts != [] {
      var f := facts[|facts| - 1];
      AbsorbItself(key, x, facts[..|facts| - 1]);
      assert f in facts;
      var i :| 0 <= i < |x| && x[i] == f;
      FindIsPlace(key, x, key(f), i);
    }
  }
}
