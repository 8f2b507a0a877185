/** `ORDER BY ... LIMIT n`: a sort key that leaves ties open fixes the result
    only up to those ties, so the query is specified by what it must satisfy. */
module OrderLimit {
  import opened Basics

  ghost predicate TotalPreorder<T(!new)>(before: (T, T) -> bool) {
    && (forall a, b :: before(a, b) || before(b, a))
    && (forall a, b, c :: before(a, b) && before(b, c) ==> before(a, c))
  }

  function Elements<T>(s: seq<T>): set<T> {
    set x | x in s
  }

  /** `picked` is a possible answer: the right number of distinct rows, in
      order, none of them after a row left behind. */
  ghost predicate IsTop<T>(items: set<T>, before: (T, T) -> bool, limit: nat, picked: seq<T>) {
    && Distinct(picked)
    && |picked| == Min(limit, |items|)
    && (forall x | x in picked :: x in items)
    && (forall i, j | 0 <= i < j < |picked| :: before(picked[i], picked[j]))
    && (forall p, x | p in picked && x in items && x !in picked :: before(p, x))
  }

  lemma {:induction false} DistinctCardinality<T>(s: seq<T>)
    requires Distinct(s)
    ensures |Elements(s)| == |s|
    decreases |s|
  {
    if s != [] {
      var t := s[..|s| - 1];
      DistinctCardinality(t);
      assert Elements(s) == Elements(t) + {s[|s| - 1]};
    }
  }

  method First<T(==, !new)>(items: set<T>, before: (T, T) -> bool) returns (best: T)
    requires items != {} && TotalPreorder(before)
    ensures best in items && forall x | x in items :: before(best, x)
  {
    best :| best in items;
    var rest := items - {best};
    while rest != {}
      invariant rest <= items && best in items
      invariant forall x | x in items - rest :: before(best, x)
      decreases rest
    {
      var x :| x in rest;
      if !before(best, x) {
        assert before(x, best);
        best := x;
      }
      rest := rest - {x};
    }
  }

  /** The rows not returned yet. */
  ghost predicate Remaining<T>(items: set<T>, picked: seq<T>, rest: set<T>) {
    && rest <= items
    && Distinct(picked)
    && (forall x | x in items :: x in rest || x in picked)
    && (forall x | x in picked :: x in items && x !in rest)
  }

  method Take<T(==, !new)>(items: set<T>, before: (T, T) -> bool, limit: nat) returns (picked: seq<T>)
    requires TotalPreorder(before)
    ensures IsTop(items, before, limit, picked)
  {
    picked := [];
    var rest := items;
    while |picked| < limit && rest != {}
      invariant Remaining(items, picked, rest)
      invariant |picked| + |rest| == |items| && |picked| <= limit
      invariant forall i, j | 0 <= i < j < |picked| :: before(picked[i], picked[j])
      invariant forall p, x | p in picked && x in rest :: before(p, x)
      decreases rest
    {
      var best := First(rest, before);
      picked := picked + [best];
      rest := rest - {best};
    }
  }
}
