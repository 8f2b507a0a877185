/** PostgreSQL's `WITH RECURSIVE ... UNION`: the step runs on the rows found in
    the last round, and only rows not seen before survive into the next. */
module RecursiveCte {

  /** `c` is a derivation of its last row from a base row. */
  ghost predicate IsDerivation<T(!new)>(base: set<T>, step: T -> set<T>, c: seq<T>) {
    && c != []
    && c[0] in base
    && forall i | 0 < i < |c| :: c[i] in step(c[i - 1])
  }

  ghost predicate Derivable<T(!new)>(base: set<T>, step: T -> set<T>, x: T) {
    exists c: seq<T> :: IsDerivation(base, step, c) && c[|c| - 1] == x
  }

  ghost predicate Closed<T(!new)>(step: T -> set<T>, rows: set<T>) {
    forall x | x in rows :: step(x) <= rows
  }

  lemma DerivableStep<T(!new)>(base: set<T>, step: T -> set<T>, x: T, y: T)
    requires Derivable(base, step, x) && y in step(x)
    ensures Derivable(base, step, y)
  {
    var c :| IsDerivation(base, step, c) && c[|c| - 1] == x;
    var d := c + [y];
    assert IsDerivation(base, step, d) && d[|d| - 1] == y;
  }

  lemma {:induction false} DerivationStaysInside<T(!new)>(base: set<T>, step: T -> set<T>, rows: set<T>, c: seq<T>)
    requires base <= rows && Closed(step, rows)
    requires IsDerivation(base, step, c)
    ensures c[|c| - 1] in rows
    decreases |c|
  {
    if |c| > 1 {
      var d := c[..|c| - 1];
      assert IsDerivation(base, step, d);
      DerivationStaysInside(base, step, rows, d);
      assert c[|c| - 1] in step(d[|d| - 1]);
    }
  }

  /** The rows one application of the step yields from the working table. */
  function Expand<T(==, !new)>(step: T -> set<T>, working: set<T>): set<T> {
    set x, y | x in working && y in step(x) :: y
  }

  lemma ExpandSound<T(!new)>(base: set<T>, step: T -> set<T>, universe: set<T>, working: set<T>)
    requires working <= universe && Closed(step, universe)
    requires forall x | x in working :: Derivable(base, step, x)
    ensures Expand(step, working) <= universe
    ensures forall y | y in Expand(step, working) :: Derivable(base, step, y)
  {
    forall y | y in Expand(step, working)
      ensures Derivable(base, step, y) && y in universe
    {
      var x :| x in working && y in step(x);
      DerivableStep(base, step, x, y);
    }
  }

  lemma BaseDerivable<T(!new)>(base: set<T>, step: T -> set<T>, x: T)
    requires x in base
    ensures Derivable(base, step, x)
  {
    assert IsDerivation(base, step, [x]) && [x][0] == x;
  }

  lemma DerivableInside<T(!new)>(base: set<T>, step: T -> set<T>, rows: set<T>, x: T)
    requires base <= rows && Closed(step, rows) && Derivable(base, step, x)
    ensures x in rows
  {
    var c :| IsDerivation(base, step, c) && c[|c| - 1] == x;
    DerivationStaysInside(base, step, rows, c);
  }

  /** Every row whose step has been taken leads only to rows already found. */
  ghost predicate ExploredBut<T(!new)>(step: T -> set<T>, rows: set<T>, working: set<T>) {
    forall x | x in rows && x !in working :: step(x) <= rows
  }

  lemma ExploreRound<T(!new)>(step: T -> set<T>, rows: set<T>, working: set<T>)
    requires ExploredBut(step, rows, working)
    ensures ExploredBut(step, rows + Expand(step, working), Expand(step, working) - rows)
  {
    forall x | x in rows && x in working
      ensures step(x) <= Expand(step, working)
    {}
  }

  ghost predicate AllDerivable<T(!new)>(base: set<T>, step: T -> set<T>, rows: set<T>) {
    forall x | x in rows :: Derivable(base, step, x)
  }

  /** The query terminates when finitely many rows can ever appear, and its
      result is exactly the set of derivable rows, the least closed set. */
  method Union<T(==, !new)>(base: set<T>, step: T -> set<T>, ghost universe: set<T>) returns (rows: set<T>)
    requires base <= universe && Closed(step, universe)
    ensures base <= rows <= universe && Closed(step, rows)
    ensures forall x :: x in rows <==> Derivable(base, step, x)
  {
    rows := base;
    var working := base;
    forall x | x in base ensures Derivable(base, step, x) { BaseDerivable(base, step, x); }
    while working != {}
      invariant base <= rows <= universe && working <= rows
      invariant ExploredBut(step, rows, working)
      invariant AllDerivable(base, step, rows)
      decreases universe - rows, working
    {
      ExpandSound(base, step, universe, working);
      ExploreRound(step, rows, working);
      var found := Expand(step, working);
      var newRows := found - rows;
      if newRows == {} {
        assert found <= rows by { forall y | y in found ensures y in rows { assert y !in newRows; } }
        assert rows + found == rows;
      } else {
        assert universe - (rows + found) < universe - rows by {
          var y :| y in newRows;
          assert y in universe - rows && y !in universe - (rows + found);
        }
      }
      rows, working := rows + found, newRows;
    }
    forall x | Derivable(base, step, x) ensures x in rows { DerivableInside(base, step, rows, x); }
  }
}
